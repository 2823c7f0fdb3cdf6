/** The rollback timer of an unconfirmed switch, and the dataplane that follows the live mode. */
module SwitchTimers {
  import opened Net
  import opened SwitchState
  import opened SwitchTheorems

  // ---- The timer ----

  /** An armed timer is that of the pending switch, and stands at its deadline. */
  predicate TimerOk(s: Switch) {
    s.timer.Some? ==> s.pending.Some? && s.timer.value == s.pending.value.expires
  }

  /** The event arms the timer: a successful request, or a restart within the window. */
  predicate Arms(s: Switch, e: Event, now: int) {
    Succeeds(s, e, now) || (e.Reboot? && s.pending.Some? && !Expired(s.pending.value, now))
  }

  lemma DeadlineAhead(now: int, sec: int)
    ensures now + 29 * SECOND < Deadline(now, sec)
  {
  }

  /** A successful request is armed to roll back at the deadline it records. */
  lemma SuccessArms(s: Switch, e: Event, now: int)
    requires Succeeds(s, e, now)
    ensures var t := Step(s, e, now); t.pending.Some? && t.timer == Some(t.pending.value.expires)
    ensures now + 29 * SECOND < Step(s, e, now).pending.value.expires
  {
    hide Apply, Valid, ExpireFirst, StagedDns, Staged, StageFiles, StageWorks, Deadline, ChangesWan, Loaded;
    ApplyStages(s, e.req, e.world, now, e.expiry, e.x, e.undo);
    DeadlineAhead(now, e.req.timeout);
  }

  /** A request that finds nothing pending and does not succeed leaves nothing pending and no timer. */
  lemma UnstagedHasNoTimer(s: Switch, req: Request, w: World, now: int, x: Faults, undo: Faults)
    requires Valid(req, w) && s.pending.None? && s.timer.None?
    requires StageSwitch(s, req, w, now, x, undo).1 != Switched
    ensures var t := StageSwitch(s, req, w, now, x, undo).0; t.pending.None? && t.timer.None?
  {
    hide Valid, Staged, StagedDns, ChangesWan, StageFiles, RestoreFiles;
  }

  lemma RollbackStopsTimer(s: Switch, x: Faults)
    requires TimerOk(s)
    ensures Rollback(s, x).timer.None? && TimerOk(Rollback(s, x))
  {
  }

  /** A request that does not succeed leaves the switch with or without its record as a rollback of an expired one
      would. */
  lemma FailedRequestTimer(s: Switch, e: Event, now: int)
    requires TimerOk(s) && e.DoApply? && !Succeeds(s, e, now)
    ensures var t, r := Step(s, e, now), if Valid(e.req, e.world) then ExpireFirst(s, now, e.expiry) else s;
            t.pending == r.pending && t.timer == r.timer
  {
    hide Valid, Rollback, StageSwitch, MustRestoreWan, Loaded;
    if Valid(e.req, e.world) {
      RollbackStopsTimer(s, e.expiry);
      var r := ExpireFirst(s, now, e.expiry);
      if r.pending.None? {
        if StageSwitch(r, e.req, e.world, now, e.x, e.undo).1 != Switched {
          UnstagedHasNoTimer(r, e.req, e.world, now, e.x, e.undo);
        }
      }
    }
  }

  /** Exactly when a pending switch has its timer armed after an event: the event armed it, or it was armed
      and the event did not try to roll back. */
  lemma TimerStep(s: Switch, e: Event, now: int)
    requires TimerOk(s)
    ensures var t := Step(s, e, now);
            && TimerOk(t)
            && (t.pending.Some? ==> (t.timer.Some? <==> Arms(s, e, now) || (s.timer.Some? && !Attempts(s, e, now))))
  {
    hide Rollback, Apply, Valid;
    if Succeeds(s, e, now) {
      SucceedsMeansApply(s, e, now);
      SuccessArms(s, e, now);
    } else if e.DoApply? {
      FailedRequestTimer(s, e, now);
      RollbackStopsTimer(s, e.expiry);
    } else {
      RollbackStopsTimer(s, FaultsOf(e));
      if e.Reboot? {
        RollbackStopsTimer(Restart(s, e.env), e.rx);
      }
    }
  }

  predicate ArmsAt(s: Switch, events: seq<Event>, at: seq<int>, k: nat)
    requires k < |events| == |at|
  {
    Arms(After(s, events, at, k), events[k], at[k])
  }

  /** Event `k` tried to roll back, and nothing has armed the timer since. */
  ghost predicate DisarmedSince(s: Switch, events: seq<Event>, at: seq<int>, k: nat, n: nat)
    requires k < n <= |events| == |at|
  {
    && Attempts(After(s, events, at, k), events[k], at[k])
    && forall m :: k <= m < n ==> !ArmsAt(s, events, at, m)
  }

  ghost predicate Disarmed(s: Switch, events: seq<Event>, at: seq<int>, n: nat)
    requires n <= |events| == |at|
  {
    exists k :: 0 <= k < n && DisarmedSince(s, events, at, k, n)
  }

  /**
   * Over every run with restarts: whatever is pending has its timer armed for its deadline, except exactly
   * where a rollback was tried and failed since the request or the last restart within the window.
   */
  lemma {:induction false} PendingIsArmed(s: Switch, events: seq<Event>, at: seq<int>, n: nat)
    requires n <= |events| == |at| && s.pending.None? && s.timer.None?
    ensures var r := After(s, events, at, n);
            && TimerOk(r)
            && (r.pending.Some? ==>
                r.timer == if Disarmed(s, events, at, n) then None else Some(r.pending.value.expires))
  {
    hide Step, Arms, Attempts;
    if n == 0 {
    } else {
      var r, e, now := After(s, events, at, n - 1), events[n - 1], at[n - 1];
      var t := After(s, events, at, n);
      PendingIsArmed(s, events, at, n - 1);
      TimerStep(r, e, now);
      LastDisarm(s, events, at, n);
      PendingUnlessArmed(r, e, now);
    }
  }

  /** Without a request that succeeds, what is pending was pending before. */
  lemma PendingUnlessArmed(s: Switch, e: Event, now: int)
    ensures Step(s, e, now).pending.Some? && !Arms(s, e, now) ==> s.pending.Some?
  {
    hide Step;
    PendingKeptOrStaged(s, e, now);
  }

  lemma LastDisarm(s: Switch, events: seq<Event>, at: seq<int>, n: nat)
    requires 0 < n <= |events| == |at|
    ensures Disarmed(s, events, at, n) <==>
            && !ArmsAt(s, events, at, n - 1)
            && (Attempts(After(s, events, at, n - 1), events[n - 1], at[n - 1]) || Disarmed(s, events, at, n - 1))
  {
    hide Step, Arms, Attempts, After;
    if !ArmsAt(s, events, at, n - 1) {
      if Attempts(After(s, events, at, n - 1), events[n - 1], at[n - 1]) {
        assert DisarmedSince(s, events, at, n - 1, n);
      }
      if Disarmed(s, events, at, n - 1) {
        var m := n - 1;
        var k :| 0 <= k < m && DisarmedSince(s, events, at, k, m);
        assert DisarmedSince(s, events, at, k, n);
      }
      if Disarmed(s, events, at, n) {
        var k :| 0 <= k < n && DisarmedSince(s, events, at, k, n);
        if k < n - 1 {
          assert DisarmedSince(s, events, at, k, n - 1);
        }
      }
    }
  }

  // ---- The callback ----

  /** No failure that a rollback would notice. */
  predicate Notices(x: Faults) {
    x.hosts || x.wan || x.uci || x.mode
  }

  /** The callback of an armed timer runs, without a noticed failure, before anything else happens at or
      after its time. */
  predicate PromptAt(s: Switch, events: seq<Event>, at: seq<int>, i: nat)
    requires i < |events| == |at|
  {
    var r := After(s, events, at, i);
    r.timer.Some? && r.timer.value <= at[i] ==> events[i].Undo? && !Notices(events[i].ux)
  }

  ghost predicate Prompt(s: Switch, events: seq<Event>, at: seq<int>)
    requires |events| == |at|
  {
    forall i :: 0 <= i < |events| ==> PromptAt(s, events, at, i)
  }

  /** The event tries to roll back, and the record stays. */
  predicate FailsToUndo(s: Switch, e: Event, now: int) {
    Attempts(s, e, now) && Step(s, e, now).pending == s.pending
  }

  predicate FailsToUndoAt(s: Switch, events: seq<Event>, at: seq<int>, i: nat)
    requires i < |events| == |at|
  {
    FailsToUndo(After(s, events, at, i), events[i], at[i])
  }

  lemma CallbackClears(s: Switch, x: Faults)
    requires s.pending.Some? && !Notices(x)
    ensures Rollback(s, x).pending.None? && Rollback(s, x).env == s.pending.value.from
  {
  }

  /**
   * Nothing outlives its deadline. In a run with prompt callbacks in which no rollback fails, whatever is pending
   * after an event at time `t` has its deadline after `t`.
   */
  lemma {:induction false} NothingOutlivesItsDeadline(s: Switch, events: seq<Event>, at: seq<int>, n: nat)
    requires n <= |events| == |at| && s.pending.None? && s.timer.None? && Prompt(s, events, at)
    requires forall i :: 0 <= i < n ==> !FailsToUndoAt(s, events, at, i)
    ensures var r := After(s, events, at, n);
            && TimerOk(r) && (r.pending.Some? ==> r.timer.Some?)
            && (r.pending.Some? && n > 0 ==> at[n - 1] < r.pending.value.expires)
  {
    hide Step, Attempts, Arms;
    if n == 0 {
    } else {
      var r, e, now := After(s, events, at, n - 1), events[n - 1], at[n - 1];
      NothingOutlivesItsDeadline(s, events, at, n - 1);
      assert PromptAt(s, events, at, n - 1) && !FailsToUndoAt(s, events, at, n - 1);
      TimerStep(r, e, now);
      PendingKeptOrStaged(r, e, now);
      if Succeeds(r, e, now) {
        SuccessArms(r, e, now);
      } else if r.pending.Some? && r.pending.value.expires <= now {
        CallbackIsUndo(r, e, now);
      }
      if Step(r, e, now).pending.Some? && !Succeeds(r, e, now) {
        ArmedOrAttempted(r, e, now);
      }
    }
  }

  lemma CallbackIsUndo(s: Switch, e: Event, now: int)
    requires s.pending.Some? && e.Undo? && !Notices(e.ux)
    ensures Step(s, e, now).pending.None?
  {
    hide Rollback;
    CallbackClears(s, e.ux);
  }

  lemma ArmedOrAttempted(s: Switch, e: Event, now: int)
    requires Step(s, e, now).pending == s.pending && !FailsToUndo(s, e, now)
    ensures !Attempts(s, e, now)
  {
    hide Step, Attempts;
  }

  // ---- The dataplane ----

  /** Neither a rollback within the event nor a change of the dataplane mode fails. */
  predicate Faultless(e: Event) {
    !Notices(FaultsOf(e)) && (e.DoApply? ==> !e.x.mode)
  }

  /** A restarted process begins in the committed mode. */
  predicate StartsCommitted(s: Switch, e: Event) {
    e.Reboot? ==> Some(e.env) == s.committed
  }

  /** The dataplane is in the mode of the pending switch, or in the committed one. */
  predicate InMode(s: Switch) {
    && s.committed.Some?
    && match s.pending
       case None => s.env == s.committed.value
       case Some(p) => s.env == p.to && p.from == s.committed.value
  }

  lemma RollbackRestoresMode(s: Switch, x: Faults)
    requires s.committed.Some? && !Notices(x)
    requires if s.pending.Some? then s.pending.value.from == s.committed.value else s.env == s.committed.value
    ensures InMode(Rollback(s, x)) && Rollback(s, x).pending.None? && Rollback(s, x).committed == s.committed
  {
  }

  lemma StagingSetsMode(s: Switch, req: Request, w: World, now: int, x: Faults, undo: Faults)
    requires InMode(s) && s.pending.None? && Valid(req, w) && !x.mode
    ensures InMode(StageSwitch(s, req, w, now, x, undo).0)
  {
    hide Valid, Staged, StagedDns, ChangesWan, StageFiles, RestoreFiles, Loaded;
  }

  lemma RequestKeepsMode(s: Switch, e: Event, now: int)
    requires InMode(s) && e.DoApply? && Faultless(e)
    ensures InMode(Step(s, e, now))
  {
    hide Valid, Rollback, StageSwitch, MustRestoreWan, Loaded;
    RollbackRestoresMode(s, e.expiry);
    var r := ExpireFirst(s, now, e.expiry);
    if Valid(e.req, e.world) && r.pending.None? {
      StagingSetsMode(r, e.req, e.world, now, e.x, e.undo);
    }
  }

  lemma EventKeepsMode(s: Switch, e: Event, now: int)
    requires InMode(s) && Faultless(e) && StartsCommitted(s, e)
    ensures InMode(Step(s, e, now))
  {
    hide Rollback, Apply;
    if e.DoApply? {
      RequestKeepsMode(s, e, now);
    } else {
      RollbackRestoresMode(s, FaultsOf(e));
      if e.Reboot? {
        RollbackRestoresMode(Restart(s, e.env), e.rx);
      }
    }
  }

  predicate SmoothAt(s: Switch, events: seq<Event>, at: seq<int>, i: nat)
    requires i < |events| == |at|
  {
    Faultless(events[i]) && StartsCommitted(After(s, events, at, i), events[i])
  }

  /** A faultless event that tries to roll back does. */
  lemma FaultlessUndoes(s: Switch, e: Event, now: int)
    requires Faultless(e)
    ensures !FailsToUndo(s, e, now)
  {
    hide Valid, Rollback, StageSwitch, MustRestoreWan, Loaded;
    if Attempts(s, e, now) {
      CallbackClears(s, FaultsOf(e));
      match e {
        case DoApply(req, w, expiry, x, undo) =>
          RequestClearsExpired(s, e, now);
        case Reboot(env, x) =>
          CallbackClears(Restart(s, env), x);
        case _ =>
      }
    }
  }

  /** A valid request past the deadline does not leave the expired switch pending. */
  lemma RequestClearsExpired(s: Switch, e: Event, now: int)
    requires e.DoApply? && Valid(e.req, e.world) && !Notices(e.expiry)
    requires s.pending.Some? && Expired(s.pending.value, now)
    ensures Step(s, e, now).pending != s.pending
  {
    hide Valid, Rollback, Step;
    CallbackClears(s, e.expiry);
    PendingKeptOrStaged(s, e, now);
    if Succeeds(s, e, now) {
      SuccessArms(s, e, now);
    } else {
      LeftWithoutRecord(s, e, now);
    }
  }

  lemma LeftWithoutRecord(s: Switch, e: Event, now: int)
    requires e.DoApply? && Valid(e.req, e.world) && !Succeeds(s, e, now)
    requires s.pending.Some? && Expired(s.pending.value, now) && Rollback(s, e.expiry).pending.None?
    ensures Step(s, e, now).pending.None?
  {
    hide Valid, Rollback, StageSwitch, MustRestoreWan, Loaded;
    var r := ExpireFirst(s, now, e.expiry);
    StagedOrNothing(r, e.req, e.world, now, e.x, e.undo);
  }

  lemma StagedOrNothing(s: Switch, req: Request, w: World, now: int, x: Faults, undo: Faults)
    requires Valid(req, w) && s.pending.None?
    ensures StageSwitch(s, req, w, now, x, undo).1 != Switched ==>
              StageSwitch(s, req, w, now, x, undo).0.pending.None?
  {
    hide Valid, Staged, StagedDns, ChangesWan, StageFiles, RestoreFiles, Loaded;
  }

  /**
   * The dataplane follows the live mode. In a run with prompt callbacks in which nothing fails, through requests,
   * confirmations, rollbacks and restarts, after every event the dataplane is in the mode that is live at that time.
   */
  lemma {:induction false} DataplaneFollowsLiveMode(s: Switch, events: seq<Event>, at: seq<int>, n: nat)
    requires n <= |events| == |at| && InMode(s) && s.pending.None? && s.timer.None? && Prompt(s, events, at)
    requires forall i :: 0 <= i < |events| ==> SmoothAt(s, events, at, i)
    ensures var r := After(s, events, at, n);
            InMode(r) && (n > 0 ==> r.env == LiveMode(r, at[n - 1]))
  {
    hide Step, InMode, FailsToUndo;
    forall i | 0 <= i < n
      ensures !FailsToUndoAt(s, events, at, i)
    {
      assert SmoothAt(s, events, at, i);
      FaultlessUndoes(After(s, events, at, i), events[i], at[i]);
    }
    NothingOutlivesItsDeadline(s, events, at, n);
    if n == 0 {
    } else {
      DataplaneFollowsLiveMode(s, events, at, n - 1);
      assert SmoothAt(s, events, at, n - 1);
      EventKeepsMode(After(s, events, at, n - 1), events[n - 1], at[n - 1]);
      InModeIsLive(After(s, events, at, n), at[n - 1]);
    }
  }

  lemma InModeIsLive(s: Switch, t: int)
    requires InMode(s) && (s.pending.Some? ==> t < s.pending.value.expires)
    ensures s.env == LiveMode(s, t)
  {
  }

  // ---- Confirmations and restarts, failing or not ----

  /** An accepted confirmation commits the pending mode, ends its window, and applies the mode again if it can. */
  lemma ConfirmEffect(s: Switch, token: string, now: int, x: Faults)
    requires Accepts(s, token, now)
    ensures var t, p := Step(s, DoConfirm(token, x), now), s.pending.value;
            && t.committed == Some(p.to) && t.pending.None? && t.timer.None?
            && t.env == (if x.mode then s.env else p.to) && t.files == s.files && t.uci == s.uci
  {
  }

  /** A restart keeps what is stored and nothing else: the process begins in the mode of its environment without a
      timer. Within the window of a pending switch it applies the pending mode and arms the timer for the same
      deadline; past it, it rolls back. */
  lemma RestartEffect(s: Switch, env: Mode, now: int, x: Faults)
    ensures var t := Step(s, Reboot(env, x), now);
            && t.committed == s.committed
            && (s.pending.None? ==> t == s.(env := env, timer := None))
            && (s.pending.Some? && now < s.pending.value.expires ==>
                && t.pending == s.pending && t.files == s.files && t.uci == s.uci
                && t.timer == Some(s.pending.value.expires) && t.env == (if x.mode then env else s.pending.value.to))
            && (s.pending.Some? && now >= s.pending.value.expires ==>
                t.timer.None? && t.env == if x.mode then env else s.pending.value.from)
  {
  }

  // ---- One disarmed switch ----

  /** A manual rollback that cannot restore the WAN leaves a pending switch without a timer. */
  lemma FailedUndoDisarms(s: Switch, x: Faults, now: int)
    requires s.pending.Some? && s.pending.value.before.wan != map[] && x.uci
    ensures var t := Step(s, Undo(x), now); t.pending == s.pending && t.timer.None?
  {
  }
}
