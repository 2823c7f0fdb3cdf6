/** Commit safety and rollback of the proxy-mode switch, over every sequential run with restarts. */
module SwitchTheorems {
  import opened Net
  import opened Cidrs
  import opened Text
  import opened SwitchState

  // ---- Commit safety ----

  /** The committed mode moves only when a pending switch is confirmed strictly before its deadline. */
  lemma CommitNeedsConfirm(s: Switch, e: Event, now: int)
    ensures var t := Step(s, e, now);
            t.committed == if e.DoConfirm? && Accepts(s, e.token, now) then Some(s.pending.value.to) else s.committed
  {
  }

  /** The settings a request finds: those left by the rollback of an expired switch, if there was one. */
  function Found(s: Switch, now: int, expiry: Faults): Switch {
    ExpireFirst(s, now, expiry)
  }

  /** What a request records when it succeeds: its own terms, and everything as it found it. */
  function RecordFor(s: Switch, e: Event, now: int): Pending
    requires e.DoApply?
  {
    var found := Found(s, now, e.expiry);
    Pending(e.req.token, CommittedMode(found), e.req.mode, Deadline(now, e.req.timeout), Loaded(found.files))
  }

  predicate Succeeds(s: Switch, e: Event, now: int) {
    e.DoApply? && Apply(s, e.req, e.world, now, e.expiry, e.x, e.undo).1 == Switched
  }

  lemma ApplyStages(s: Switch, req: Request, w: World, now: int, expiry: Faults, x: Faults, undo: Faults)
    requires Apply(s, req, w, now, expiry, x, undo).1 == Switched
    ensures Valid(req, w)
    ensures Apply(s, req, w, now, expiry, x, undo) == StageSwitch(Found(s, now, expiry), req, w, now, x, undo)
  {
    hide StageSwitch, Valid, ExpireFirst, MustRestoreWan;
  }

  lemma SuccessRecords(s: Switch, e: Event, now: int)
    requires Succeeds(s, e, now)
    ensures Step(s, e, now).pending == Some(RecordFor(s, e, now))
  {
    hide Apply, StageSwitch, Valid, ExpireFirst;
    ApplyStages(s, e.req, e.world, now, e.expiry, e.x, e.undo);
    SwitchRecords(Found(s, now, e.expiry), e.req, e.world, now, e.x, e.undo);
  }

  /** A pending record is never edited: a step keeps it, removes it, or is a successful request. */
  lemma PendingKeptOrStaged(s: Switch, e: Event, now: int)
    ensures var t := Step(s, e, now);
            t.pending.Some? ==> t.pending == s.pending || Succeeds(s, e, now)
  {
  }

  /** Event `j` is a successful request, and what it recorded is pending from there up to state `n`. */
  ghost predicate StagedAndHeld(s: Switch, events: seq<Event>, at: seq<int>, j: nat, n: nat, p: Pending)
    requires j < n <= |events| == |at|
  {
    && Succeeds(After(s, events, at, j), events[j], at[j])
    && p == RecordFor(After(s, events, at, j), events[j], at[j])
    && forall k :: j < k <= n ==> After(s, events, at, k).pending == Some(p)
  }

  /** Whatever is pending was recorded by one earlier successful request and has been pending since. */
  lemma {:induction false} PendingHasOrigin(s: Switch, events: seq<Event>, at: seq<int>, n: nat)
    requires n <= |events| == |at| && s.pending.None?
    ensures var t := After(s, events, at, n);
            t.pending.Some? ==> exists j :: 0 <= j < n && StagedAndHeld(s, events, at, j, n, t.pending.value)
  {
    hide Step, Succeeds, RecordFor;
    if n == 0 {
    } else {
      var r, t := After(s, events, at, n - 1), After(s, events, at, n);
      PendingHasOrigin(s, events, at, n - 1);
      PendingKeptOrStaged(r, events[n - 1], at[n - 1]);
      if t.pending.Some? {
        if Succeeds(r, events[n - 1], at[n - 1]) {
          SucceedsMeansApply(r, events[n - 1], at[n - 1]);
          SuccessRecords(r, events[n - 1], at[n - 1]);
          assert StagedAndHeld(s, events, at, n - 1, n, t.pending.value);
        } else {
          var j :| 0 <= j < n - 1 && StagedAndHeld(s, events, at, j, n - 1, t.pending.value);
          assert StagedAndHeld(s, events, at, j, n, t.pending.value);
        }
      }
    }
  }

  lemma SucceedsMeansApply(s: Switch, e: Event, now: int)
    requires Succeeds(s, e, now)
    ensures e.DoApply?
  {
  }

  /** Event `i` is an accepted confirmation, before the deadline, of the switch to `mode` that the successful
      request `j` staged and that was pending all the time between. */
  ghost predicate ConfirmedInTime(s: Switch, events: seq<Event>, at: seq<int>, j: nat, i: nat, mode: Mode)
    requires j < i < |events| == |at|
  {
    var before := After(s, events, at, i);
    && events[i].DoConfirm? && Accepts(before, events[i].token, at[i]) && before.pending.value.to == mode
    && StagedAndHeld(s, events, at, j, i, before.pending.value)
    && at[i] < Deadline(at[j], events[j].req.timeout)
  }

  /**
   * Commit safety. In a run that starts with a committed mode and nothing pending, a committed mode other
   * than the first was staged by an earlier successful request and accepted strictly before its deadline.
   */
  lemma {:induction false} CommittedWasConfirmedInTime(s: Switch, events: seq<Event>, at: seq<int>, n: nat)
    requires n <= |events| == |at| && s.committed.Some? && s.pending.None?
    ensures var t := After(s, events, at, n);
            && t.committed.Some?
            && (t.committed != s.committed ==>
                exists j, i :: 0 <= j < i < n && ConfirmedInTime(s, events, at, j, i, t.committed.value))
  {
    hide Step;
    if n == 0 {
    } else {
      var r, i := After(s, events, at, n - 1), n - 1;
      CommittedWasConfirmedInTime(s, events, at, n - 1);
      CommitNeedsConfirm(r, events[i], at[i]);
      if events[i].DoConfirm? && Accepts(r, events[i].token, at[i]) {
        PendingHasOrigin(s, events, at, n - 1);
        var j :| 0 <= j < n - 1 && StagedAndHeld(s, events, at, j, n - 1, r.pending.value);
        RecordExpires(After(s, events, at, j), events[j], at[j]);
        assert ConfirmedInTime(s, events, at, j, i, r.pending.value.to);
      }
    }
  }

  lemma RecordExpires(s: Switch, e: Event, now: int)
    requires Succeeds(s, e, now)
    ensures e.DoApply? && RecordFor(s, e, now).expires == Deadline(now, e.req.timeout)
              && RecordFor(s, e, now).to == e.req.mode
  {
  }

  // ---- The live mode ----

  /** Confirming changes nothing about the live mode, now or later. */
  lemma ConfirmKeepsLiveMode(s: Switch, token: string, now: int, later: int, x: Faults)
    requires Confirm(s, token, now, x).1 == Confirmed
    ensures LiveMode(Confirm(s, token, now, x).0, later) == LiveMode(s, now)
  {
  }

  lemma DeadlineWithin(now: int, sec: int)
    ensures now + 29 * SECOND < Deadline(now, sec) <= now + 600 * SECOND
  {
  }

  /** The successful request `j` staged `mode`, it is still pending at state `n`, and its window of at most ten
      minutes is open at time `t`. */
  ghost predicate WindowOpen(s: Switch, events: seq<Event>, at: seq<int>, j: nat, n: nat, mode: Mode, t: int)
    requires j < n <= |events| == |at|
  {
    var now := After(s, events, at, n);
    && now.pending.Some? && now.pending.value.to == mode && StagedAndHeld(s, events, at, j, n, now.pending.value)
    && t < Deadline(at[j], events[j].req.timeout) <= at[j] + 600 * SECOND
  }

  /**
   * An unconfirmed mode is live only inside the window of the request that staged it, at most ten minutes,
   * whether or not any timer ran.
   */
  lemma UnconfirmedLivesInItsWindow(s: Switch, events: seq<Event>, at: seq<int>, n: nat, t: int)
    requires n <= |events| == |at| && s.committed.Some? && s.pending.None?
    ensures var r := After(s, events, at, n);
            && r.committed.Some?
            && (LiveMode(r, t) != r.committed.value ==>
                exists j :: 0 <= j < n && WindowOpen(s, events, at, j, n, LiveMode(r, t), t))
  {
    hide After, Succeeds, RecordFor;
    CommittedWasConfirmedInTime(s, events, at, n);
    PendingHasOrigin(s, events, at, n);
    var r := After(s, events, at, n);
    if LiveMode(r, t) != r.committed.value {
      var j :| 0 <= j < n && StagedAndHeld(s, events, at, j, n, r.pending.value);
      RecordExpires(After(s, events, at, j), events[j], at[j]);
      DeadlineWithin(at[j], events[j].req.timeout);
      assert WindowOpen(s, events, at, j, n, LiveMode(r, t), t);
    }
  }

  // ---- Rollback ----

  const CLEAN := Faults(false, false, false, false, false, false, false)

  /** What a rollback leaves behind. Failing port, DNS and spare writes are not noticed. */
  lemma RollbackEffect(s: Switch, x: Faults)
    requires s.pending.Some?
    ensures var t, p, was := Rollback(s, x), s.pending.value, Loaded(s.files);
            && t.committed == s.committed
            && (t.pending == s.pending || t.pending.None?)
            && (!x.mode ==> t.env == p.from)
            && t.uci == (if p.before.wan == map[] || x.uci then s.uci else Some(p.before.wan))
            && (t.pending.None? <==>
                  (p.before.hosts == [] || !x.hosts) && (p.before.wan == map[] || (!x.wan && !x.uci)) && !x.mode)
            && (t.pending.None? ==>
                && t.env == p.from && t.timer.None?
                && t.uci == (if p.before.wan != map[] then Some(p.before.wan) else s.uci)
                && Loaded(t.files) == Settings(
                     if p.before.hosts != [] then p.before.hosts else was.hosts,
                     if p.before.wan != map[] then p.before.wan else was.wan,
                     if x.ports then was.ports else p.before.ports,
                     if x.dns then was.dns else p.before.dns,
                     if x.spare then was.spare else p.before.spare))
  {
  }

  /** Failed attempts leave no trace: a clean retry ends where a clean first try would have. */
  lemma RetryIsIdempotent(s: Switch, x: Faults)
    requires s.pending.Some? && Rollback(s, x).pending.Some?
    ensures Rollback(Rollback(s, x), CLEAN) == Rollback(s, CLEAN)
    ensures Rollback(s, CLEAN).pending.None?
  {
  }

  /** The request is turned away before anything is staged. */
  predicate Refused(s: Switch, e: Event, now: int)
    requires e.DoApply?
  {
    Apply(s, e.req, e.world, now, e.expiry, e.x, e.undo).1 in {Invalid, RollbackIncomplete, Unchanged, Busy, NoVip}
  }

  /** A refused request does no more than roll back an expired switch, if it is valid. */
  lemma RefusedChangesNothingElse(s: Switch, e: Event, now: int)
    requires e.DoApply? && Refused(s, e, now)
    ensures Step(s, e, now) == if Valid(e.req, e.world) then ExpireFirst(s, now, e.expiry) else s
  {
    hide Valid, Rollback, Staged, StagedDns, StageFiles, MustRestoreWan, ChangesWan;
  }

  /** Everything but requests that are not refused and accepted confirmations. */
  predicate Quiet(s: Switch, e: Event, now: int) {
    match e
    case DoApply(_, _, _, _, _) => Refused(s, e, now)
    case DoConfirm(token, _) => !Accepts(s, token, now)
    case _ => true
  }

  /** The failures a rollback within the event meets. */
  function FaultsOf(e: Event): Faults {
    match e
    case DoApply(_, _, expiry, _, _) => expiry
    case DoConfirm(_, x) => x
    case Undo(x) => x
    case AskStatus(x) => x
    case Reboot(_, x) => x
  }

  /** What rollback never writes stays as staged. */
  predicate StillStaged(p: Pending, s: Switch, staged: Switch)
  {
    && (p.before.hosts == [] ==> s.files.hosts == staged.files.hosts)
    && (p.before.wan == map[] ==> s.files.wan == staged.files.wan && s.uci == staged.uci)
  }

  lemma QuietStep(s: Switch, e: Event, now: int, staged: Switch)
    requires s.pending.Some? && Quiet(s, e, now) && StillStaged(s.pending.value, s, staged)
    ensures var t, p := Step(s, e, now), s.pending.value;
            && t.committed == s.committed && StillStaged(p, t, staged)
            && (t.pending == s.pending || t.pending.None?)
            && (t.pending.None? ==> UndoneTo(p, staged, FaultsOf(e), t))
  {
    hide Rollback, UndoneTo, Apply;
    match e {
      case DoApply(req, w, expiry, _, _) =>
        RefusedChangesNothingElse(s, e, now);
        RollbackLeaves(s, expiry, staged);
      case Reboot(env, x) =>
        RollbackLeaves(Restart(s, env), x, staged);
      case _ =>
        RollbackLeaves(s, FaultsOf(e), staged);
    }
  }

  lemma RollbackLeaves(s: Switch, x: Faults, staged: Switch)
    requires s.pending.Some? && StillStaged(s.pending.value, s, staged)
    ensures var t, p := Rollback(s, x), s.pending.value;
            && t.committed == s.committed && StillStaged(p, t, staged)
            && (t.pending == s.pending || t.pending.None?)
            && (t.pending.None? ==> UndoneTo(p, staged, x, t))
  {
    RollbackEffect(s, x);
  }

  /** The settings and the mode recorded before the switch, but for what rollback cannot put back. */
  predicate UndoneTo(p: Pending, staged: Switch, x: Faults, t: Switch) {
    var now, b := Loaded(t.files), p.before;
    && t.env == p.from
    && now.hosts == (if b.hosts != [] then b.hosts else Loaded(staged.files).hosts)
    && now.wan == (if b.wan != map[] then b.wan else Loaded(staged.files).wan)
    && t.uci == (if b.wan != map[] then Some(b.wan) else staged.uci)
    && (!x.ports ==> now.ports == b.ports) && (!x.dns ==> now.dns == b.dns) && (!x.spare ==> now.spare == b.spare)
  }

  // ---- The three files whose failing writes go unnoticed ----

  datatype QuietFile = PortsFile | DnsFile | SpareFile

  predicate Fails(f: QuietFile, x: Faults) {
    match f
    case PortsFile => x.ports
    case DnsFile => x.dns
    case SpareFile => x.spare
  }

  predicate Same(f: QuietFile, a: Settings, b: Settings) {
    match f
    case PortsFile => a.ports == b.ports
    case DnsFile => a.dns == b.dns
    case SpareFile => a.spare == b.spare
  }

  /** The event tries to roll back: a manual rollback or timer always, the others once the deadline is past,
      a request only when it is valid. */
  predicate Attempts(s: Switch, e: Event, now: int) {
    && s.pending.Some? && (e.Undo? || Expired(s.pending.value, now))
    && (e.DoApply? ==> Valid(e.req, e.world))
  }

  /** The attempt gets as far as the quiet files, and the write of this one works. */
  predicate PutsBack(s: Switch, e: Event, now: int, f: QuietFile) {
    Attempts(s, e, now) && RestoreWorks(s.pending.value.before, true, FaultsOf(e)) && !Fails(f, FaultsOf(e))
  }

  lemma RollbackQuietFile(s: Switch, x: Faults, f: QuietFile)
    requires s.pending.Some?
    ensures var b := s.pending.value.before;
            Same(f, Loaded(Rollback(s, x).files), b) <==>
            Same(f, Loaded(s.files), b) || (RestoreWorks(b, true, x) && !Fails(f, x))
  {
    match f
    case PortsFile =>
    case DnsFile =>
    case SpareFile =>
  }

  lemma QuietFileStep(s: Switch, e: Event, now: int, f: QuietFile)
    requires s.pending.Some? && Quiet(s, e, now)
    ensures var b := s.pending.value.before;
            Same(f, Loaded(Step(s, e, now).files), b) <==> Same(f, Loaded(s.files), b) || PutsBack(s, e, now, f)
  {
    hide Rollback, Same, Fails, RestoreWorks, Loaded, Apply;
    match e {
      case DoApply(req, w, expiry, _, _) =>
        RefusedChangesNothingElse(s, e, now);
        RollbackQuietFile(s, expiry, f);
      case Reboot(env, x) =>
        RollbackQuietFile(Restart(s, env), x, f);
      case _ =>
        RollbackQuietFile(s, FaultsOf(e), f);
    }
  }

  /** Some attempt among the first `n` events put the file back. */
  ghost predicate PutBackBy(s: Switch, events: seq<Event>, at: seq<int>, n: nat, f: QuietFile)
    requires n <= |events| == |at|
  {
    exists k :: 0 <= k < n && PutsBack(After(s, events, at, k), events[k], at[k], f)
  }

  lemma {:induction false} QuietFileOverRun(s: Switch, events: seq<Event>, at: seq<int>, n: nat, f: QuietFile)
    requires n <= |events| == |at| && s.pending.Some? && PendingFor(s, events, at, n)
    ensures var b := s.pending.value.before;
            Same(f, Loaded(After(s, events, at, n).files), b) <==>
            Same(f, Loaded(s.files), b) || PutBackBy(s, events, at, n, f)
    decreases n
  {
    hide Step, Same, Loaded, Quiet, PutsBack, StillStaged, UndoneTo;
    if n == 0 {
    } else {
      var r := After(s, events, at, n - 1);
      assert QuietAt(s, events, at, n - 1);
      PendingUnmoved(s, events, at, n - 1);
      QuietFileOverRun(s, events, at, n - 1, f);
      QuietFileStep(r, events[n - 1], at[n - 1], f);
      LastAttempt(s, events, at, n, f);
    }
  }

  lemma LastAttempt(s: Switch, events: seq<Event>, at: seq<int>, n: nat, f: QuietFile)
    requires 0 < n <= |events| == |at|
    ensures PutBackBy(s, events, at, n, f) <==>
            PutBackBy(s, events, at, n - 1, f) || PutsBack(After(s, events, at, n - 1), events[n - 1], at[n - 1], f)
  {
    hide After, PutsBack;
  }

  /** Whether a rollback clears the record does not depend on the three quiet writes. */
  lemma ClearingIgnoresQuietWrites(s: Switch, x: Faults, ports: bool, dns: bool, spare: bool)
    ensures Rollback(s, x).pending == Rollback(s, x.(ports := ports, dns := dns, spare := spare)).pending
    ensures Rollback(s, x).env == Rollback(s, x.(ports := ports, dns := dns, spare := spare)).env
  {
  }

  /** The pending record outlives the first `n` events, all of them quiet. */
  predicate PendingFor(s: Switch, events: seq<Event>, at: seq<int>, n: nat)
    requires n <= |events| == |at|
  {
    forall k :: 0 <= k < n ==> QuietAt(s, events, at, k)
  }

  predicate QuietAt(s: Switch, events: seq<Event>, at: seq<int>, k: nat)
    requires k < |events| == |at|
  {
    After(s, events, at, k).pending.Some? && Quiet(After(s, events, at, k), events[k], at[k])
  }

  lemma {:induction false} PendingUnmoved(s: Switch, events: seq<Event>, at: seq<int>, n: nat)
    requires n <= |events| == |at| && s.pending.Some? && PendingFor(s, events, at, n)
    ensures var t, p := After(s, events, at, n), s.pending.value;
            && t.committed == s.committed && StillStaged(p, t, s)
            && (t.pending == s.pending || t.pending.None?)
            && (t.pending.None? ==> n > 0 && UndoneTo(p, s, FaultsOf(events[n - 1]), t))
  {
    hide Step, StillStaged, UndoneTo, Quiet;
    if n == 0 {
      StagedIsStaged(s);
    } else {
      assert QuietAt(s, events, at, n - 1);
      PendingUnmoved(s, events, at, n - 1);
      QuietStep(After(s, events, at, n - 1), events[n - 1], at[n - 1], s);
    }
  }

  lemma StagedIsStaged(s: Switch)
    requires s.pending.Some?
    ensures StillStaged(s.pending.value, s, s)
  {
  }

  /** What a successful request records and writes. */
  lemma SwitchRecords(s: Switch, req: Request, w: World, now: int, x: Faults, undo: Faults)
    requires Valid(req, w) && StageSwitch(s, req, w, now, x, undo).1 == Switched
    ensures var t, b := StageSwitch(s, req, w, now, x, undo).0, Loaded(s.files);
            && t.pending == Some(Pending(req.token, CommittedMode(s), req.mode, Deadline(now, req.timeout), b))
            && t.committed == s.committed && t.env == req.mode && t.uci == s.uci
            && StagedDns(req, w, b.dns).Some?
            && Loaded(t.files) == Staged(req, w, CommittedMode(s), b, StagedDns(req, w, b.dns).value)
            && Loaded(t.files).hosts == (if req.mode.Bypass? then req.hosts.value else b.hosts)
            && (b.wan == map[] ==> (Loaded(t.files).wan == map[] <==> !ChangesWan(req, CommittedMode(s), b.wan, w)))
  {
    var b, from := Loaded(s.files), CommittedMode(s);
    if ChangesWan(req, from, b.wan, w) {
      assert "enabled" in (if req.mode.Bypass? then BypassWan(b.wan, req.wan) else GatewayWan(b.wan));
    }
  }

  /** Every other setting after a switch: hosts change only into bypass mode, ports and spare address only into
      transparent mode; the DNS settings are those asked for, and otherwise as they were, with a reserved
      address for the resolver in transparent mode. */
  lemma SwitchedSettings(s: Switch, req: Request, w: World, now: int, x: Faults, undo: Faults)
    requires Valid(req, w) && StageSwitch(s, req, w, now, x, undo).1 == Switched
    ensures var was, t := s.files, StageSwitch(s, req, w, now, x, undo).0.files;
            && (!req.mode.Transparent? ==> t.ports == was.ports && t.spare == was.spare)
            && (!ChangesWan(req, CommittedMode(s), Loaded(was).wan, w) ==> t.wan == was.wan)
    ensures var b, c := Loaded(s.files), Loaded(StageSwitch(s, req, w, now, x, undo).0.files);
            && (if req.mode.Bypass? then req.hosts == Some(c.hosts) else c.hosts == b.hosts)
            && (if req.mode.Transparent? then c.ports == req.ports else c.ports == b.ports)
            && (if req.mode.Transparent? && req.spare.Some? then Some(c.spare) == req.spare else c.spare == b.spare)
            && (if req.hijack.Some? then Some(c.dns.enabled) == req.hijack else c.dns.enabled == b.dns.enabled)
            && (if req.exclude.Some? then Some(c.dns.exclude) == req.exclude else c.dns.exclude == b.dns.exclude)
            && (if req.mode.Transparent? then Some(c.dns.vip) == w.pickedVip
                else if req.vip != "" then c.dns.vip == req.vip else c.dns.vip == b.dns.vip)
  {
    StagedFilesKept(s, req, w, now, x, undo);
    hide StageSwitch, ValidBypass, BypassWan, GatewayWan, MustRestoreWan, Loaded;
    SwitchRecords(s, req, w, now, x, undo);
    if req.mode.Bypass? {
      BypassNamesWan(req, w);
    }
  }

  lemma StagedFilesKept(s: Switch, req: Request, w: World, now: int, x: Faults, undo: Faults)
    requires Valid(req, w) && StageSwitch(s, req, w, now, x, undo).1 == Switched
    ensures var was, t := s.files, StageSwitch(s, req, w, now, x, undo).0.files;
            && (!req.mode.Transparent? ==> t.ports == was.ports && t.spare == was.spare)
            && (!ChangesWan(req, CommittedMode(s), Loaded(was).wan, w) ==> t.wan == was.wan)
  {
    hide Valid, Staged, StagedDns, ChangesWan, Loaded, Deadline;
  }

  /** The window of a request is the seconds it asks for, between half a minute and ten minutes, two minutes
      when it does not say; its deadline falls on a whole second. */
  lemma WindowOf(now: int, sec: int)
    ensures var window := Deadline(now, sec) - now;
            && (30 <= sec <= 600 ==> (sec - 1) * SECOND < window <= sec * SECOND)
            && (sec <= 0 ==> 119 * SECOND < window <= 120 * SECOND)
            && (0 < sec < 30 ==> 29 * SECOND < window <= 30 * SECOND)
            && (sec > 600 ==> 599 * SECOND < window <= 600 * SECOND)
    ensures Deadline(now, sec) % SECOND == 0
  {
  }

  /** A switch to gateway mode is always valid. One to transparent mode is exactly when it takes two different,
      well-named ports, neither of them of the management LAN or reserved, and a spare address, if it names one, that
      is usable, off the LAN, and has no gateway or another usable address for it. */
  lemma ValidTransparentIff(req: Request, w: World)
    ensures req.mode.Gateway? ==> Valid(req, w)
    ensures req.mode.Transparent? ==>
              (Valid(req, w) <==>
               && IfaceName(req.ports.isp) && IfaceName(req.ports.cpe) && req.ports.isp != req.ports.cpe
               && {req.ports.isp, req.ports.cpe} !! w.members + {w.lanIface} + RESERVED
               && (req.spare.Some? && req.spare.value.ip.Some? ==>
                     && var ip, gw := req.spare.value.ip.value, req.spare.value.gateway;
                     && Cable.Usable(ip) && 1 <= req.spare.value.prefix <= 32
                     && (w.lan.Lan? ==> !Contains(w.lan.net, ip))
                     && (gw == None || (Cable.Usable(gw.value) && gw.value != ip))))
  {
  }

  /** A switch to bypass mode is valid exactly when it names customers and a static WAN with its gateway on it, and, as
      far as the LAN is known, no address of the LAN is on the WAN prefix or a customer's. */
  lemma ValidBypassIff(req: Request, w: World)
    requires req.mode.Bypass?
    ensures Valid(req, w) <==>
            && req.hosts.Some? && req.hosts.value != [] && req.wan.isStatic && !w.lan.BadLan?
            && req.wan.address.Some? && req.wan.mask.Some? && req.wan.gateway.Some?
            && var net := Cidr(req.wan.address.value, req.wan.mask.value);
            && Contains(net, req.wan.gateway.value)
            && (w.lan.Lan? ==>
                  forall ip: Ipv4 :: Contains(w.lan.net, ip) ==> !Contains(net, ip) && !InList(ip, req.hosts.value))
  {
    hide Contains, Overlap;
    if req.hosts.Some? && req.wan.address.Some? && req.wan.mask.Some? && w.lan.Lan? {
      OverlapIff(Cidr(req.wan.address.value, req.wan.mask.value), w.lan.net);
      forall i | 0 <= i < |req.hosts.value|
        ensures Overlap(req.hosts.value[i], w.lan.net) <==>
                exists ip: Ipv4 :: Contains(req.hosts.value[i], ip) && Contains(w.lan.net, ip)
      {
        OverlapIff(req.hosts.value[i], w.lan.net);
      }
    }
  }

  /** Some write of the request fails. */
  predicate SomeWriteFails(req: Request, changesWan: bool, x: Faults) {
    || x.hosts || x.dns || (req.mode.Transparent? && (x.ports || x.spare))
    || (changesWan && x.wan)
  }

  /** The request changes nothing: gateway mode is committed, nothing static is left on the WAN, and the request does
      not mention DNS steering. */
  predicate NothingToDo(s: Switch, req: Request, w: World) {
    && req.mode == CommittedMode(s) == Gateway && req.hijack == None
    && !WanStatic(Loaded(s.files).wan) && !w.uciStatic
  }

  /** Exactly when a request succeeds, on what an expired switch has left: it is valid, nothing is pending, there is
      something to do, transparent mode finds a reserved address, and nothing fails. */
  lemma RequestSucceedsIff(s: Switch, req: Request, w: World, now: int, expiry: Faults, x: Faults, undo: Faults)
    ensures var found := Found(s, now, expiry);
            Apply(s, req, w, now, expiry, x, undo).1 == Switched <==>
            && Valid(req, w) && found.pending.None? && !NothingToDo(found, req, w)
            && (req.mode.Transparent? ==> w.pickedVip.Some?)
            && !SomeWriteFails(req, ChangesWan(req, CommittedMode(found), Loaded(found.files).wan, w), x) && !x.mode
  {
    hide Valid, Rollback, Staged, StageFiles, RestoreFiles, WanStatic, Loaded;
    var found := Found(s, now, expiry);
    if Valid(req, w) && found.pending.None? {
      StagingSucceedsIff(found, req, w, now, x, undo);
      assert CommittedMode(found).Gateway? ==>
               (MustRestoreWan(CommittedMode(found), Loaded(found.files).wan, w) <==>
                WanStatic(Loaded(found.files).wan) || w.uciStatic);
    }
  }

  lemma StagingSucceedsIff(s: Switch, req: Request, w: World, now: int, x: Faults, undo: Faults)
    requires Valid(req, w)
    ensures StageSwitch(s, req, w, now, x, undo).1 == Switched <==>
            && (req.mode.Transparent? ==> w.pickedVip.Some?) && !x.mode
            && !SomeWriteFails(req, ChangesWan(req, CommittedMode(s), Loaded(s.files).wan, w), x)
  {
    hide Valid, Staged, StageFiles, RestoreFiles, Loaded, ChangesWan, Deadline;
  }

  /** The keys of the WAN record that each mode writes. */
  function WanKeys(req: Request): set<string> {
    match req.mode
    case Gateway => {"enabled", "mode"} + CLEARED
    case Bypass => {"enabled", "mode", "address", "netmask", "gateway"}
        + (if req.wan.iface != "" then {"interface"} else {})
    case Transparent => {}
  }

  /** After a switch the WAN record is static exactly in bypass mode, gateway mode holds no address of the old
      one, and nothing else in the record moved. */
  lemma SwitchedWan(s: Switch, req: Request, w: World, now: int, x: Faults, undo: Faults)
    requires Valid(req, w) && StageSwitch(s, req, w, now, x, undo).1 == Switched
    ensures var was, wan := Loaded(s.files).wan, Loaded(StageSwitch(s, req, w, now, x, undo).0.files).wan;
            && (ChangesWan(req, CommittedMode(s), was, w) ==> "enabled" in wan && wan["enabled"] == Flag(true))
            && (req.mode.Gateway? ==> !WanStatic(wan))
            && (req.mode.Bypass? ==>
                && WanStatic(wan) && {"address", "netmask", "gateway"} <= wan.Keys
                && wan["address"] == Addr(req.wan.address.value)
                && wan["netmask"] == Mask(req.wan.mask.value) && wan["gateway"] == Addr(req.wan.gateway.value))
            && (req.mode.Gateway? && ChangesWan(req, CommittedMode(s), was, w) ==>
                forall k :: k in CLEARED ==> k in wan && wan[k] == Str(""))
            && (forall k :: k !in WanKeys(req) ==> (k in wan <==> k in was) && (k in wan ==> wan[k] == was[k]))
  {
    hide StageSwitch, ValidBypass, WanStatic, GatewayWan, BypassWan, StagedDns;
    SwitchRecords(s, req, w, now, x, undo);
    var was := Loaded(s.files).wan;
    GatewayWanClears(was);
    if req.mode.Bypass? {
      BypassNamesWan(req, w);
      BypassWanSets(was, req.wan);
    }
  }

  lemma GatewayWanClears(was: Wan)
    ensures var wan := GatewayWan(was);
            && !WanStatic(wan) && "enabled" in wan && wan["enabled"] == Flag(true)
            && (forall k :: k in CLEARED ==> k in wan && wan[k] == Str(""))
            && (forall k :: k !in {"enabled", "mode"} + CLEARED ==>
                  (k in wan <==> k in was) && (k in wan ==> wan[k] == was[k]))
  {
    hide ToLower, TrimSpace;
    WanTexts();
  }

  lemma BypassWanSets(was: Wan, r: WanRequest)
    requires r.address.Some? && r.mask.Some? && r.gateway.Some?
    ensures var wan := BypassWan(was, r);
            && WanStatic(wan) && {"enabled", "address", "netmask", "gateway"} <= wan.Keys
            && wan["enabled"] == Flag(true) && wan["address"] == Addr(r.address.value)
            && wan["netmask"] == Mask(r.mask.value)
            && wan["gateway"] == Addr(r.gateway.value)
            && (forall k :: k !in {"enabled", "mode", "address", "netmask", "gateway", "interface"} ==>
                  (k in wan <==> k in was) && (k in wan ==> wan[k] == was[k]))
            && (r.iface == "" ==>
                  && ("interface" in wan <==> "interface" in was)
                  && ("interface" in wan ==> wan["interface"] == was["interface"]))
  {
    hide ToLower, TrimSpace;
    WanTexts();
  }

  lemma BypassNamesWan(req: Request, w: World)
    requires ValidBypass(req, w)
    ensures req.wan.address.Some? && req.wan.mask.Some? && req.wan.gateway.Some? && req.hosts.Some?
  {
  }

  lemma WanTexts()
    ensures ToLower(TrimSpace("static")) == "static" && ToLower(TrimSpace("dhcp")) != "static"
  {
    TrimSpaceFixes("static");
    TrimSpaceFixes("dhcp");
  }

  /**
   * Rollback undoes a switch. However many status calls, refused requests, rejected confirmations, restarts and
   * partly failed rollbacks follow a successful request, the rollback that finally clears the record leaves the
   * dataplane in the earlier mode, the system's WAN as recorded and every setting as it was found. The
   * exceptions are exact: hosts stay replaced when none were set before a switch to bypass; an empty WAN record
   * stays replaced when the switch wrote it; ports, DNS and spare settings stay replaced when the switch changed
   * them and no attempt of the run put them back, which does not keep the record from being cleared.
   */
  lemma RollbackUndoesSwitch(s: Switch, req: Request, w: World, now: int, expiry: Faults, x: Faults, undo: Faults,
                             events: seq<Event>, at: seq<int>)
    requires Apply(s, req, w, now, expiry, x, undo).1 == Switched
    requires |events| == |at|
    requires var t := Apply(s, req, w, now, expiry, x, undo).0;
             PendingFor(t, events, at, |events|) && After(t, events, at, |events|).pending.None?
    ensures events != []
    ensures var found, t := Found(s, now, expiry), Apply(s, req, w, now, expiry, x, undo).0;
            var r := After(t, events, at, |events|);
            var b, c, last := Loaded(found.files), Loaded(r.files), FaultsOf(events[|events| - 1]);
            && r.env == CommittedMode(found) && r.committed == found.committed
            && r.uci == (if b.wan != map[] then Some(b.wan) else found.uci)
            && (c.hosts == b.hosts <==> b.hosts != [] || !req.mode.Bypass?)
            && (c.wan == b.wan <==> b.wan != map[] || !ChangesWan(req, CommittedMode(found), b.wan, w))
            && (forall f :: Same(f, c, b) <==> Same(f, Loaded(t.files), b) || PutBackBy(t, events, at, |events|, f))
            && (forall f :: !Fails(f, last) ==> Same(f, c, b))
  {
    hide *;
    var found := Found(s, now, expiry);
    ApplyStages(s, req, w, now, expiry, x, undo);
    var t := Apply(s, req, w, now, expiry, x, undo).0;
    SwitchRecords(found, req, w, now, x, undo);
    PendingUnmoved(t, events, at, |events|);
    UndoneSettings(found, req, w, t, After(t, events, at, |events|), FaultsOf(events[|events| - 1]));
    forall f
      ensures Same(f, Loaded(After(t, events, at, |events|).files), Loaded(found.files)) <==>
              Same(f, Loaded(t.files), Loaded(found.files)) || PutBackBy(t, events, at, |events|, f)
    {
      QuietFileOverRun(t, events, at, |events|, f);
    }
  }

  /** The unnoticed loss: a switch to transparent mode changes the ports, the one rollback that follows cannot
      write them, and still clears the record and restores the mode. */
  lemma UnnoticedLoss(s: Switch, req: Request, w: World, now: int, x: Faults, undo: Faults)
    requires Valid(req, w) && req.mode.Transparent? && StageSwitch(s, req, w, now, x, undo).1 == Switched
    ensures var t := StageSwitch(s, req, w, now, x, undo).0;
            var r := Step(t, Undo(CLEAN.(ports := true)), now);
            r.pending.None? && r.env == CommittedMode(s) && Loaded(r.files).ports == req.ports
  {
    hide StageSwitch, Valid;
    SwitchRecords(s, req, w, now, x, undo);
    var t := StageSwitch(s, req, w, now, x, undo).0;
    RollbackEffect(t, CLEAN.(ports := true));
    CleanClears(t, CLEAN.(ports := true));
  }

  lemma CleanClears(s: Switch, x: Faults)
    requires s.pending.Some? && !x.hosts && !x.wan && !x.uci && !x.mode
    ensures Rollback(s, x).pending.None?
  {
  }

  const FRESH := Switch(Some(Gateway), None, Files(None, None, None, None, None), Gateway, None, None)
  const BOX := World(NoLan, "br-lan", {}, false, Some("172.31.253.53"))
  const TO_TRANSPARENT := Request(Transparent, WanRequest(false, None, None, None, ""), Some([]), 120,
                                  Ports("eth1", "eth2"), None, None, "", None, "t")

  /** What a fresh box reads: DHCP on the WAN, DNS steering on with the reserved address, and nothing else. */
  lemma FreshBoxReads()
    ensures Loaded(FRESH.files) ==
            Settings([], map["enabled" := Flag(true), "mode" := Str("dhcp")], Ports("", ""),
                     Dns(true, [], "172.31.253.53"), SpareConfig(None, 0, None))
  {
  }

  /** Port names: up to fifteen characters, a letter or digit first, then also dots, dashes and underscores. */
  lemma PortNameExamples()
    ensures IfaceName("a") && IfaceName("z9") && IfaceName("A0-b.c_Z") && IfaceName("0") && IfaceName("9Za")
    ensures IfaceName("eth0.1234567890") && !IfaceName("eth0.12345678901") && !IfaceName("")
    ensures !IfaceName(".a") && !IfaceName("-a") && !IfaceName("_a") && !IfaceName("a/b") && !IfaceName("a b")
    ensures !IfaceName("a`") && !IfaceName("a{") && !IfaceName("a@") && !IfaceName("a[") && !IfaceName("a:")
  {
    assert ".a"[0] == '.' && "-a"[0] == '-' && "_a"[0] == '_' && "a/b"[1] == '/' && "a b"[1] == ' ';
    assert "a`"[1] == '`' && "a{"[1] == '{' && "a@"[1] == '@' && "a["[1] == '[' && "a:"[1] == ':';
  }

  /** One such run: a fresh box in gateway mode keeps the ports "eth1" and "eth2" after its rollback. */
  lemma UnnoticedLossHappens()
    ensures Loaded(FRESH.files).ports == Ports("", "") && Valid(TO_TRANSPARENT, BOX)
    ensures var t := StageSwitch(FRESH, TO_TRANSPARENT, BOX, 0, CLEAN, CLEAN).0;
            var r := Step(t, Undo(CLEAN.(ports := true)), 0);
            t.pending.Some? && r.pending.None? && r.env == Gateway && Loaded(r.files).ports == Ports("eth1", "eth2")
  {
    assert IfaceName("eth1") && IfaceName("eth2");
    UnnoticedLoss(FRESH, TO_TRANSPARENT, BOX, 0, CLEAN, CLEAN);
  }

  lemma UndoneSettings(found: Switch, req: Request, w: World, t: Switch, r: Switch, last: Faults)
    requires Valid(req, w) && t.pending.Some?
    requires t.pending.value.from == CommittedMode(found) && t.pending.value.before == Loaded(found.files)
    requires UndoneTo(t.pending.value, t, last, r)
    requires t.uci == found.uci
    requires var b := Loaded(found.files);
             && Loaded(t.files).hosts == (if req.mode.Bypass? then req.hosts.value else b.hosts)
             && (b.wan == map[] ==>
                 (Loaded(t.files).wan == map[] <==> !ChangesWan(req, CommittedMode(found), b.wan, w)))
    ensures var b, c := Loaded(found.files), Loaded(r.files);
            && r.env == CommittedMode(found)
            && r.uci == (if b.wan != map[] then Some(b.wan) else found.uci)
            && (c.hosts == b.hosts <==> b.hosts != [] || !req.mode.Bypass?)
            && (c.wan == b.wan <==> b.wan != map[] || !ChangesWan(req, CommittedMode(found), b.wan, w))
            && (forall f :: !Fails(f, last) ==> Same(f, c, b))
  {
    hide ChangesWan, Loaded;
  }

  /** The files as far as a failing request got with them. */
  function WrittenFiles(s: Switch, req: Request, w: World, x: Faults): Files
    requires Valid(req, w) && StagedDns(req, w, Loaded(s.files).dns).Some?
  {
    var from, b := CommittedMode(s), Loaded(s.files);
    StageFiles(s.files, Staged(req, w, from, b, StagedDns(req, w, b.dns).value), req.mode.Transparent?,
               ChangesWan(req, from, b.wan, w), x)
  }

  /** The undo of a failed request gets past the hosts. */
  predicate PastHosts(b: Settings, undo: Faults) {
    b.hosts == [] || !undo.hosts
  }

  /**
   * A switch whose dataplane step or file write fails is undone at once, and only once: the record is cleared
   * whatever the undo meets, so each setting is as before exactly when the undo wrote it back or the request
   * had not changed it.
   */
  lemma FailedSwitchUndoneIff(s: Switch, req: Request, w: World, now: int, x: Faults, undo: Faults)
    requires Valid(req, w) && s.pending.None?
    requires StageSwitch(s, req, w, now, x, undo).1 in {WriteFailed, PlaneFailed}
    ensures StagedDns(req, w, Loaded(s.files).dns).Some?
    ensures var r := StageSwitch(s, req, w, now, x, undo);
            var b, c, written := Loaded(s.files), Loaded(r.0.files), Loaded(WrittenFiles(s, req, w, x));
            && r.0.pending.None? && r.0.committed == s.committed
            && (c.hosts == b.hosts <==> (b.hosts != [] && !undo.hosts) || written.hosts == b.hosts)
            && (c.wan == b.wan <==> (PastHosts(b, undo) && !undo.wan) || written.wan == b.wan)
            && (forall f :: Same(f, c, b) <==>
                  (PastHosts(b, undo) && !undo.wan && !Fails(f, undo)) || Same(f, written, b))
            && r.0.env == (if r.1 == PlaneFailed && !undo.mode then CommittedMode(s) else s.env)
  {
    hide Valid, Staged, StagedDns, ChangesWan, StageFiles;
  }

  /** An undo that meets no failure puts everything back, but for hosts that a switch to bypass had already
      written where there were none. */
  lemma FailedSwitchIsUndone(s: Switch, req: Request, w: World, now: int, x: Faults)
    requires Valid(req, w) && s.pending.None?
    requires StageSwitch(s, req, w, now, x, CLEAN).1 in {WriteFailed, PlaneFailed}
    ensures var r := StageSwitch(s, req, w, now, x, CLEAN);
            var b, c := Loaded(s.files), Loaded(r.0.files);
            && r.0.pending.None? && r.0.committed == s.committed
            && c.wan == b.wan && c.ports == b.ports && c.dns == b.dns && c.spare == b.spare
            && (c.hosts == b.hosts <==> b.hosts != [] || !req.mode.Bypass? || x.hosts)
            && r.0.env == (if r.1 == PlaneFailed then CommittedMode(s) else s.env)
  {
  }
}
