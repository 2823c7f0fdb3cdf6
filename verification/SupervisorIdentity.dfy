/** Exactly when a changed identity is lost: nobody is going to flush it. */
module SupervisorIdentity {
  import opened Net
  import opened CableState
  import opened SupervisorState
  import opened SupervisorTheorems

  /** Capture runs on an identity or record the last snapshot does not show, and no flush is outstanding. */
  predicate LostIdentity(s: Sup) {
    s.capturing && CurrentSig(s) != s.snap && !FlushOutstanding(s)
  }

  /** The surroundings change the identity unannounced, after everything had been flushed. */
  predicate Loses(s: Sup, e: Event, t: Sup) {
    && s.capturing && CurrentSig(s) == s.snap && !FlushOutstanding(s)
    && Unannounced(e) && CurrentHitch(t) != CurrentHitch(s)
  }

  /** Any change the supervisor sees, a notification, or an unannounced return to the snapshot. */
  predicate Recovers(s: Sup, e: Event, t: Sup) {
    match e
    case Frame(_, _, _) => CurrentSig(t) != CurrentSig(s)
    case Link(down) => s.cpeDown != down
    case NotifyTransparent(_) => true
    case NotifyOther => true
    case EditSpare(_) => CurrentSig(t) == s.snap
    case ReadMac(_) => CurrentSig(t) == s.snap
    case _ => false
  }

  /** What the step theorem says of one event. */
  predicate Accounted(s: Sup, e: Event, t: Sup) {
    LostIdentity(t) <==> (LostIdentity(s) && !Recovers(s, e, t)) || Loses(s, e, t)
  }

  // ---- One lemma an event ----

  lemma FrameAccounted(s: Sup, e: Event, t: Sup)
    requires TimersOk(s) && e.Frame? && Step(s, e, t)
    ensures Accounted(s, e, t)
  {
    hide ComputeHitch, RecordOf, UsableHost, LearnedAfter;
    if s.capturing {
      var l' :| LearnedAfter(s.learned, s.spare, e.role, e.frame, e.now, l') && t == AfterFrame(s, e.role, e.frame, l');
      var u := s.(learned := l', hold := s.hold && !(e.role.Cpe? && UsableHost(e.frame, l'.gw)));
      ScheduledIsOutstanding(u);
      SchedulingShowsNothing(u);
    }
  }

  /** Scheduling a flush changes no signature. */
  lemma SchedulingShowsNothing(s: Sup)
    ensures CurrentSig(ScheduleFlush(s)) == CurrentSig(s)
  {
    hide ComputeHitch, RecordOf;
  }

  lemma LinkAccounted(s: Sup, down: bool)
    requires TimersOk(s)
    ensures Accounted(s, Link(down), ApplyCpeDown(s, down))
  {
    hide ComputeHitch, RecordOf;
    ScheduledIsOutstanding(s.(cpeDown := down, hold := s.hold || down));
  }

  lemma FlushAccounted(s: Sup, id: nat)
    requires TimersOk(s)
    ensures Accounted(s, FlushRuns(id), Flush(s, id))
  {
    hide ComputeHitch, RecordOf;
    if id in s.fired {
      var u := s.(fired := s.fired - {id}, timer := None);
      assert u.armed + u.fired <= s.armed + s.fired;
      ScheduledIsOutstanding(u);
      assert CurrentSig(u.(refreshing := true, snap := CurrentSig(u), edited := false)) == CurrentSig(u);
    }
  }

  lemma FireAccounted(s: Sup, id: nat)
    ensures Accounted(s, TimerFires(id), Fire(s, id))
  {
    hide ComputeHitch, RecordOf;
    if id in s.armed {
      assert id in Fire(s, id).fired;
    }
  }

  lemma NotifyAccounted(s: Sup, ports: Ports)
    requires TimersOk(s)
    ensures Accounted(s, NotifyTransparent(ports), Notify(s, ports))
    ensures Accounted(s, NotifyOther, NotifyOff(s))
  {
    hide ComputeHitch, RecordOf;
    ScheduledIsOutstanding(StopTimer(s));
  }

  lemma BeginAccounted(s: Sup, ports: Ports, loaded: Learned, down: bool)
    ensures Accounted(s, Begin(ports, loaded, down), BeginCapture(s, ports, loaded, down))
  {
    hide ComputeHitch, RecordOf, PortsSet;
    var t := s.(learned := loaded, cpeDown := down, hold := down, capturing := true, key := Some(ports),
                edited := false);
    assert CurrentSig(t.(snap := CurrentSig(t))) == CurrentSig(t);
  }

  lemma UnannouncedAccounted(s: Sup, e: Event, t: Sup)
    requires Step(s, e, t) && (Unannounced(e) || e.RefreshEnds?)
    ensures Accounted(s, e, t)
  {
    hide ComputeHitch, RecordOf;
  }

  /** Exactly when a step ends with a lost identity: it was lost and the event does not recover it, or the
      event is an unannounced change of the identity after everything had been flushed. */
  lemma LostIdentityIff(s: Sup, e: Event, t: Sup)
    requires TimersOk(s) && Step(s, e, t)
    ensures LostIdentity(t) <==> (LostIdentity(s) && !Recovers(s, e, t)) || Loses(s, e, t)
  {
    hide LostIdentity, Loses, Recovers, TimersOk;
    match e {
      case Frame(_, _, _) => FrameAccounted(s, e, t);
      case Link(down) => LinkAccounted(s, down);
      case TimerFires(id) => FireAccounted(s, id);
      case FlushRuns(id) => FlushAccounted(s, id);
      case NotifyTransparent(ports) => NotifyAccounted(s, ports);
      case NotifyOther => NotifyAccounted(s, ("", ""));
      case Begin(ports, loaded, down) => BeginAccounted(s, ports, loaded, down);
      case _ => UnannouncedAccounted(s, e, t);
    }
    assert Accounted(s, e, t);
  }

  // ---- Runs ----

  /** Event `k` loses the identity, and no later event before state `n` recovers it. */
  ghost predicate LostSince(states: seq<Sup>, events: seq<Event>, k: nat, n: nat)
    requires k < n <= |events| < |states|
  {
    && Loses(states[k], events[k], states[k + 1])
    && forall m :: k < m < n ==> !Recovers(states[m], events[m], states[m + 1])
  }

  /** On every interleaving: the identity is lost exactly when some unannounced change lost it and nothing
      has recovered it since. */
  lemma {:induction false} LostIdentityOverRun(states: seq<Sup>, events: seq<Event>, n: nat)
    requires Run(states, events) && Initial(states[0]) && n < |states|
    ensures LostIdentity(states[n]) <==> exists k :: 0 <= k < n && LostSince(states, events, k, n)
  {
    hide LostIdentity, Loses, Recovers, Run, Step, TimersOk, Initial;
    RunLength(states, events);
    if n == 0 {
      NothingLostAtFirst(states[0]);
    } else {
      var s, e, t := states[n - 1], events[n - 1], states[n];
      LostIdentityOverRun(states, events, n - 1);
      NoLostUpdate(states, events, n - 1);
      RunSteps(states, events, n - 1);
      LostIdentityIff(s, e, t);
      if Loses(s, e, t) {
        assert LostSince(states, events, n - 1, n);
      }
      if LostIdentity(s) && !Recovers(s, e, t) {
        var k :| 0 <= k < n - 1 && LostSince(states, events, k, n - 1);
        assert LostSince(states, events, k, n);
      }
      if k :| 0 <= k < n && LostSince(states, events, k, n) {
        if k < n - 1 {
          assert !Recovers(states[n - 1], events[n - 1], states[n]);
          assert LostSince(states, events, k, n - 1);
        }
      }
    }
  }

  lemma NothingLostAtFirst(s: Sup)
    requires Initial(s)
    ensures !LostIdentity(s)
  {
  }

  // ---- One lost identity ----

  const NO_SPARE := Spare(None, None)
  const SPARE_SET := Spare(Some(0xC0A8_21FA), None)
  const BLANK_SIG := Sig(Record(Idle, None, None, None, None, map[]), Identity(CeMode, None, None, None, None))
  const COLD := Sup(false, None, EMPTY, None, {}, {}, 0, false, false, false, NO_SPARE, Some(1), false, BLANK_SIG)

  function WarmUp(): Sup {
    BeginCapture(COLD, ("eth1", "eth2"), EMPTY, false)
  }

  /** A capture starts without a spare address, and then 192.168.33.250 is saved as one: the box should borrow
      it at once, since it knows no customer, and no flush will ever say so. */
  lemma IdentityLossHappens()
    ensures var states := [COLD, WarmUp(), WarmUp().(spare := SPARE_SET, edited := true)];
            var events := [Begin(("eth1", "eth2"), EMPTY, false), EditSpare(SPARE_SET)];
            && Run(states, events) && Initial(states[0]) && LostIdentity(states[2])
            && CurrentHitch(states[2]).mode == SpareMode && states[2].snap.hitch.mode == CeMode
  {
    var states := [COLD, WarmUp(), WarmUp().(spare := SPARE_SET, edited := true)];
    var events := [Begin(("eth1", "eth2"), EMPTY, false), EditSpare(SPARE_SET)];
    assert StepAt(states, events, 0) && StepAt(states, events, 1);
    assert Usable(0xC0A8_21FA);
  }
}
