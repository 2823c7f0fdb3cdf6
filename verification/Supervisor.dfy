/**
 * The supervisor around the learner: which identity the box borrows, and when a snapshot of it is
 * flushed. Every locked section is one atomic event, timers are runtime objects that may fire at any
 * moment after they are armed (a stopped timer may already have fired), and events interleave freely.
 */
module SupervisorState {
  import opened Net
  import opened CableState

  datatype HitchMode = CeMode | SpareMode

  datatype Identity = Identity(mode: HitchMode, ip: Option<Ipv4>, srcMac: Option<Mac>, peMac: Option<Mac>,
                               gw: Option<Ipv4>)

  /** Plan A borrows the customer, Plan B the spare address. */
  function ComputeHitch(l: Learned, spare: Spare, cpeDown: bool, hold: bool, boxMac: Option<Mac>): Identity {
    var never := !l.customer && l.ce.None?;
    if SpareUsable(spare) && (cpeDown || never || hold) then
      Identity(SpareMode, spare.ip, boxMac, l.peMac, if l.gw.Some? then l.gw else spare.gateway)
    else
      Identity(CeMode, l.ce, l.cpeMac, l.peMac, l.gw)
  }

  function FrameSource(frame: seq<Byte>): Option<Ipv4> {
    if |frame| < ETH_LEN then None
    else if Be16(frame, 12) == ETHER_ARP && |frame| >= ETH_LEN + 28 then Some(Ipv4At(frame, ETH_LEN + 14))
    else if Be16(frame, 12) == ETHER_IPV4 && |frame| >= ETH_LEN + 20 then Some(Ipv4At(frame, ETH_LEN + 12))
    else None
  }

  predicate UsableHost(frame: seq<Byte>, gw: Option<Ipv4>) {
    var ip := FrameSource(frame);
    ip.Some? && Usable(ip.value) && ip != gw
  }

  /** The part of the record a change is judged by. */
  datatype Record = Record(phase: Phase, ce: Option<Ipv4>, cpeMac: Option<Mac>, peMac: Option<Mac>, gw: Option<Ipv4>,
                           hosts: map<Ipv4, Mac>)

  /** What a change is judged by: the record and the identity. */
  datatype Sig = Sig(record: Record, hitch: Identity)

  type Ports = (string, string)

  /**
   * `timer` is the supervisor's own handle; `armed` and `fired` are the runtime's flush callbacks that
   * are still due and already waiting for the lock. `snap` is the signature of the last snapshot taken.
   * `edited` says that the surroundings (spare settings, the box's own MAC) changed and neither a
   * notification nor a snapshot has followed yet.
   */
  datatype Sup = Sup(
    capturing: bool, key: Option<Ports>, learned: Learned,
    timer: Option<nat>, armed: set<nat>, fired: set<nat>, nextTimer: nat,
    refreshing: bool, cpeDown: bool, hold: bool,
    spare: Spare, boxMac: Option<Mac>, edited: bool, snap: Sig)

  function CurrentHitch(s: Sup): Identity {
    ComputeHitch(s.learned, s.spare, s.cpeDown, s.hold, s.boxMac)
  }

  function HostSig(l: Learned): map<Ipv4, Mac> {
    map ip | ip in l.hosts :: l.hosts[ip].mac
  }

  function RecordOf(l: Learned): Record {
    Record(l.phase, l.ce, l.cpeMac, l.peMac, l.gw, HostSig(l))
  }

  function CurrentSig(s: Sup): Sig {
    Sig(RecordOf(s.learned), CurrentHitch(s))
  }

  // ---- Timers ----

  function ScheduleFlush(s: Sup): Sup {
    if s.timer.Some? then s
    else s.(timer := Some(s.nextTimer), armed := s.armed + {s.nextTimer}, nextTimer := s.nextTimer + 1)
  }

  /** Stopping a timer disarms it unless it has already fired. */
  function StopTimer(s: Sup): Sup {
    if s.timer.None? then s else s.(timer := None, armed := s.armed - {s.timer.value})
  }

  function Fire(s: Sup, id: nat): Sup {
    if id in s.armed then s.(armed := s.armed - {id}, fired := s.fired + {id}) else s
  }

  /** The locked part of a flush callback. */
  function Flush(s: Sup, id: nat): Sup {
    if id !in s.fired then s
    else
      var s1 := s.(fired := s.fired - {id}, timer := None);
      if !s1.capturing then s1
      else if s1.refreshing then ScheduleFlush(s1)
      else s1.(refreshing := true, snap := CurrentSig(s1), edited := false)
  }

  // ---- Events ----

  datatype Event =
    | Frame(role: Role, frame: seq<Byte>, now: int)
    | Link(down: bool)
    | TimerFires(id: nat)
    | FlushRuns(id: nat)
    | RefreshEnds
    | NotifyTransparent(ports: Ports)
    | NotifyOther
    | Begin(ports: Ports, loaded: Learned, down: bool)
    | EditSpare(newSpare: Spare)
    | ReadMac(newMac: Option<Mac>)

  /** The record after a frame: the learner, then the spare-address ARP. */
  ghost predicate LearnedAfter(l: Learned, spare: Spare, role: Role, frame: seq<Byte>, now: int, l': Learned) {
    exists m :: FrameStep(l, role, frame, now, m) && l' == SpareArp(m, role, frame, spare)
  }

  function AfterFrame(s: Sup, role: Role, frame: seq<Byte>, l': Learned): Sup {
    var hold := s.hold && !(role.Cpe? && UsableHost(frame, l'.gw));
    var t := s.(learned := l', hold := hold);
    if CurrentSig(t) == CurrentSig(s) then t else ScheduleFlush(t)
  }

  function ApplyCpeDown(s: Sup, down: bool): Sup {
    if !s.capturing || s.cpeDown == down then s
    else ScheduleFlush(s.(cpeDown := down, hold := s.hold || down))
  }

  function Notify(s: Sup, ports: Ports): Sup {
    var s1 := StopTimer(s);
    if s1.capturing && s1.key == Some(ports) then ScheduleFlush(s1).(edited := false)
    else s1.(capturing := false, key := None, refreshing := false)
  }

  function NotifyOff(s: Sup): Sup {
    StopTimer(s).(capturing := false, key := None, refreshing := false, hold := false, cpeDown := false)
  }

  predicate PortsSet(ports: Ports) {
    ports.0 != "" && ports.1 != ""
  }

  function BeginCapture(s: Sup, ports: Ports, loaded: Learned, down: bool): Sup {
    if s.capturing || !PortsSet(ports) then s
    else
      var t := s.(learned := loaded, cpeDown := down, hold := down, capturing := true, key := Some(ports),
                  edited := false);
      t.(snap := CurrentSig(t))
  }

  ghost predicate Step(s: Sup, e: Event, t: Sup) {
    match e
    case Frame(role, frame, now) =>
      if !s.capturing then t == s
      else exists l' :: LearnedAfter(s.learned, s.spare, role, frame, now, l') && t == AfterFrame(s, role, frame, l')
    case Link(down) => t == ApplyCpeDown(s, down)
    case TimerFires(id) => t == Fire(s, id)
    case FlushRuns(id) => t == Flush(s, id)
    case RefreshEnds => t == s.(refreshing := false)
    case NotifyTransparent(ports) => t == Notify(s, ports)
    case NotifyOther => t == NotifyOff(s)
    case Begin(ports, loaded, down) => t == BeginCapture(s, ports, loaded, down)
    case EditSpare(spare) => t == s.(spare := spare, edited := true)
    case ReadMac(mac) => t == s.(boxMac := mac, edited := true)
  }

  ghost predicate StepAt(states: seq<Sup>, events: seq<Event>, i: nat)
    requires i < |events| < |states|
  {
    Step(states[i], events[i], states[i + 1])
  }

  ghost predicate Run(states: seq<Sup>, events: seq<Event>) {
    |states| == |events| + 1 && forall i :: 0 <= i < |events| ==> StepAt(states, events, i)
  }

  /** A supervisor before its first notification. */
  predicate Initial(s: Sup) {
    && !s.capturing && s.key.None? && s.learned == EMPTY && !s.refreshing && !s.hold && !s.cpeDown
    && s.timer.None? && s.armed == {} && s.fired == {}
  }
}

/** No update is lost, and the spare address is held through a link-down. */
module SupervisorTheorems {
  import opened Net
  import opened CableState
  import opened CableTheorems
  import opened CableProgress
  import opened CableCustomer
  import opened SupervisorState

  // ---- No lost update ----

  /** A flush callback is due or waiting for the lock. */
  predicate FlushOutstanding(s: Sup) {
    s.armed != {} || s.fired != {}
  }

  /** The handle names a callback that is due or waiting; timers have fresh names and one state each. */
  predicate TimersOk(s: Sup) {
    && (s.timer.Some? ==> s.timer.value in s.armed + s.fired)
    && (forall id :: id in s.armed + s.fired ==> id < s.nextTimer)
    && s.armed !! s.fired
  }

  /** What differs from the last snapshot will be flushed: the record always, the identity as long as the
      surroundings have not changed behind the supervisor's back. */
  predicate NothingLost(s: Sup) {
    s.capturing ==>
      && (RecordOf(s.learned) != s.snap.record ==> FlushOutstanding(s))
      && (CurrentSig(s) != s.snap ==> FlushOutstanding(s) || s.edited)
  }

  predicate TimerInv(s: Sup) {
    TimersOk(s) && NothingLost(s)
  }

  lemma ScheduledIsOutstanding(s: Sup)
    requires TimersOk(s)
    ensures TimerInv(ScheduleFlush(s)) && FlushOutstanding(ScheduleFlush(s))
  {
    hide CurrentSig, RecordOf;
    var t := ScheduleFlush(s);
    if s.timer.None? {
      assert s.nextTimer !in s.armed + s.fired;
      forall id | id in t.armed + t.fired
        ensures id < t.nextTimer
      {
        assert id == s.nextTimer || id in s.armed + s.fired;
      }
      forall id | id in t.armed
        ensures id !in t.fired
      {
        assert id == s.nextTimer || id in s.armed;
      }
      assert s.nextTimer in t.armed;
    }
  }

  lemma FrameKeepsTimers(s: Sup, role: Role, frame: seq<Byte>, l': Learned)
    requires TimerInv(s)
    ensures TimerInv(AfterFrame(s, role, frame, l'))
  {
    hide UsableHost, CurrentHitch, RecordOf;
    var t := s.(learned := l', hold := s.hold && !(role.Cpe? && UsableHost(frame, l'.gw)));
    ScheduledIsOutstanding(t);
  }

  lemma FlushKeepsTimers(s: Sup, id: nat)
    requires TimerInv(s)
    ensures TimerInv(Flush(s, id))
  {
    hide ComputeHitch, RecordOf;
    if id in s.fired {
      var s1 := s.(fired := s.fired - {id}, timer := None);
      assert s1.armed + s1.fired <= s.armed + s.fired;
      ScheduledIsOutstanding(s1);
      assert CurrentSig(s1.(refreshing := true, snap := CurrentSig(s1), edited := false)) == CurrentSig(s1);
    }
  }

  lemma NotifyKeepsTimers(s: Sup, ports: Ports)
    requires TimerInv(s)
    ensures TimerInv(Notify(s, ports)) && TimerInv(NotifyOff(s))
  {
    ScheduledIsOutstanding(StopTimer(s));
  }

  lemma BeginKeepsTimers(s: Sup, ports: Ports, loaded: Learned, down: bool)
    requires TimerInv(s)
    ensures TimerInv(BeginCapture(s, ports, loaded, down))
  {
    var t := s.(learned := loaded, cpeDown := down, hold := down, capturing := true, key := Some(ports),
                edited := false);
    assert CurrentSig(t.(snap := CurrentSig(t))) == CurrentSig(t);
  }

  lemma LinkKeepsTimers(s: Sup, down: bool)
    requires TimerInv(s)
    ensures TimerInv(ApplyCpeDown(s, down))
  {
    ScheduledIsOutstanding(s.(cpeDown := down, hold := s.hold || down));
  }

  lemma FireKeepsTimers(s: Sup, id: nat)
    requires TimerInv(s)
    ensures TimerInv(Fire(s, id))
  {
    if id in s.armed {
      var t := Fire(s, id);
      assert t.armed + t.fired == s.armed + s.fired && id in t.fired;
    }
  }

  lemma StepKeepsTimers(s: Sup, e: Event, t: Sup)
    requires TimerInv(s) && Step(s, e, t)
    ensures TimerInv(t)
  {
    match e
    case Frame(role, frame, now) =>
      if s.capturing {
        var l' :| LearnedAfter(s.learned, s.spare, role, frame, now, l') && t == AfterFrame(s, role, frame, l');
        FrameKeepsTimers(s, role, frame, l');
      }
    case Link(down) => LinkKeepsTimers(s, down);
    case TimerFires(id) => FireKeepsTimers(s, id);
    case FlushRuns(id) => FlushKeepsTimers(s, id);
    case NotifyTransparent(ports) => NotifyKeepsTimers(s, ports);
    case NotifyOther => NotifyKeepsTimers(s, ("", ""));
    case Begin(ports, loaded, down) => BeginKeepsTimers(s, ports, loaded, down);
    case _ =>
  }

  /** On every interleaving: while capture runs, a record that differs from the last snapshot has a flush
      callback outstanding; so has a differing identity, unless the surroundings changed since. */
  lemma {:induction false} NoLostUpdate(states: seq<Sup>, events: seq<Event>, n: nat)
    requires Run(states, events) && Initial(states[0]) && n < |states|
    ensures TimersOk(states[n])
    ensures states[n].capturing && RecordOf(states[n].learned) != states[n].snap.record ==> FlushOutstanding(states[n])
    ensures states[n].capturing && CurrentSig(states[n]) != states[n].snap ==>
              FlushOutstanding(states[n]) || states[n].edited
  {
    hide Step, TimersOk, RecordOf, CurrentSig, FlushOutstanding;
    if n == 0 {
      StartsInOrder(states[0]);
    } else {
      NoLostUpdate(states, events, n - 1);
      assert StepAt(states, events, n - 1);
      StepKeepsTimers(states[n - 1], events[n - 1], states[n]);
    }
  }

  lemma StartsInOrder(s: Sup)
    requires Initial(s)
    ensures TimersOk(s) && !s.capturing
  {
  }

  /** The spare settings or the box's MAC change without a word to the supervisor. */
  predicate Unannounced(e: Event) {
    e.EditSpare? || e.ReadMac?
  }

  lemma OnlyUnannouncedEdits(s: Sup, e: Event, t: Sup)
    requires Step(s, e, t) && !Unannounced(e) && (s.capturing ==> !s.edited)
    ensures t.capturing ==> !t.edited
  {
    hide CurrentSig, LearnedAfter, UsableHost;
  }

  /** As long as nothing changes unannounced, the identity is never lost either: from any state of a run
      with nothing pending from outside, a differing identity has a flush callback outstanding. */
  lemma {:induction false} NoLostIdentity(states: seq<Sup>, events: seq<Event>, i: nat, n: nat)
    requires Run(states, events) && Initial(states[0]) && i <= n < |states|
    requires states[i].capturing ==> !states[i].edited
    requires forall k :: i <= k < n ==> !Unannounced(events[k])
    ensures states[n].capturing ==> !states[n].edited
    ensures states[n].capturing && CurrentSig(states[n]) != states[n].snap ==> FlushOutstanding(states[n])
    decreases n
  {
    hide Step, CurrentSig, FlushOutstanding, RecordOf, TimersOk, Unannounced;
    NoLostUpdate(states, events, n);
    if i == n {
    } else {
      NoLostIdentity(states, events, i, n - 1);
      assert StepAt(states, events, n - 1);
      OnlyUnannouncedEdits(states[n - 1], events[n - 1], states[n]);
    }
  }

  /** An outstanding flush does its work: when it fires and no refresh is running, the snapshot is current. */
  lemma FlushCatchesUp(s: Sup, id: nat)
    requires TimerInv(s) && s.capturing && !s.refreshing && id in s.armed + s.fired
    ensures var t := Flush(Fire(s, id), id); t.snap == CurrentSig(t) && t.refreshing && id !in t.armed + t.fired
  {
    var u := Fire(s, id);
    assert id in u.fired && id !in u.armed;
  }

  // ---- Plan B ----

  /** The box acts as itself: the spare address from its own MAC, through the learned next hop, for whose address
      the configured gateway stands in while it is unknown. */
  predicate OnSpare(s: Sup) {
    var gw := if s.learned.gw.Some? then s.learned.gw else s.spare.gateway;
    CurrentHitch(s) == Identity(SpareMode, s.spare.ip, s.boxMac, s.learned.peMac, gw)
  }

  /** The link came up. */
  predicate LinkUp(e: Event) {
    e.Link? && !e.down
  }

  /** A usable CPE-side frame arrived: one that names a host other than the gateway. */
  predicate CustomerSeen(e: Event, t: Sup) {
    e.Frame? && e.role.Cpe? && UsableHost(e.frame, t.learned.gw)
  }

  /** An event that leaves the running capture in place. */
  predicate SameCapture(s: Sup, t: Sup) {
    s.capturing && t.capturing
  }

  lemma HoldUntilSeen(s: Sup, e: Event, t: Sup)
    requires Step(s, e, t) && SameCapture(s, t)
    ensures s.cpeDown && !LinkUp(e) ==> t.cpeDown
    ensures s.hold && !CustomerSeen(e, t) ==> t.hold
  {
    if e.Frame? {
      var l' :| LearnedAfter(s.learned, s.spare, e.role, e.frame, e.now, l') && t == AfterFrame(s, e.role, e.frame, l');
    }
  }

  predicate NoLinkUp(events: seq<Event>, i: nat, j: nat)
    requires j <= |events|
  {
    forall k :: i < k < j ==> !LinkUp(events[k])
  }

  predicate NoneSeen(states: seq<Sup>, events: seq<Event>, i: nat, j: nat)
    requires j <= |events| < |states|
  {
    forall k :: i < k < j ==> !CustomerSeen(events[k], states[k + 1])
  }

  lemma {:induction false} DownUntilLinkUp(states: seq<Sup>, events: seq<Event>, i: nat, j: nat)
    requires Run(states, events) && i < j < |states| && states[i + 1].cpeDown
    requires (forall k :: i < k <= j ==> states[k].capturing) && NoLinkUp(events, i, j)
    ensures states[j].cpeDown
    decreases j
  {
    if i + 1 == j {
    } else {
      DownUntilLinkUp(states, events, i, j - 1);
      assert StepAt(states, events, j - 1);
      HoldUntilSeen(states[j - 1], events[j - 1], states[j]);
    }
  }

  lemma {:induction false} HoldUntilFrame(states: seq<Sup>, events: seq<Event>, i: nat, j: nat)
    requires Run(states, events) && i < j < |states| && states[i + 1].hold
    requires (forall k :: i < k <= j ==> states[k].capturing) && NoneSeen(states, events, i, j)
    ensures states[j].hold
    decreases j
  {
    if i + 1 == j {
    } else {
      HoldUntilFrame(states, events, i, j - 1);
      assert StepAt(states, events, j - 1);
      HoldUntilSeen(states[j - 1], events[j - 1], states[j]);
    }
  }

  /** The customer's link goes down while capture runs, or a capture begins with the link already down. */
  predicate GoesDown(s: Sup, e: Event) {
    if e.Begin? then e.down && !s.capturing && PortsSet(e.ports) else e == Link(true) && s.capturing && !s.cpeDown
  }

  lemma DownHolds(s: Sup, e: Event, t: Sup)
    requires GoesDown(s, e) && Step(s, e, t)
    ensures t.cpeDown && t.hold
  {
    hide CurrentSig, PortsSet;
  }

  /** After the link went down, every identity is the spare until the link has come up and a usable CPE-side
      frame has arrived, in either order. */
  lemma SpareHeldAfterLinkDown(states: seq<Sup>, events: seq<Event>, i: nat, j: nat)
    requires Run(states, events) && i < j < |states| && GoesDown(states[i], events[i])
    requires forall k :: i < k <= j ==> states[k].capturing
    requires NoLinkUp(events, i, j) || NoneSeen(states, events, i, j)
    ensures SpareUsable(states[j].spare) ==> OnSpare(states[j])
  {
    hide Step, Run;
    RunLength(states, events);
    RunSteps(states, events, i);
    DownHolds(states[i], events[i], states[i + 1]);
    if NoLinkUp(events, i, j) {
      DownUntilLinkUp(states, events, i, j);
    } else {
      HoldUntilFrame(states, events, i, j);
    }
  }

  lemma CustomerBehindFrame(l: Learned, spare: Spare, role: Role, frame: seq<Byte>, now: int, l': Learned)
    requires CustomerBehind(l) && LearnedAfter(l, spare, role, frame, now, l')
    ensures CustomerBehind(l')
  {
    var m :| FrameStep(l, role, frame, now, m) && l' == SpareArp(m, role, frame, spare);
    FrameKeepsCustomer(l, role, frame, now, m);
    SpareKeepsCustomer(m, role, frame, spare);
  }

  /** What an event may do to the record. */
  ghost predicate RecordStep(s: Sup, e: Event, t: Sup) {
    || t.learned == s.learned
    || (e.Frame? && LearnedAfter(s.learned, s.spare, e.role, e.frame, e.now, t.learned))
    || (e.Begin? && !s.capturing && t.learned == e.loaded)
  }

  lemma FrameRecordStep(s: Sup, role: Role, frame: seq<Byte>, now: int, t: Sup)
    requires Step(s, Frame(role, frame, now), t)
    ensures RecordStep(s, Frame(role, frame, now), t)
  {
    hide LearnedAfter, CurrentSig, UsableHost;
    if s.capturing {
      var l' :| LearnedAfter(s.learned, s.spare, role, frame, now, l') && t == AfterFrame(s, role, frame, l');
      assert t.learned == l';
    }
  }

  lemma RunLength(states: seq<Sup>, events: seq<Event>)
    requires Run(states, events)
    ensures |states| == |events| + 1
  {
  }

  lemma OtherRecordStep(s: Sup, e: Event, t: Sup)
    requires Step(s, e, t) && !e.Frame?
    ensures RecordStep(s, e, t)
  {
    hide LearnedAfter, CurrentSig;
  }

  lemma RunSteps(states: seq<Sup>, events: seq<Event>, k: nat)
    requires Run(states, events) && k < |events|
    ensures |states| == |events| + 1 && StepAt(states, events, k)
  {
  }

  /** Only frames and a new capture change the record. */
  lemma RecordStepAt(states: seq<Sup>, events: seq<Event>, k: nat)
    requires Run(states, events) && k < |events|
    ensures RecordStep(states[k], events[k], states[k + 1])
  {
    hide Step, RecordStep, Run;
    RunSteps(states, events, k);
    if events[k].Frame? {
      FrameRecordStep(states[k], events[k].role, events[k].frame, events[k].now, states[k + 1]);
    } else {
      OtherRecordStep(states[k], events[k], states[k + 1]);
    }
  }

  /** With a usable spare, the box borrows a customer identity only when a customer was learned. */
  lemma {:induction false} CeModeImpliesCustomer(states: seq<Sup>, events: seq<Event>, n: nat)
    requires Run(states, events) && Initial(states[0]) && n < |states|
    requires forall k :: 0 <= k < |events| && events[k].Begin? ==> CustomerBehind(events[k].loaded)
    ensures CustomerBehind(states[n].learned)
    ensures SpareUsable(states[n].spare) && CurrentHitch(states[n]).mode == CeMode ==> states[n].learned.customer
  {
    hide CustomerBehind, LearnedAfter, Run;
    RunLength(states, events);
    if n == 0 {
      NobodyAtFirst(states[0]);
    } else {
      CeModeImpliesCustomer(states, events, n - 1);
      RecordStepAt(states, events, n - 1);
      var s, e, t := states[n - 1], events[n - 1], states[n];
      if t.learned != s.learned && e.Frame? {
        CustomerBehindFrame(s.learned, s.spare, e.role, e.frame, e.now, t.learned);
      }
    }
    CeModeNeedsCustomer(states[n]);
  }

  lemma NobodyAtFirst(s: Sup)
    requires Initial(s)
    ensures CustomerBehind(s.learned)
  {
  }

  lemma CeModeNeedsCustomer(s: Sup)
    requires CustomerBehind(s.learned)
    ensures SpareUsable(s.spare) && CurrentHitch(s).mode == CeMode ==> s.learned.customer
  {
  }

  // ---- The next hop under supervision ----

  lemma FrameKeepsHop(l: Learned, spare: Spare, role: Role, frame: seq<Byte>, now: int, l': Learned)
    requires Inv(l) && Solid(l) && LearnedAfter(l, spare, role, frame, now, l') && l'.ce.Some?
    ensures Inv(l') && Solid(l') && SameHop(l, l')
  {
    var m :| FrameStep(l, role, frame, now, m) && l' == SpareArp(m, role, frame, spare);
    FrameKeepsInv(l, role, frame, now, m);
    SpareArpKeepsHop(m, role, frame, spare);
    SpareArpKeepsCe(m, role, frame, spare);
  }

  lemma SpareArpKeepsCe(l: Learned, role: Role, frame: seq<Byte>, spare: Spare)
    ensures SpareArp(l, role, frame, spare).ce == l.ce
  {
    hide OnLinkGw, SpareUsable, DecodeArp, MacAt, Be16;
  }

  /** Even with spare-address ARP in play, the next hop stays frozen through one capture while a customer
      is known. */
  lemma {:induction false} SupervisedHopFrozen(states: seq<Sup>, events: seq<Event>, i: nat, j: nat)
    requires Run(states, events) && i <= j < |states|
    requires Inv(states[i].learned) && Solid(states[i].learned)
    requires forall k :: i <= k <= j ==> states[k].capturing && states[k].learned.ce.Some?
    ensures Inv(states[j].learned) && Solid(states[j].learned)
    ensures SameHop(states[i].learned, states[j].learned)
    decreases j
  {
    hide Inv, Solid, LearnedAfter, Run;
    RunLength(states, events);
    if i == j {
    } else {
      SupervisedHopFrozen(states, events, i, j - 1);
      RecordStepAt(states, events, j - 1);
      var s, e, t := states[j - 1], events[j - 1], states[j];
      if t.learned != s.learned {
        FrameKeepsHop(s.learned, s.spare, e.role, e.frame, e.now, t.learned);
      }
    }
  }
}
