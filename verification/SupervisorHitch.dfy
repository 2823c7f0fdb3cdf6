/** Which identity the box borrows: the learned customer's or the spare one, field by field, over every run. */
module SupervisorHitch {
  import opened Net
  import opened CableState
  import opened CableTheorems
  import opened CableFrames
  import opened CableSightings
  import opened SupervisorState
  import opened SupervisorTheorems

  lemma FramePutsMacInStep(l: Learned, spare: Spare, role: Role, frame: seq<Byte>, now: int, l': Learned)
    requires MacInStep(l) && LearnedAfter(l, spare, role, frame, now, l')
    ensures MacInStep(l')
  {
    hide Absorb, PicksFor, SpareArp;
    var m :| FrameStep(l, role, frame, now, m) && l' == SpareArp(m, role, frame, spare);
    if !Ignored(frame) {
      var e := Absorb(l, role, frame, now);
      var p :| PicksFor(e, now, p) && m == Settle(e, now, p);
      SettledInStep(e, now, p);
    }
    SpareArpKeepsHosts(m, role, frame, spare);
  }

  predicate FewerHosts(l: Learned, t: Learned) {
    t.ce == l.ce && t.cpeMac == l.cpeMac && forall ip :: ip in t.hosts ==> ip in l.hosts && t.hosts[ip] == l.hosts[ip]
  }

  /** Spare-address ARP moves no customer and adds no host. */
  lemma SpareArpKeepsHosts(l: Learned, role: Role, frame: seq<Byte>, spare: Spare)
    ensures FewerHosts(l, SpareArp(l, role, frame, spare))
  {
    hide ConfirmGw, SpareGatewayArp, SpareUsable, DecodeArp, MacAt, Be16;
    if |frame| >= ETH_LEN && DecodeArp(frame[ETH_LEN..]).Some? {
      NextHopEvidenceAddsNoHost(l, DecodeArp(frame[ETH_LEN..]).value.spa, MacAt(frame, 6));
    }
  }

  lemma NextHopEvidenceAddsNoHost(l: Learned, spa: Ipv4, mac: Mac)
    ensures FewerHosts(l, ConfirmGw(l, spa, mac)) && FewerHosts(l, SpareGatewayArp(l, spa, mac))
  {
    hide OnLinkGw;
  }

  // ---- Who was last seen ----

  /** The event names the host `ip` on the customer's side. */
  ghost predicate Sees(s: Sup, e: Event, ip: Ipv4) {
    s.capturing && e.Frame? && Renews(s.learned, e.role, e.frame, ip)
  }

  /** The event names it with this MAC, or starts a capture on a record that has it. */
  ghost predicate SeesAs(s: Sup, e: Event, ip: Ipv4, mac: Mac) {
    || (Sees(s, e, ip) && Claims(e.frame, ip, mac))
    || (e.Begin? && !s.capturing && ip in e.loaded.hosts && e.loaded.hosts[ip].mac == mac)
  }

  /** Event `k` is the last one before state `n` to name the host, and names it with this MAC. */
  ghost predicate LastSeenAs(states: seq<Sup>, events: seq<Event>, k: nat, n: nat, ip: Ipv4, mac: Mac)
    requires k < n <= |events| < |states|
  {
    SeesAs(states[k], events[k], ip, mac) && forall j :: k < j < n ==> !Sees(states[j], events[j], ip)
  }

  lemma StepSeesHosts(s: Sup, e: Event, t: Sup, ip: Ipv4)
    requires RecordStep(s, e, t) && (e.Frame? && !s.capturing ==> t == s) && ip in t.learned.hosts
    requires e.Frame? && s.capturing ==> LearnedAfter(s.learned, s.spare, e.role, e.frame, e.now, t.learned)
    ensures || SeesAs(s, e, ip, t.learned.hosts[ip].mac)
            || (!Sees(s, e, ip) && ip in s.learned.hosts && t.learned.hosts[ip] == s.learned.hosts[ip])
  {
    hide Renews, Claims, FrameStep, SpareArp, Ignored;
    if e.Frame? && s.capturing {
      var m :| FrameStep(s.learned, e.role, e.frame, e.now, m) && t.learned == SpareArp(m, e.role, e.frame, s.spare);
      SpareArpKeepsHosts(m, e.role, e.frame, s.spare);
      HostMacIsLastSeen(s.learned, e.role, e.frame, e.now, m, ip);
    }
  }

  /** What a run's event says of the record it leaves. */
  lemma RecordAfter(states: seq<Sup>, events: seq<Event>, k: nat)
    requires Run(states, events) && k < |events|
    ensures |states| == |events| + 1
    ensures var s, e, t := states[k], events[k], states[k + 1];
            && RecordStep(s, e, t) && (e.Frame? && !s.capturing ==> t == s)
            && (e.Frame? && s.capturing ==> LearnedAfter(s.learned, s.spare, e.role, e.frame, e.now, t.learned))
  {
    hide LearnedAfter, CurrentSig, UsableHost, Run, RecordStep;
    RunSteps(states, events, k);
    RecordStepAt(states, events, k);
    var s, e := states[k], events[k];
    if e.Frame? && s.capturing {
      var l' :| LearnedAfter(s.learned, s.spare, e.role, e.frame, e.now, l')
                && states[k + 1] == AfterFrame(s, e.role, e.frame, l');
    }
  }

  /** Every host in the table has the MAC last seen for it, on every interleaving. */
  lemma {:induction false} HostsLastSeen(states: seq<Sup>, events: seq<Event>, n: nat, ip: Ipv4)
    requires Run(states, events) && Initial(states[0]) && n < |states| && ip in states[n].learned.hosts
    ensures |states| == |events| + 1
    ensures exists k :: 0 <= k < n && LastSeenAs(states, events, k, n, ip, states[n].learned.hosts[ip].mac)
  {
    hide Run, Step, Sees, SeesAs, RecordStep, LearnedAfter;
    RunLength(states, events);
    if n == 0 {
      StartsWithoutHosts(states[0], ip);
    } else {
      var s, e, t := states[n - 1], events[n - 1], states[n];
      RecordAfter(states, events, n - 1);
      StepSeesHosts(s, e, t, ip);
      var mac := t.learned.hosts[ip].mac;
      if SeesAs(s, e, ip, mac) {
        assert LastSeenAs(states, events, n - 1, n, ip, mac);
      } else {
        HostsLastSeen(states, events, n - 1, ip);
        var k :| 0 <= k < n - 1 && LastSeenAs(states, events, k, n - 1, ip, mac);
        assert LastSeenAs(states, events, k, n, ip, mac);
      }
    }
  }

  lemma StartsWithoutHosts(s: Sup, ip: Ipv4)
    requires Initial(s)
    ensures ip !in s.learned.hosts
  {
  }

  // ---- The identity ----

  /** The spare identity is borrowed exactly when one is configured and the customer is down, unheard of, or
      not heard again since the link came back. */
  lemma SpareModeIff(s: Sup)
    ensures CurrentHitch(s).mode == SpareMode <==>
            SpareUsable(s.spare) && (s.cpeDown || s.hold || (!s.learned.customer && s.learned.ce.None?))
  {
  }

  /** As the customer, the box uses the customer's address from the customer's MAC, and the learned next hop. */
  predicate AsCustomer(i: Identity, l: Learned) {
    i.mode == CeMode && i.ip == l.ce && i.srcMac == l.cpeMac && i.peMac == l.peMac && i.gw == l.gw
  }

  /** As itself, the box uses the spare address from its own MAC, and the learned next hop; the configured
      gateway stands in for an unknown one. */
  predicate AsSpare(i: Identity, l: Learned, spare: Spare, box: Option<Mac>) {
    && i.mode == SpareMode && i.ip == spare.ip && i.srcMac == box && i.peMac == l.peMac
    && (if l.gw.Some? then i.gw == l.gw else i.gw == spare.gateway)
  }

  lemma IdentityFields(s: Sup)
    ensures var i := CurrentHitch(s);
            if i.mode == CeMode then AsCustomer(i, s.learned) else AsSpare(i, s.learned, s.spare, s.boxMac)
  {
  }

  lemma {:induction false} MacStaysInStep(states: seq<Sup>, events: seq<Event>, n: nat)
    requires Run(states, events) && Initial(states[0]) && n < |states|
    requires forall k :: 0 <= k < |events| && events[k].Begin? ==> MacInStep(events[k].loaded)
    ensures MacInStep(states[n].learned)
  {
    hide MacInStep, LearnedAfter, Run, Initial;
    RunLength(states, events);
    if n == 0 {
      NobodyInStep(states[0]);
    } else {
      MacStaysInStep(states, events, n - 1);
      RecordStepAt(states, events, n - 1);
      var s, e, t := states[n - 1], events[n - 1], states[n];
      if t.learned != s.learned && e.Frame? {
        FramePutsMacInStep(s.learned, s.spare, e.role, e.frame, e.now, t.learned);
      }
    }
  }

  lemma NobodyInStep(s: Sup)
    requires Initial(s)
    ensures MacInStep(s.learned)
  {
  }

  /**
   * The borrowed customer. On every interleaving, whenever the box acts as the customer, it uses the learned
   * address and next hop; and when that address is a known host, the source MAC is the one last seen for it on
   * the customer's side of the cable.
   */
  lemma BorrowsTheCustomer(states: seq<Sup>, events: seq<Event>, n: nat)
    requires Run(states, events) && Initial(states[0]) && n < |states| && CurrentHitch(states[n]).mode == CeMode
    requires forall k :: 0 <= k < |events| && events[k].Begin? ==> MacInStep(events[k].loaded)
    ensures |states| == |events| + 1
    ensures var i, l := CurrentHitch(states[n]), states[n].learned;
            && i.ip == l.ce && i.peMac == l.peMac && i.gw == l.gw
            && (i.ip.Some? && i.ip.value in l.hosts ==>
                  && i.srcMac.Some?
                  && exists k :: 0 <= k < n && LastSeenAs(states, events, k, n, i.ip.value, i.srcMac.value))
  {
    hide CurrentHitch, Run, Initial, LastSeenAs;
    RunLength(states, events);
    IdentityFields(states[n]);
    MacStaysInStep(states, events, n);
    var l := states[n].learned;
    if l.ce.Some? && l.ce.value in l.hosts {
      HostsLastSeen(states, events, n, l.ce.value);
    }
  }

  /** In either mode, and however the mode changes, the box sends through one next hop during a capture, as long
      as a customer is known. */
  lemma BorrowedHopFrozen(states: seq<Sup>, events: seq<Event>, i: nat, j: nat)
    requires Run(states, events) && i <= j < |states|
    requires Inv(states[i].learned) && Solid(states[i].learned)
    requires forall k :: i <= k <= j ==> states[k].capturing && states[k].learned.ce.Some?
    ensures CurrentHitch(states[j]).gw == CurrentHitch(states[i]).gw == states[i].learned.gw
    ensures states[i].learned.peMac.Some? ==>
              CurrentHitch(states[j]).peMac == CurrentHitch(states[i]).peMac == states[i].learned.peMac
  {
    hide Run, Inv, CurrentHitch;
    SupervisedHopFrozen(states, events, i, j);
    IdentityFields(states[i]);
    IdentityFields(states[j]);
  }

  // ---- When the spare is let go ----

  /** The frame names `ip` as its source: an ARP sender in octets 28 to 31, an IPv4 source in octets 26 to 29. */
  predicate SourceIs(frame: seq<Byte>, ip: Ipv4) {
    || (Holds(frame, 12, [0x08, 0x06]) && 42 <= |frame| && Holds(frame, 28, IpOctets(ip)))
    || (Holds(frame, 12, [0x08, 0x00]) && 34 <= |frame| && Holds(frame, 26, IpOctets(ip)))
  }

  lemma OctetsBack(a: Byte, b: Byte, c: Byte, d: Byte)
    ensures IpOctets(FromOctets(a, b, c, d)) == [a, b, c, d]
  {
    var x := a * 256 + b;
    var y := x * 256 + c;
    assert (y * 256 + d) / 256 == y && (y * 256 + d) % 256 == d;
    assert y / 256 == x && y % 256 == c && x / 256 == a && x % 256 == b;
    QuotientOfQuotient(y * 256 + d);
  }

  lemma QuotientOfQuotient(n: nat)
    ensures n / 0x1_0000 == n / 0x100 / 0x100 && n / 0x100_0000 == n / 0x100 / 0x100 / 0x100
  {
  }

  lemma WrittenBack(b: seq<Byte>, i: nat)
    requires i + 4 <= |b|
    ensures Holds(b, i, IpOctets(Ipv4At(b, i)))
  {
    hide IpOctets, FromOctets;
    OctetsBack(b[i], b[i + 1], b[i + 2], b[i + 3]);
    assert b[i..i + 4] == [b[i], b[i + 1], b[i + 2], b[i + 3]];
  }

  lemma SourceRead(frame: seq<Byte>, ip: Ipv4)
    ensures FrameSource(frame) == Some(ip) <==> SourceIs(frame, ip)
  {
    hide IpOctets, Ipv4At;
    if 14 <= |frame| {
      assert frame[12..14] == [frame[12], frame[13]];
      if Holds(frame, 12, [0x08, 0x06]) {
        HeldPair(frame, 12, 0x08, 0x06);
      }
      if Holds(frame, 12, [0x08, 0x00]) {
        HeldPair(frame, 12, 0x08, 0x00);
      }
      if 42 <= |frame| {
        WrittenBack(frame, 28);
        if Holds(frame, 28, IpOctets(ip)) {
          HeldIp(frame, 28, ip);
        }
      }
      if 34 <= |frame| {
        WrittenBack(frame, 26);
        if Holds(frame, 26, IpOctets(ip)) {
          HeldIp(frame, 26, ip);
        }
      }
    }
  }

  /** A frame lets go of the spare address exactly when it comes from the customer's side and names a usable
      source other than the gateway. */
  lemma HoldReleasedIff(s: Sup, role: Role, frame: seq<Byte>, now: int, t: Sup)
    requires s.capturing && s.hold && Step(s, Frame(role, frame, now), t)
    ensures !t.hold <==> role.Cpe? && exists ip: Ipv4 :: SourceIs(frame, ip) && Usable(ip) && t.learned.gw != Some(ip)
  {
    hide SourceIs, FrameSource, Usable, CurrentSig;
    var l' :| LearnedAfter(s.learned, s.spare, role, frame, now, l') && t == AfterFrame(s, role, frame, l');
    assert t.hold == !(role.Cpe? && UsableHost(frame, t.learned.gw));
    forall ip: Ipv4
      ensures FrameSource(frame) == Some(ip) <==> SourceIs(frame, ip)
    {
      SourceRead(frame, ip);
    }
  }

  // ---- Starting and stopping ----

  /** A capture starts only with both ports set, on the loaded record, holding the spare address exactly when the
      link is down, and with nothing to flush; a running one is left alone. */
  lemma BeginEffect(s: Sup, ports: Ports, loaded: Learned, down: bool, t: Sup)
    requires Step(s, Begin(ports, loaded, down), t)
    ensures t.capturing <==> s.capturing || (ports.0 != "" && ports.1 != "")
    ensures s.capturing || !t.capturing ==> t == s
    ensures !s.capturing && t.capturing ==>
              && t.key == Some(ports) && t.learned == loaded && t.cpeDown == down && t.hold == down
              && CurrentSig(t) == t.snap && t.timer == s.timer && t.refreshing == s.refreshing
              && t.spare == s.spare && t.boxMac == s.boxMac
  {
    hide ComputeHitch, RecordOf;
  }

  /** The pending flush callback can no longer fire, if it has not fired yet; the others are as they were. */
  predicate Disarmed(s: Sup, t: Sup) {
    t.fired == s.fired && t.armed == s.armed - (if s.timer.Some? then {s.timer.value} else {})
  }

  /** A notification for the ports of the running capture keeps it and flushes anew; any other stops it. */
  lemma NotifyEffect(s: Sup, ports: Ports, t: Sup)
    requires TimersOk(s) && Step(s, NotifyTransparent(ports), t)
    ensures t.learned == s.learned && t.snap == s.snap && t.spare == s.spare
    ensures t.capturing && t.key == Some(ports) <==> s.capturing && s.key == Some(ports)
    ensures t.capturing ==>
              && t.key == s.key && t.hold == s.hold && t.cpeDown == s.cpeDown && t.refreshing == s.refreshing
              && t.timer.Some? && t.timer.value in t.armed && t.timer.value !in s.armed + s.fired
              && Disarmed(s, t.(armed := t.armed - {t.timer.value}))
    ensures !t.capturing ==> t.key.None? && !t.refreshing && t.timer.None? && Disarmed(s, t)
  {
  }

  /** Leaving transparent mode stops everything, and forgets that the link was down. */
  lemma NotifyOffEffect(s: Sup, t: Sup)
    requires TimersOk(s) && Step(s, NotifyOther, t)
    ensures !t.capturing && t.key.None? && !t.refreshing && !t.hold && !t.cpeDown && t.timer.None? && Disarmed(s, t)
    ensures t.learned == s.learned && t.snap == s.snap && t.spare == s.spare && t.boxMac == s.boxMac
  {
  }

  /** Without a capture nothing is learned and no snapshot is taken, whatever callbacks are left over, until the
      next one starts. */
  lemma IdleIsInert(s: Sup, e: Event, t: Sup)
    requires !s.capturing && !e.Begin? && Step(s, e, t)
    ensures !t.capturing && t.learned == s.learned && t.snap == s.snap
    ensures t.armed <= s.armed && t.armed + t.fired <= s.armed + s.fired
  {
    hide CurrentSig, LearnedAfter, AfterFrame;
    match e
    case TimerFires(id) => FireMoves(s, id);
    case FlushRuns(id) =>
    case _ => hide Fire, Flush;
  }

  /** Firing only moves a callback. */
  lemma FireMoves(s: Sup, id: nat)
    ensures var t := Fire(s, id); t.armed <= s.armed && t.armed + t.fired <= s.armed + s.fired
  {
  }
}
