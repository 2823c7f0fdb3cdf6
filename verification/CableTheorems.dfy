/** What holds on every run of the transparent-cable learner. */
module CableTheorems {
  import opened Net
  import opened CableState

  // ---- The invariant ----

  /** What holds between the evidence step and the housekeeping step of a frame. */
  ghost predicate Mid(s: Learned) {
    && (s.ce.Some? ==> Usable(s.ce.value))
    && (s.gw.Some? ==> Usable(s.gw.value))
    && (s.ce.Some? && s.gw.Some? ==> OnLinkGw(s.ce, s.gw.value))
    && (s.peMac.Some? ==> s.gw.Some?)
    && (s.gwStrong ==> s.gw.Some? && s.gw.value !in s.hosts)
    && (forall ip: Ipv4 :: ip in s.hosts ==> Usable(ip))
    && (s.ce.Some? || s.hosts != map[] || s.scores != map[] ==> s.customer)
  }

  ghost predicate Inv(s: Learned) {
    && Mid(s)
    && OnSegment(s.ce, s.gw)
    && (s.ce.Some? && s.ce.value in s.hosts ==> s.cpeMac == Some(s.hosts[s.ce.value].mac))
  }

  /** Customer and next hop are both known and on one segment. */
  predicate Solid(s: Learned) {
    s.ce.Some? && s.gw.Some? && OnSegment(s.ce, s.gw)
  }

  /** A step that neither rotates the next hop nor replaces a known PE MAC. */
  predicate SameHop(s: Learned, t: Learned) {
    t.gw == s.gw && (s.peMac.Some? ==> t.peMac == s.peMac)
  }

  ghost predicate Keeps(s: Learned, t: Learned) {
    Mid(t) && (Solid(s) ==> Solid(t) && SameHop(s, t))
  }

  lemma SegmentDecidesClass(a: Ipv4, b: Ipv4)
    requires SameSegment(a, b)
    ensures Private(a) == Private(b)
  {
    assert a / 0x1_0000 == a / 256 / 256 && b / 0x1_0000 == b / 256 / 256;
    assert a / 0x100_0000 == a / 256 / 0x1_0000 && b / 0x100_0000 == b / 256 / 0x1_0000;
  }

  // ---- Each piece of evidence ----

  lemma RememberKeeps(s: Learned, ip: Ipv4, mac: Mac, now: int)
    requires Mid(s) && s.customer
    ensures Keeps(s, Remember(s, ip, mac, now)) && Remember(s, ip, mac, now).customer
  {
  }

  lemma HotUpdateKeeps(s: Learned, ip: Ipv4, mac: Mac)
    requires Mid(s) && s.customer && s.gw != Some(ip)
    ensures Keeps(s, HotUpdate(s, ip, mac)) && HotUpdate(s, ip, mac).customer
  {
    var t := HotUpdate(s, ip, mac);
    if t != s && s.gw.Some? {
      if SameSegment(ip, s.gw.value) {
        SegmentDecidesClass(ip, s.gw.value);
      } else {
        SegmentDecidesClass(ip, s.ce.value);
      }
    }
  }

  lemma SetGwKeeps(s: Learned, gw: Ipv4, strong: bool)
    requires Mid(s)
    ensures Keeps(s, SetGw(s, gw, strong)) && SetGw(s, gw, strong).customer == s.customer
  {
  }

  lemma SawHostKeeps(s: Learned, ip: Ipv4, mac: Mac, points: nat, now: int)
    requires Mid(s) && s.customer && s.gw != Some(ip)
    ensures Keeps(s, SawHost(s, ip, mac, points, now)) && SawHost(s, ip, mac, points, now).customer
    ensures SawHost(s, ip, mac, points, now).gw == s.gw
  {
    RememberKeeps(s, ip, mac, now);
    HotUpdateKeeps(Credit(Remember(s, ip, mac, now), ip, points), ip, mac);
  }

  lemma ArpFromCpeKeeps(s: Learned, mac: Mac, arp: Arp, now: int)
    requires Mid(s)
    ensures Keeps(s, ArpFromCpe(s, mac, arp, now))
  {
    var s0 := s.(customer := true);
    var points := if arp.request && Usable(arp.tpa) then 6 else 1;
    if Usable(arp.spa) && s0.gw != Some(arp.spa) {
      SawHostKeeps(s0, arp.spa, mac, points, now);
    }
    var s1 := if Usable(arp.spa) && s0.gw != Some(arp.spa) then SawHost(s0, arp.spa, mac, points, now) else s0;
    var s2 := AnsweredBy(s1, arp.spa);
    assert Keeps(s, s2);
    SetGwKeeps(s2, arp.tpa, false);
  }

  lemma FillPeKeeps(s: Learned, mac: Mac)
    requires Mid(s) && s.gw.Some?
    ensures Keeps(s, FillPe(s, mac))
  {
  }

  lemma ConfirmGwKeeps(s: Learned, spa: Ipv4, mac: Mac)
    requires Mid(s)
    ensures Keeps(s, ConfirmGw(s, spa, mac))
  {
    SetGwKeeps(s, spa, true);
    var t := SetGw(s, spa, true);
    if t.gw.Some? {
      FillPeKeeps(t, mac);
    }
  }

  lemma ArpTargetKeeps(s: Learned, mac: Mac, arp: Arp)
    requires Mid(s)
    ensures Keeps(s, ArpTarget(s, mac, arp))
  {
    assert Keeps(s, CountMiss(s, arp));
    ConfirmGwKeeps(CountMiss(s, arp), arp.spa, mac);
  }

  lemma ArpSourceKeeps(s: Learned, mac: Mac, spa: Ipv4)
    requires Mid(s)
    ensures Keeps(s, ArpSource(s, mac, spa))
  {
    SetGwKeeps(s, spa, false);
  }

  lemma ArpFromIspKeeps(s: Learned, mac: Mac, arp: Arp)
    requires Mid(s)
    ensures Keeps(s, ArpFromIsp(s, mac, arp))
  {
    ArpTargetKeeps(s, mac, arp);
    ArpSourceKeeps(ArpTarget(s, mac, arp), mac, arp.spa);
  }

  lemma LearnDhcpHostKeeps(s: Learned, ip: Ipv4, chaddr: Mac, now: int)
    requires Mid(s) && s.customer
    ensures Keeps(s, LearnDhcpHost(s, ip, chaddr, now)) && LearnDhcpHost(s, ip, chaddr, now).customer
  {
    if Usable(ip) && s.gw != Some(ip) {
      RememberKeeps(Credit(s, ip, 8), ip, chaddr, now);
      HotUpdateKeeps(Remember(Credit(s, ip, 8), ip, chaddr, now), ip, chaddr);
    }
  }

  lemma LearnLeaseKeeps(s: Learned, l: Lease, now: int)
    requires Mid(s) && s.customer
    ensures Keeps(s, LearnLease(s, l, now))
  {
    LearnDhcpHostKeeps(s, l.yiaddr, l.chaddr, now);
    var s1 := LearnDhcpHost(s, l.yiaddr, l.chaddr, now);
    if l.requested.Some? {
      LearnDhcpHostKeeps(s1, l.requested.value, l.chaddr, now);
    }
  }

  lemma Ipv4FromCpeKeeps(s: Learned, mac: Mac, pkt: Packet, now: int)
    requires Mid(s)
    ensures Keeps(s, Ipv4FromCpe(s, mac, pkt, now))
  {
    var s0 := s.(customer := true);
    if Usable(pkt.src) && s0.gw != Some(pkt.src) {
      SawHostKeeps(s0, pkt.src, mac, 1, now);
    }
    var s1 := if Usable(pkt.src) && s0.gw != Some(pkt.src) then SawHost(s0, pkt.src, mac, 1, now) else s0;
    var s2 := AnsweredBy(s1, pkt.src);
    if PacketLease(pkt, mac).Some? {
      LearnLeaseKeeps(s2, PacketLease(pkt, mac).value, now);
    }
  }

  lemma AbsorbKeeps(s: Learned, role: Role, frame: seq<Byte>, now: int)
    requires Mid(s) && !Ignored(frame)
    ensures Keeps(s, Absorb(s, role, frame, now))
  {
    var mac, payload := MacAt(frame, 6), frame[ETH_LEN..];
    if Be16(frame, 12) == ETHER_ARP && DecodeArp(payload).Some? {
      ArpFromCpeKeeps(s, mac, DecodeArp(payload).value, now);
      ArpFromIspKeeps(s, mac, DecodeArp(payload).value);
    } else if Be16(frame, 12) == ETHER_IPV4 && role.Cpe? && DecodeIpv4(payload).Some? {
      Ipv4FromCpeKeeps(s, mac, DecodeIpv4(payload).value, now);
    }
  }

  // ---- Housekeeping ----

  /** An elected address is usable, is not the gateway and shares its segment. */
  lemma ElectedFits(s: Learned, now: int, r: Option<Ipv4>)
    requires Mid(s) && Elected(s, now, r) && r.Some?
    ensures Usable(r.value) && OnSegment(r, s.gw) && s.customer
  {
    if s.gw.Some? {
      SegmentDecidesClass(r.value, s.gw.value);
    }
  }

  lemma DemoteKeeps(s: Learned, now: int, pick: Option<Ipv4>)
    requires Mid(s) && (Dead(s, now) ==> Elected(Retire(s), now, pick))
    ensures Mid(Demote(s, now, pick))
    ensures SameHop(s, Demote(s, now, pick))
    ensures OnSegment(s.ce, s.gw) ==> OnSegment(Demote(s, now, pick).ce, s.gw)
  {
    if Dead(s, now) && pick.Some? {
      ElectedFits(Retire(s), now, pick);
    }
  }

  lemma FillVacancyKeeps(s: Learned, now: int, pick: Option<Ipv4>)
    requires Mid(s) && (Vacant(s) ==> Elected(s, now, pick))
    ensures Mid(FillVacancy(s, pick)) && SameHop(s, FillVacancy(s, pick))
    ensures OnSegment(s.ce, s.gw) ==> OnSegment(FillVacancy(s, pick).ce, s.gw)
  {
    if Vacant(s) && pick.Some? {
      ElectedFits(s, now, pick);
    }
  }

  lemma ReplaceUnusableKeeps(s: Learned, now: int, pick: Option<Ipv4>)
    requires Mid(s) && (s.ce.None? ==> Elected(s, now, pick))
    ensures Mid(ReplaceUnusable(s, pick)) && SameHop(s, ReplaceUnusable(s, pick))
    ensures OnSegment(s.ce, s.gw) ==> OnSegment(ReplaceUnusable(s, pick).ce, s.gw)
  {
    if s.ce.None? && pick.Some? {
      ElectedFits(s, now, pick);
    }
  }

  lemma FixSegmentKeeps(s: Learned, now: int, pick: Option<Ipv4>)
    requires Mid(s) && (!OnSegment(s.ce, s.gw) ==> Elected(s, now, pick))
    ensures var t := FixSegment(s, pick); Mid(t) && OnSegment(t.ce, t.gw)
    ensures OnSegment(s.ce, s.gw) ==> SameHop(s, FixSegment(s, pick))
  {
    if !OnSegment(s.ce, s.gw) && pick.Some? {
      ElectedFits(s, now, pick);
    }
  }

  lemma SyncKeeps(s: Learned)
    requires Mid(s) && OnSegment(s.ce, s.gw)
    ensures Inv(Recompute(SyncPrimaryMac(s))) && SameHop(s, Recompute(SyncPrimaryMac(s)))
  {
  }

  lemma SettleKeeps(m: Learned, now: int, p: Picks)
    requires Mid(m) && PicksFor(m, now, p)
    ensures Inv(Settle(m, now, p))
    ensures OnSegment(m.ce, m.gw) ==> SameHop(m, Settle(m, now, p))
  {
    var s1 := Demote(m, now, p.demote);
    DemoteKeeps(m, now, p.demote);
    var s2 := FillVacancy(s1, p.vacant);
    FillVacancyKeeps(s1, now, p.vacant);
    var s3 := ReplaceUnusable(s2, p.unusable);
    ReplaceUnusableKeeps(s2, now, p.unusable);
    FixSegmentKeeps(s3, now, p.segment);
    SyncKeeps(FixSegment(s3, p.segment));
  }

  // ---- One frame ----

  lemma FrameKeepsInv(s: Learned, role: Role, frame: seq<Byte>, now: int, t: Learned)
    requires Inv(s) && FrameStep(s, role, frame, now, t)
    ensures Inv(t)
    ensures Solid(s) ==> SameHop(s, t)
  {
    if !Ignored(frame) {
      var m := Absorb(s, role, frame, now);
      AbsorbKeeps(s, role, frame, now);
      var p :| PicksFor(m, now, p) && t == Settle(m, now, p);
      SettleKeeps(m, now, p);
    }
  }

  // ---- Runs ----

  datatype Input = Input(role: Role, frame: seq<Byte>, now: int)

  ghost predicate FrameRun(states: seq<Learned>, inputs: seq<Input>) {
    && |states| == |inputs| + 1
    && forall i :: 0 <= i < |inputs| ==>
          FrameStep(states[i], inputs[i].role, inputs[i].frame, inputs[i].now, states[i + 1])
  }

  lemma EmptyKeepsInv()
    ensures Inv(EMPTY)
  {
  }

  lemma {:induction false} RunKeepsInv(states: seq<Learned>, inputs: seq<Input>, n: nat)
    requires FrameRun(states, inputs) && states[0] == EMPTY && n < |states|
    ensures Inv(states[n])
  {
    hide Inv, FrameStep, Solid;
    if n == 0 {
      EmptyKeepsInv();
    } else {
      RunKeepsInv(states, inputs, n - 1);
      var i := inputs[n - 1];
      FrameKeepsInv(states[n - 1], i.role, i.frame, i.now, states[n]);
    }
  }

  /** The next hop never rotates: once customer and gateway are known, no frame from either port
      changes the gateway or a known PE MAC while a customer stays known at frame starts. */
  lemma {:induction false} NextHopFrozen(states: seq<Learned>, inputs: seq<Input>, i: nat, j: nat)
    requires FrameRun(states, inputs) && states[0] == EMPTY && i <= j < |states|
    requires states[i].ce.Some? && states[i].gw.Some?
    requires forall k :: i <= k < j ==> states[k].ce.Some?
    ensures states[j].gw == states[i].gw
    ensures states[i].peMac.Some? ==> states[j].peMac == states[i].peMac
    decreases j - i
  {
    hide FrameStep;
    if i == j {
    } else {
      NextHopFrozen(states, inputs, i, j - 1);
      RunKeepsInv(states, inputs, j - 1);
      var x := inputs[j - 1];
      FrameKeepsInv(states[j - 1], x.role, x.frame, x.now, states[j]);
    }
  }
}
