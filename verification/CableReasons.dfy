/** Why the hitched customer changes, and what can never change it. */
module CableReasons {
  import opened Net
  import opened CableState
  import opened CableTheorems

  // ---- What a frame says about its sender ----

  /** The MACs an IPv4 packet speaks for: its source, and the client of a DHCP message. */
  function PacketMacs(pkt: Packet, mac: Mac): set<Mac> {
    {mac} + if PacketLease(pkt, mac).Some? then {PacketLease(pkt, mac).value.chaddr} else {}
  }

  /** The addresses an IPv4 packet claims: its source, and those of a DHCP message. */
  function PacketIps(pkt: Packet, mac: Mac): set<Ipv4> {
    match PacketLease(pkt, mac)
    case None => {pkt.src}
    case Some(l) => {pkt.src, l.yiaddr} + if l.requested.Some? then {l.requested.value} else {}
  }

  function FramePacket(frame: seq<Byte>): Option<Packet>
    requires !Ignored(frame)
  {
    if Be16(frame, 12) == ETHER_IPV4 then DecodeIpv4(frame[ETH_LEN..]) else None
  }

  function FrameArp(frame: seq<Byte>): Option<Arp>
    requires !Ignored(frame)
  {
    if Be16(frame, 12) == ETHER_ARP then DecodeArp(frame[ETH_LEN..]) else None
  }

  function FrameMacs(frame: seq<Byte>): set<Mac>
    requires !Ignored(frame)
  {
    var mac := MacAt(frame, 6);
    if FramePacket(frame).Some? then PacketMacs(FramePacket(frame).value, mac) else {mac}
  }

  function FrameIps(frame: seq<Byte>): set<Ipv4>
    requires !Ignored(frame)
  {
    if FrameArp(frame).Some? then {FrameArp(frame).value.spa}
    else if FramePacket(frame).Some? then PacketIps(FramePacket(frame).value, MacAt(frame, 6))
    else {}
  }

  // ---- Same-MAC rebind ----

  /** The customer `s` hitched moved to an address the frame claims, on the same segment, and the
      frame speaks for the hitched MAC or for the hitched address. */
  predicate Rebound(s: Learned, t: Learned, macs: set<Mac>, ips: set<Ipv4>) {
    && s.ce.Some? && t.ce.Some? && t.ce.value in ips && SameSegment(s.ce.value, t.ce.value)
    && ((s.cpeMac.Some? && s.cpeMac.value in macs) || s.ce.value in ips)
  }

  ghost predicate Tracked(s: Learned, t: Learned, macs: set<Mac>, ips: set<Ipv4>) {
    && s.ce.Some? && t.ce.Some? && t.gw == s.gw && t.cpeMac == s.cpeMac
    && if t.ce == s.ce
       then s.ce.value in t.hosts && s.ce.value !in ips ==> s.cpeMac == Some(t.hosts[s.ce.value].mac)
       else Rebound(s, t, macs, ips)
  }

  lemma SightingTracked(s: Learned, t: Learned, ip: Ipv4, mac: Mac, points: nat, now: int, macs: set<Mac>,
                        ips: set<Ipv4>)
    requires Inv(s) && Mid(t) && OnSegment(t.ce, t.gw) && t.customer && Tracked(s, t, macs, ips)
    requires ip in ips && mac in macs && Usable(ip) && t.gw != Some(ip)
    ensures var u := HotUpdate(Credit(Remember(t, ip, mac, now), ip, points), ip, mac);
            Tracked(s, u, macs, ips) && Mid(u) && OnSegment(u.ce, u.gw) && u.customer
  {
    SawHostKeeps(t, ip, mac, points, now);
    var r := Credit(Remember(t, ip, mac, now), ip, points);
    var u := HotUpdate(r, ip, mac);
    assert r.ce == t.ce && r.gw == t.gw && r.cpeMac == t.cpeMac;
    if u.ce != t.ce {
      assert PrimaryMac(r) == Some(mac);
      assert SameSegment(t.ce.value, ip);
    }
  }

  lemma CreditFirst(s: Learned, ip: Ipv4, mac: Mac, points: nat, now: int)
    ensures Remember(Credit(s, ip, points), ip, mac, now) == Credit(Remember(s, ip, mac, now), ip, points)
  {
  }

  lemma LearnDhcpHostTracked(s: Learned, t: Learned, ip: Ipv4, mac: Mac, now: int, macs: set<Mac>, ips: set<Ipv4>)
    requires Inv(s) && Mid(t) && OnSegment(t.ce, t.gw) && t.customer && Tracked(s, t, macs, ips)
    requires ip in ips && mac in macs
    ensures var u := LearnDhcpHost(t, ip, mac, now);
            Tracked(s, u, macs, ips) && Mid(u) && OnSegment(u.ce, u.gw) && u.customer
  {
    if Usable(ip) && t.gw != Some(ip) {
      CreditFirst(t, ip, mac, 8, now);
      SightingTracked(s, t, ip, mac, 8, now, macs, ips);
    }
  }

  lemma LeaseMovesOnlyByRebind(s: Learned, t: Learned, l: Lease, now: int, macs: set<Mac>, ips: set<Ipv4>)
    requires Inv(s) && Mid(t) && OnSegment(t.ce, t.gw) && t.customer && Tracked(s, t, macs, ips)
    requires l.chaddr in macs && l.yiaddr in ips && (l.requested.Some? ==> l.requested.value in ips)
    ensures var u := LearnLease(t, l, now); u.ce == s.ce || Rebound(s, u, macs, ips)
  {
    LearnDhcpHostTracked(s, t, l.yiaddr, l.chaddr, now, macs, ips);
    var t1 := LearnDhcpHost(t, l.yiaddr, l.chaddr, now);
    if l.requested.Some? {
      LearnDhcpHostTracked(s, t1, l.requested.value, l.chaddr, now, macs, ips);
    }
  }

  lemma ArpMovesOnlyByRebind(s: Learned, mac: Mac, arp: Arp, now: int)
    requires Inv(s) && s.ce.Some?
    ensures var m := ArpFromCpe(s, mac, arp, now); m.ce == s.ce || Rebound(s, m, {mac}, {arp.spa})
  {
    var s0 := s.(customer := true);
    if Usable(arp.spa) && s0.gw != Some(arp.spa) {
      SightingTracked(s, s0, arp.spa, mac, if arp.request && Usable(arp.tpa) then 6 else 1, now, {mac}, {arp.spa});
    }
  }

  lemma Ipv4MovesOnlyByRebind(s: Learned, mac: Mac, pkt: Packet, now: int)
    requires Inv(s) && s.ce.Some?
    ensures var m := Ipv4FromCpe(s, mac, pkt, now);
            m.ce == s.ce || Rebound(s, m, PacketMacs(pkt, mac), PacketIps(pkt, mac))
  {
    var s0, macs, ips := s.(customer := true), PacketMacs(pkt, mac), PacketIps(pkt, mac);
    if Usable(pkt.src) && s0.gw != Some(pkt.src) {
      SightingTracked(s, s0, pkt.src, mac, 1, now, macs, ips);
    }
    var s1 := if Usable(pkt.src) && s0.gw != Some(pkt.src) then SawHost(s0, pkt.src, mac, 1, now) else s0;
    if PacketLease(pkt, mac).Some? {
      LeaseMovesOnlyByRebind(s, AnsweredBy(s1, pkt.src), PacketLease(pkt, mac).value, now, macs, ips);
    }
  }

  /** The evidence step moves a known customer only by a same-MAC rebind, and only from the CPE port. */
  lemma AbsorbMovesOnlyByRebind(s: Learned, role: Role, frame: seq<Byte>, now: int)
    requires Inv(s) && s.ce.Some? && !Ignored(frame)
    ensures var m := Absorb(s, role, frame, now);
            m.ce == s.ce || (role.Cpe? && Rebound(s, m, FrameMacs(frame), FrameIps(frame)))
  {
    var mac := MacAt(frame, 6);
    if role.Isp? {
      IspEvidenceAddsNoHost(s, frame, now);
    } else if FrameArp(frame).Some? {
      ArpMovesOnlyByRebind(s, mac, FrameArp(frame).value, now);
    } else if FramePacket(frame).Some? {
      Ipv4MovesOnlyByRebind(s, mac, FramePacket(frame).value, now);
    }
  }

  // ---- Every reason ----

  /** The customer was retired on evidence, and another cable host was seen recently. */
  ghost predicate Superseded(m: Learned, now: int) {
    m.ce.Some? && Dead(m, now) && OtherFresh(m, m.ce.value, now)
  }

  /** A gateway learned in this very frame lies on another segment, and the customer moved onto it. */
  predicate MovedOntoSegment(s: Learned, m: Learned, t: Learned) {
    && s.gw.None? && m.gw.Some? && m.ce.Some? && t.ce.Some?
    && !SameSegment(m.ce.value, m.gw.value) && SameSegment(t.ce.value, m.gw.value)
  }

  lemma SettleMovesForReason(m: Learned, now: int, p: Picks)
    requires Mid(m) && m.ce.Some? && PicksFor(m, now, p)
    ensures var t := Settle(m, now, p);
            || t.ce == m.ce
            || Superseded(m, now)
            || (!OnSegment(m.ce, m.gw) && t.ce.Some? && t.gw == m.gw && SameSegment(t.ce.value, m.gw.value))
  {
    if !Dead(m, now) {
      assert Demote(m, now, p.demote) == m;
      assert FillVacancy(m, p.vacant) == m && ReplaceUnusable(m, p.unusable) == m;
    }
  }

  /** A known customer changes only by a same-MAC rebind on its segment, by being superseded, or by
      moving onto the segment of a gateway learned in the same frame. */
  lemma CustomerChangeHasReason(s: Learned, role: Role, frame: seq<Byte>, now: int, t: Learned)
    requires Inv(s) && FrameStep(s, role, frame, now, t) && s.ce.Some? && t.ce != s.ce
    ensures !Ignored(frame)
    ensures var m := Absorb(s, role, frame, now);
            || (role.Cpe? && Rebound(s, m, FrameMacs(frame), FrameIps(frame)))
            || Superseded(m, now)
            || MovedOntoSegment(s, m, t)
  {
    var m := Absorb(s, role, frame, now);
    AbsorbKeeps(s, role, frame, now);
    AbsorbMovesOnlyByRebind(s, role, frame, now);
    var p :| PicksFor(m, now, p) && t == Settle(m, now, p);
    SettleMovesForReason(m, now, p);
    if m.ce == s.ce && m.gw.Some? && !OnSegment(m.ce, m.gw) {
      assert s.gw.None?;
    }
  }

  // ---- ISP noise ----

  /** No cable host other than the customer was seen recently. */
  ghost predicate Alone(s: Learned, now: int) {
    s.ce.Some? && forall ip: Ipv4 :: Fresh(s, ip, now) ==> s.ce == Some(ip)
  }

  /** Same customer, and no host that was not there before. */
  ghost predicate NoNewHost(s: Learned, m: Learned) {
    m.ce == s.ce && forall ip: Ipv4 :: ip in m.hosts ==> ip in s.hosts && m.hosts[ip] == s.hosts[ip]
  }

  lemma SetGwAddsNoHost(s: Learned, gw: Ipv4, strong: bool)
    ensures NoNewHost(s, SetGw(s, gw, strong))
  {
  }

  lemma ArpTargetAddsNoHost(s: Learned, mac: Mac, arp: Arp)
    ensures NoNewHost(s, ArpTarget(s, mac, arp))
  {
    hide SetGw;
    SetGwAddsNoHost(CountMiss(s, arp), arp.spa, true);
  }

  lemma ArpSourceAddsNoHost(s: Learned, mac: Mac, spa: Ipv4)
    ensures NoNewHost(s, ArpSource(s, mac, spa))
  {
    SetGwAddsNoHost(s, spa, false);
  }

  lemma IspEvidenceAddsNoHost(s: Learned, frame: seq<Byte>, now: int)
    requires !Ignored(frame)
    ensures NoNewHost(s, Absorb(s, Isp, frame, now))
  {
    if Be16(frame, 12) == ETHER_ARP && DecodeArp(frame[ETH_LEN..]).Some? {
      var mac, arp := MacAt(frame, 6), DecodeArp(frame[ETH_LEN..]).value;
      ArpTargetAddsNoHost(s, mac, arp);
      ArpSourceAddsNoHost(ArpTarget(s, mac, arp), mac, arp.spa);
    }
  }

  lemma InvIsMid(s: Learned)
    requires Inv(s)
    ensures Mid(s)
  {
  }

  lemma IspFrameMovesNothing(s: Learned, frame: seq<Byte>, now: int, t: Learned)
    requires Inv(s) && Solid(s) && Alone(s, now) && FrameStep(s, Isp, frame, now, t)
    ensures Inv(t) && t.ce == s.ce && t.gw == s.gw && Alone(t, now)
  {
    hide Absorb, Inv, Usable, SameSegment;
    FrameKeepsInv(s, Isp, frame, now, t);
    if !Ignored(frame) {
      var m := Absorb(s, Isp, frame, now);
      InvIsMid(s);
      AbsorbKeeps(s, Isp, frame, now);
      IspEvidenceAddsNoHost(s, frame, now);
      var p :| PicksFor(m, now, p) && t == Settle(m, now, p);
      assert forall ip: Ipv4 :: Fresh(m, ip, now) ==> Fresh(s, ip, now);
      assert !Dead(m, now);
    }
  }

  lemma AloneLater(s: Learned, before: int, now: int)
    requires Alone(s, before) && before <= now
    ensures Alone(s, now)
  {
    forall ip: Ipv4 | Fresh(s, ip, now) ensures s.ce == Some(ip) {
      assert Fresh(s, ip, before);
    }
  }

  /** ISP noise cannot move the hitch: with customer and gateway known and no other fresh cable host,
      no sequence of ISP frames at non-decreasing times changes either. */
  lemma {:induction false} IspNoiseMovesNothing(states: seq<Learned>, inputs: seq<Input>, n: nat)
    requires FrameRun(states, inputs) && n < |states|
    requires Inv(states[0]) && Solid(states[0])
    requires forall i :: 0 <= i < |inputs| ==> inputs[i].role == Isp
    requires forall i, j :: 0 <= i <= j < |inputs| ==> inputs[i].now <= inputs[j].now
    requires |inputs| > 0 ==> Alone(states[0], inputs[0].now)
    ensures Inv(states[n]) && states[n].ce == states[0].ce && states[n].gw == states[0].gw
    ensures n > 0 ==> Alone(states[n], inputs[n - 1].now)
  {
    if n == 0 {
    } else {
      IspNoiseMovesNothing(states, inputs, n - 1);
      var x := inputs[n - 1];
      assert Alone(states[n - 1], x.now) by {
        var before := if n == 1 then inputs[0].now else inputs[n - 2].now;
        assert before <= x.now;
        AloneLater(states[n - 1], before, x.now);
      }
      IspFrameMovesNothing(states[n - 1], x.frame, x.now, states[n]);
    }
  }
}
