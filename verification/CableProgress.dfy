/** What the learner does learn, and the one way a spare address can break its invariant. */
module CableProgress {
  import opened Net
  import opened CableState
  import opened CableTheorems
  import opened CableReasons

  lemma FirstArpEvidence(mac: Mac, a: Arp, now: int)
    requires a.request && a.spa != a.tpa && Usable(a.spa) && Usable(a.tpa) && SameSegment(a.spa, a.tpa)
    ensures ArpFromCpe(EMPTY, mac, a, now) ==
            EMPTY.(customer := true, hosts := map[a.spa := Host(mac, Stamp(now))], scores := map[a.spa := 6],
                   gw := Some(a.tpa))
  {
    var s1 := SawHost(EMPTY.(customer := true), a.spa, mac, 6, now);
    assert s1.hosts == map[a.spa := Host(mac, Stamp(now))] && s1.scores == map[a.spa := 6];
  }

  /** One ARP request from a cable host for its gateway teaches an empty learner both. */
  lemma FirstArpTeachesCustomerAndGateway(frame: seq<Byte>, now: int, t: Learned)
    requires !Ignored(frame) && FrameArp(frame).Some?
    requires var a := FrameArp(frame).value;
             a.request && a.spa != a.tpa && Usable(a.spa) && Usable(a.tpa) && SameSegment(a.spa, a.tpa)
    requires FrameStep(EMPTY, Cpe, frame, now, t)
    ensures var a := FrameArp(frame).value;
            t.ce == Some(a.spa) && t.gw == Some(a.tpa) && t.cpeMac == Some(MacAt(frame, 6)) && t.phase == CpeOnly
  {
    var a, mac := FrameArp(frame).value, MacAt(frame, 6);
    FirstArpEvidence(mac, a, now);
    var m := EMPTY.(customer := true, hosts := map[a.spa := Host(mac, Stamp(now))], scores := map[a.spa := 6],
                    gw := Some(a.tpa));
    assert Absorb(EMPTY, Cpe, frame, now) == m;
    OnlyHostIsElected(m, a.spa, a.tpa, now, t);
  }

  lemma OnlyHostIsElected(m: Learned, ip: Ipv4, gw: Ipv4, now: int, t: Learned)
    requires m.ce.None? && m.gw == Some(gw) && m.peMac.None? && m.hosts.Keys == {ip} && Eligible(m, ip, now)
    requires Usable(gw) && exists p :: PicksFor(m, now, p) && t == Settle(m, now, p)
    ensures t.ce == Some(ip) && t.gw == m.gw && t.cpeMac == Some(m.hosts[ip].mac) && t.phase == CpeOnly
  {
    var p :| PicksFor(m, now, p) && t == Settle(m, now, p);
    assert p.vacant == Some(ip);
    SegmentDecidesClass(ip, gw);
    var s2 := FillVacancy(m, p.vacant);
    assert ReplaceUnusable(s2, p.unusable) == s2 && FixSegment(s2, p.segment) == s2;
  }

  /** An ARP from the known gateway fills an unknown PE MAC, for good. */
  lemma GatewayArpTeachesPe(s: Learned, frame: seq<Byte>, now: int, t: Learned)
    requires Inv(s) && Solid(s) && s.peMac.None? && !Ignored(frame)
    requires FrameArp(frame).Some? && s.gw == Some(FrameArp(frame).value.spa)
    requires FrameStep(s, Isp, frame, now, t)
    ensures t.peMac == Some(MacAt(frame, 6)) && t.gw == s.gw
  {
    var a, mac := FrameArp(frame).value, MacAt(frame, 6);
    var m := Absorb(s, Isp, frame, now);
    assert m == ArpFromIsp(s, mac, a);
    AbsorbKeeps(s, Isp, frame, now);
    ArpTargetKeeps(s, mac, a);
    OwnArpFillsPe(s, mac, a);
    var p :| PicksFor(m, now, p) && t == Settle(m, now, p);
    SettleKeeps(m, now, p);
  }

  lemma OwnArpFillsPe(s: Learned, mac: Mac, a: Arp)
    requires s.gw == Some(a.spa) && s.peMac.None?
    ensures ArpFromIsp(s, mac, a).peMac == Some(mac)
  {
    var s2 := ArpTarget(s, mac, a);
    assert s2.gw == Some(a.spa) && (s2.peMac.None? || s2.peMac == Some(mac));
  }

  /** Another host of the cable was heard within five minutes. */
  ghost predicate AnotherHeard(s: Learned, now: int, ip: Ipv4) {
    s.ce != Some(ip) && ip in s.hosts && now - s.hosts[ip].at <= 300 * 1_000_000_000
  }

  /** A customer is given up exactly when another host was heard within five minutes and it left five questions
      unanswered, was not heard itself in that time, or was not heard for two seconds while that host has another
      MAC. */
  lemma DeadIff(s: Learned, now: int)
    requires Inv(s) && s.ce.Some?
    ensures var ce := s.ce.value;
            var heard := ce in s.hosts && now - s.hosts[ce].at <= 300 * 1_000_000_000;
            var quiet := ce !in s.hosts || now - s.hosts[ce].at >= 2 * 1_000_000_000;
            Dead(s, now) <==>
            exists ip :: AnotherHeard(s, now, ip)
                         && (s.misses >= 5 || !heard || (quiet && s.cpeMac.Some? && Some(s.hosts[ip].mac) != s.cpeMac))
  {
    var ce := s.ce.value;
    assert forall ip: Ipv4 :: ip != ce && Fresh(s, ip, now) <==> AnotherHeard(s, now, ip);
    assert PrimaryMac(s) == s.cpeMac;
  }

  /** A customer retired on evidence hands the hitch to a best eligible host, if there is one. */
  lemma RetiredCustomerIsReplaced(s: Learned, role: Role, frame: seq<Byte>, now: int, t: Learned, ip: Ipv4)
    requires Inv(s) && !Ignored(frame) && FrameStep(s, role, frame, now, t)
    requires var m := Absorb(s, role, frame, now); Dead(m, now) && Eligible(Retire(m), ip, now)
    ensures var m := Absorb(s, role, frame, now);
            t.ce.Some? && t.ce != m.ce && BestHost(Retire(m), t.ce.value, now) && t.gw == m.gw
  {
    var m := Absorb(s, role, frame, now);
    AbsorbKeeps(s, role, frame, now);
    var p :| PicksFor(m, now, p) && t == Settle(m, now, p);
    assert BestHost(Retire(m), p.demote.value, now);
    ElectedFits(Retire(m), now, p.demote);
  }

  // ---- Unanswered requests ----

  /** The gateway side asks who has `ce`. */
  predicate AsksFor(frame: seq<Byte>, ce: Ipv4) {
    !Ignored(frame) && FrameArp(frame).Some? && FrameArp(frame).value.request && FrameArp(frame).value.tpa == ce
  }

  /** Asking for the customer of a settled record counts one miss and touches no other host. */
  lemma AskingEvidence(s: Learned, mac: Mac, a: Arp)
    requires Inv(s) && Solid(s) && a.request && s.ce == Some(a.tpa)
    ensures var m := ArpFromIsp(s, mac, a);
            && m.misses == s.misses + 1 && m.ce == s.ce && m.gw == s.gw && OnSegment(m.ce, m.gw)
            && forall ip :: ip in s.hosts && s.gw != Some(ip) ==> ip in m.hosts && m.hosts[ip] == s.hosts[ip]
  {
  }

  lemma AskingAbsorbed(s: Learned, frame: seq<Byte>, now: int)
    requires Inv(s) && Solid(s) && AsksFor(frame, s.ce.value)
    ensures var m := Absorb(s, Isp, frame, now);
            && m.misses == s.misses + 1 && m.ce == s.ce && m.gw == s.gw && OnSegment(m.ce, m.gw)
            && forall ip :: ip in s.hosts && s.gw != Some(ip) ==> ip in m.hosts && m.hosts[ip] == s.hosts[ip]
  {
    hide ArpFromIsp, Inv, OnSegment;
    AskingEvidence(s, MacAt(frame, 6), FrameArp(frame).value);
  }

  lemma AskingStaysMid(s: Learned, frame: seq<Byte>, now: int)
    requires Inv(s) && Solid(s) && AsksFor(frame, s.ce.value)
    ensures !Ignored(frame) && Usable(s.ce.value)
  {
  }

  /** With another eligible host on the cable, a request for the customer either retires it or leaves one
      more miss, below the limit. */
  lemma AskingCounts(s: Learned, ce: Ipv4, frame: seq<Byte>, now: int, t: Learned, other: Ipv4)
    requires Inv(s) && Solid(s) && s.ce == Some(ce) && AsksFor(frame, ce) && FrameStep(s, Isp, frame, now, t)
    requires Eligible(s, other, now) && other != ce
    ensures t.gw == s.gw
    ensures t.ce == s.ce ==>
              && Inv(t) && Solid(t) && t.misses == s.misses + 1 < CE_ARP_MISS_LIMIT
              && other in t.hosts && t.hosts[other] == s.hosts[other]
  {
    hide Absorb, Inv, AsksFor, Settle, PicksFor, OnSegment, SameSegment, Usable, BestHost, Elected;
    AskingStaysMid(s, frame, now);
    var m := Absorb(s, Isp, frame, now);
    AskingAbsorbed(s, frame, now);
    FrameKeepsInv(s, Isp, frame, now, t);
    OtherStays(s, m, ce, other, now);
    if Dead(m, now) {
      RetiredCustomerIsReplaced(s, Isp, frame, now, t, other);
    } else {
      QuietSettle(m, now, t);
    }
  }

  lemma OtherStays(s: Learned, m: Learned, ce: Ipv4, other: Ipv4, now: int)
    requires Eligible(s, other, now) && other != ce && m.ce == Some(ce) && m.gw == s.gw
    requires forall ip :: ip in s.hosts && s.gw != Some(ip) ==> ip in m.hosts && m.hosts[ip] == s.hosts[ip]
    ensures Eligible(Retire(m), other, now) && other in m.hosts && m.hosts[other] == s.hosts[other]
    ensures !Dead(m, now) ==> m.misses < CE_ARP_MISS_LIMIT
  {
    hide SameSegment, Usable;
    assert Fresh(m, other, now);
  }

  lemma QuietSettle(m: Learned, now: int, t: Learned)
    requires m.ce.Some? && Usable(m.ce.value) && OnSegment(m.ce, m.gw) && !Dead(m, now)
    requires exists p :: PicksFor(m, now, p) && t == Settle(m, now, p)
    ensures t.ce == m.ce && t.gw == m.gw && t.misses == m.misses && t.hosts == m.hosts
  {
    var p :| PicksFor(m, now, p) && t == Settle(m, now, p);
    assert Demote(m, now, p.demote) == m && FillVacancy(m, p.vacant) == m;
    assert ReplaceUnusable(m, p.unusable) == m && FixSegment(m, p.segment) == m;
  }

  /** Every input is a request from the ISP port for the same customer, while the other host stays fresh. */
  ghost predicate KeepsAsking(s: Learned, inputs: seq<Input>, ce: Ipv4, other: Ipv4) {
    forall i :: 0 <= i < |inputs| ==> AskedAt(s, inputs[i], ce, other)
  }

  ghost predicate AskedAt(s: Learned, x: Input, ce: Ipv4, other: Ipv4) {
    x.role.Isp? && AsksFor(x.frame, ce) && Eligible(s, other, x.now)
  }

  lemma {:induction false} MissesAddUp(states: seq<Learned>, inputs: seq<Input>, ce: Ipv4, other: Ipv4, n: nat)
    requires FrameRun(states, inputs) && n < |states| && KeepsAsking(states[0], inputs, ce, other)
    requires Inv(states[0]) && Solid(states[0]) && states[0].ce == Some(ce) && other != ce
    requires forall k :: 0 <= k <= n ==> states[k].ce == Some(ce)
    ensures Inv(states[n]) && Solid(states[n]) && states[n].gw == states[0].gw
    ensures other in states[0].hosts ==> other in states[n].hosts && states[n].hosts[other] == states[0].hosts[other]
    ensures states[n].misses == states[0].misses + n && (n > 0 ==> states[n].misses < CE_ARP_MISS_LIMIT)
  {
    hide Inv, AsksFor, Solid;
    if n == 0 {
    } else {
      MissesAddUp(states, inputs, ce, other, n - 1);
      var x := inputs[n - 1];
      assert AskedAt(states[0], x, ce, other);
      AskingCounts(states[n - 1], ce, x.frame, x.now, states[n], other);
    }
  }

  /** A customer that does not answer gives way: after as many requests as the limit allows, while another
      eligible host is fresh, it has been replaced. */
  lemma UnansweredCustomerIsReplaced(states: seq<Learned>, inputs: seq<Input>, ce: Ipv4, other: Ipv4)
    requires FrameRun(states, inputs) && |inputs| >= CE_ARP_MISS_LIMIT && KeepsAsking(states[0], inputs, ce, other)
    requires Inv(states[0]) && Solid(states[0]) && states[0].ce == Some(ce) && other != ce
    ensures exists k :: 0 < k <= CE_ARP_MISS_LIMIT && states[k].ce != Some(ce)
  {
    hide Inv, KeepsAsking, FrameStep, Solid;
    if forall k :: 0 < k <= CE_ARP_MISS_LIMIT ==> states[k].ce == Some(ce) {
      MissesAddUp(states, inputs, ce, other, CE_ARP_MISS_LIMIT);
    }
  }

  // ---- The spare address ----

  /** The gateway a spare-address ARP would install in an empty slot. */
  function ArpOffer(s: Learned, a: Arp, spare: Spare): Option<Ipv4> {
    if a.request && Some(a.tpa) == spare.ip then (if OnLinkGw(s.ce, a.spa) then Some(a.spa) else None)
    else if spare.gateway == Some(a.spa) then Some(a.spa)
    else None
  }

  function SpareOffer(s: Learned, role: Role, frame: seq<Byte>, spare: Spare): Option<Ipv4> {
    if role.Cpe? || !SpareUsable(spare) || Ignored(frame) || FrameArp(frame).None? then None
    else ArpOffer(s, FrameArp(frame).value, spare)
  }

  lemma OfferFillsEmptySlot(s: Learned, role: Role, frame: seq<Byte>, spare: Spare)
    requires Inv(s) && s.gw.None?
    ensures var t := SpareArp(s, role, frame, spare);
            if SpareOffer(s, role, frame, spare).None? then t == s
            else
              var g := SpareOffer(s, role, frame, spare).value;
              && t.gw == Some(g) && t.peMac.Some? && t.ce == s.ce && t.cpeMac == s.cpeMac && t.customer == s.customer
              && t.hosts.Keys <= s.hosts.Keys && (forall ip :: ip in t.hosts ==> t.hosts[ip] == s.hosts[ip])
              && (t.scores != map[] ==> s.scores != map[])
              && (t.gwStrong ==> g !in t.hosts)
  {
    hide OnLinkGw, Usable, MacAt, Be16, Be32;
  }

  /** Spare-address ARP keeps the learner's invariant exactly when it offers nothing to an empty gateway
      slot, or offers a usable address on the customer's segment. */
  lemma SpareArpKeepsInvariantIff(s: Learned, role: Role, frame: seq<Byte>, spare: Spare)
    requires Inv(s)
    ensures var offer := SpareOffer(s, role, frame, spare);
            Inv(SpareArp(s, role, frame, spare)) <==>
            (s.gw.Some? || offer.None? || (Usable(offer.value) && OnSegment(s.ce, offer)))
  {
    if s.gw.None? {
      OfferFillsEmptySlot(s, role, frame, spare);
      var t := SpareArp(s, role, frame, spare);
      if SpareOffer(s, role, frame, spare).Some? && t.hosts != map[] {
        var ip :| ip in t.hosts;
        assert ip in s.hosts;
      }
    } else {
      SpareArpKeepsHop(s, role, frame, spare);
    }
  }

  // ---- One ARP that breaks the invariant ----

  /** A customer 10.0.0.5 without a gateway, and a spare address on another network. */
  const NO_GATEWAY := EMPTY.(phase := CpeOnly, customer := true, ce := Some(0x0A00_0005), cpeMac := Some(5))
  const FAR_SPARE := Spare(Some(0xC0A8_09FA), Some(0xC0A8_0901))

  /** An ARP reply from 192.168.9.1, the gateway of that spare address. */
  const ETH_HEADER: seq<Byte> := [2, 0, 0, 0, 0, 1, 2, 0, 0, 0, 0, 2, 8, 6]
  const ARP_REPLY: seq<Byte> :=
    [0, 1, 8, 0, 6, 4, 0, 2, 2, 0, 0, 0, 0, 2] + [192, 168, 9, 1, 2, 0, 0, 0, 0, 1, 192, 168, 9, 250]

  lemma ReplyDecodes()
    ensures var frame := ETH_HEADER + ARP_REPLY;
            !Ignored(frame) && FrameArp(frame) == Some(Arp(false, 0xC0A8_0901, 0xC0A8_09FA))
  {
    var frame := ETH_HEADER + ARP_REPLY;
    assert Be16(frame, 12) == ETHER_ARP;
    assert frame[ETH_LEN..] == ARP_REPLY;
    assert Be16(ARP_REPLY, 0) == 1 && Be16(ARP_REPLY, 2) == ETHER_IPV4 && Be16(ARP_REPLY, 6) == 2;
    assert Ipv4At(ARP_REPLY, 14) == 0xC0A8_0901 && Ipv4At(ARP_REPLY, 24) == 0xC0A8_09FA;
  }

  /** It installs a gateway off the customer's segment: the record no longer satisfies the invariant. */
  lemma SpareArpBreaksInvariant()
    ensures Inv(NO_GATEWAY) && !Inv(SpareArp(NO_GATEWAY, Isp, ETH_HEADER + ARP_REPLY, FAR_SPARE))
  {
    hide SpareArp, FrameArp, Ignored;
    ReplyDecodes();
    SpareArpKeepsInvariantIff(NO_GATEWAY, Isp, ETH_HEADER + ARP_REPLY, FAR_SPARE);
  }

  lemma ConfirmKeepsInv(s: Learned, spa: Ipv4, mac: Mac)
    requires Inv(s) && s.gw.Some?
    ensures Inv(ConfirmGw(s, spa, mac)) && (Solid(s) ==> SameHop(s, ConfirmGw(s, spa, mac)))
  {
    ConfirmGwKeeps(s, spa, mac);
  }

  lemma GatewayArpKeepsInv(s: Learned, spa: Ipv4, mac: Mac)
    requires Inv(s) && s.gw.Some?
    ensures Inv(SpareGatewayArp(s, spa, mac)) && SameHop(s, SpareGatewayArp(s, spa, mac))
  {
    hide SetGw;
  }

  /** With a gateway known, spare-address ARP keeps the invariant and cannot rotate the next hop. */
  lemma SpareArpKeepsHop(s: Learned, role: Role, frame: seq<Byte>, spare: Spare)
    requires Inv(s) && s.gw.Some?
    ensures Inv(SpareArp(s, role, frame, spare))
    ensures Solid(s) ==> SameHop(s, SpareArp(s, role, frame, spare))
  {
    hide Inv, Solid, ConfirmGw, SpareGatewayArp, SpareUsable, DecodeArp, Be16, MacAt;
    if |frame| >= ETH_LEN && DecodeArp(frame[ETH_LEN..]).Some? {
      var spa, mac := DecodeArp(frame[ETH_LEN..]).value.spa, MacAt(frame, 6);
      ConfirmKeepsInv(s, spa, mac);
      GatewayArpKeepsInv(s, spa, mac);
    }
  }
}
