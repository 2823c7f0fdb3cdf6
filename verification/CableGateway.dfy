/** What ARP teaches about the next hop, and what it does not. */
module CableGateway {
  import opened Net
  import opened CableState
  import opened CableTheorems
  import opened CableReasons
  import opened CableFrames
  import opened CableSightings

  /** A request for the customer or for a host of the customer's side. */
  predicate AsksForUs(s: Learned, request: bool, tpa: Ipv4) {
    request && (s.ce == Some(tpa) || tpa in s.hosts)
  }

  /** A sender that may be the next hop of this record: usable, on the customer's link and segment, and no host. */
  predicate MayBeNextHop(s: Learned, spa: Ipv4) {
    OnLinkGw(s.ce, spa) && spa !in s.hosts && OnSegment(s.ce, Some(spa))
  }

  lemma FirstHopEvidence(s: Learned, mac: Mac, a: Arp)
    requires s.gw.None? && !s.gwStrong && s.peMac.None? && MayBeNextHop(s, a.spa)
    ensures var m := ArpFromIsp(s, mac, a);
            && m.gw == Some(a.spa) && m.peMac == Some(mac) && m.hosts == s.hosts
            && (m.gwStrong <==> AsksForUs(s, a.request, a.tpa))
  {
    hide OnLinkGw, OnSegment;
    var s1 := CountMiss(s, a);
    assert s1.ce == s.ce && s1.hosts == s.hosts && s1.gw.None? && s1.peMac.None?;
    if AsksForUs(s, a.request, a.tpa) {
      assert s1.hosts - {a.spa} == s1.hosts;
      assert ArpTarget(s, mac, a) == ConfirmGw(s1, a.spa, mac);
    } else {
      assert ArpTarget(s, mac, a) == s1;
      assert SetGw(s1, a.spa, false) == s1.(gw := Some(a.spa), gwStrong := false);
    }
  }

  lemma NoHopIsWeak(s: Learned)
    requires Inv(s) && s.gw.None?
    ensures !s.gwStrong && (s.ce.Some? ==> Usable(s.ce.value))
  {
    hide Usable;
  }

  /** ARP from the ISP's side touches neither the customer nor, but for counting, its misses. */
  lemma IspArpCounts(s: Learned, mac: Mac, a: Arp)
    ensures var m := ArpFromIsp(s, mac, a);
            && m.ce == s.ce && m.customer == s.customer
            && m.misses == s.misses + if a.request && s.ce == Some(a.tpa) then 1 else 0
  {
    hide OnLinkGw, SetGw, ArpTarget;
    ArpTargetCounts(s, mac, a);
    SetGwCountsNothing(ArpTarget(s, mac, a), a.spa, false);
  }

  lemma ArpTargetCounts(s: Learned, mac: Mac, a: Arp)
    ensures var m := ArpTarget(s, mac, a);
            && m.ce == s.ce && m.customer == s.customer
            && m.misses == s.misses + if a.request && s.ce == Some(a.tpa) then 1 else 0
  {
    hide ConfirmGw;
    ConfirmCountsNothing(CountMiss(s, a), a.spa, mac);
  }

  lemma ConfirmCountsNothing(s: Learned, spa: Ipv4, mac: Mac)
    ensures var t := ConfirmGw(s, spa, mac); t.ce == s.ce && t.customer == s.customer && t.misses == s.misses
  {
    hide SetGw;
    SetGwCountsNothing(s, spa, true);
  }

  lemma SetGwCountsNothing(s: Learned, gw: Ipv4, strong: bool)
    ensures var t := SetGw(s, gw, strong); t.ce == s.ce && t.customer == s.customer && t.misses == s.misses
  {
    hide OnLinkGw;
  }

  /** Housekeeping keeps the next hop of a customer that stays. */
  lemma HealthyHopStays(m: Learned, now: int, p: Picks)
    requires !Dead(m, now) && m.ce.Some? && Usable(m.ce.value) && OnSegment(m.ce, m.gw)
    ensures var t := Settle(m, now, p);
            t.gw == m.gw && t.peMac == m.peMac && t.gwStrong == m.gwStrong && t.ce == m.ce && t.misses == m.misses
  {
    hide Dead, Usable, OnSegment;
  }

  /** A lone customer does not die of unanswered questions or of its age. */
  lemma LoneLives(s: Learned, m: Learned, now: int)
    requires Alone(s, now) && NoNewHost(s, m)
    ensures !Dead(m, now)
  {
    assert forall ip: Ipv4 :: Fresh(m, ip, now) ==> Fresh(s, ip, now);
  }

  lemma ArpFrameAbsorbed(s: Learned, role: Role, frame: seq<Byte>, src: Mac, request: bool, spa: Ipv4, tpa: Ipv4,
                         now: int)
    requires ArpFrame(frame, src, request, spa, tpa)
    ensures !Ignored(frame)
    ensures var a := Arp(request, spa, tpa);
            Absorb(s, role, frame, now) == if role.Cpe? then ArpFromCpe(s, src, a, now) else ArpFromIsp(s, src, a)
  {
    hide ArpFrame, ArpFromCpe, ArpFromIsp, MacAt, Be16, DecodeArp;
    ArpFrameReads(frame, src, request, spa, tpa);
  }

  /**
   * The first ARP from the ISP's side that may come from the next hop of a lone customer is taken for it: its sender
   * is the gateway and its source MAC the PE MAC. It counts as confirmed exactly when it asks for the customer or for
   * a host of its side.
   */
  lemma IspArpTeachesNextHop(s: Learned, frame: seq<Byte>, src: Mac, request: bool, spa: Ipv4, tpa: Ipv4, now: int,
                             t: Learned)
    requires Inv(s) && Alone(s, now) && s.gw.None? && s.peMac.None? && MayBeNextHop(s, spa)
    requires ArpFrame(frame, src, request, spa, tpa) && FrameStep(s, Isp, frame, now, t)
    ensures t.gw == Some(spa) && t.peMac == Some(src) && (t.gwStrong <==> AsksForUs(s, request, tpa)) && t.ce == s.ce
  {
    hide Absorb, ArpFrame, ArpFromIsp, PicksFor, Settle, Dead, Usable, OnLinkGw, SameSegment;
    var a := Arp(request, spa, tpa);
    ArpFrameAbsorbed(s, Isp, frame, src, request, spa, tpa, now);
    NoHopIsWeak(s);
    FirstHopEvidence(s, src, a);
    IspArpCounts(s, src, a);
    IspEvidenceAddsNoHost(s, frame, now);
    var m := Absorb(s, Isp, frame, now);
    var p :| PicksFor(m, now, p) && t == Settle(m, now, p);
    LoneLives(s, m, now);
    HealthyHopStays(m, now, p);
  }

  /** Each question for a lone customer from the ISP's side counts, and no other frame from there does. */
  lemma QuestionsAreCounted(s: Learned, frame: seq<Byte>, src: Mac, request: bool, spa: Ipv4, tpa: Ipv4, now: int,
                            t: Learned)
    requires Inv(s) && Solid(s) && Alone(s, now)
    requires ArpFrame(frame, src, request, spa, tpa) && FrameStep(s, Isp, frame, now, t)
    ensures t.misses == s.misses + if request && s.ce == Some(tpa) then 1 else 0
  {
    hide Absorb, ArpFrame, ArpFromIsp, PicksFor, Settle, Dead, Usable, OnSegment, Mid;
    var a := Arp(request, spa, tpa);
    ArpFrameAbsorbed(s, Isp, frame, src, request, spa, tpa, now);
    IspArpCounts(s, src, a);
    IspEvidenceAddsNoHost(s, frame, now);
    KnownHopSettled(s, frame, now);
    var m := Absorb(s, Isp, frame, now);
    var p :| PicksFor(m, now, p) && t == Settle(m, now, p);
    LoneLives(s, m, now);
    HealthyHopStays(m, now, p);
  }

  lemma KnownHopSettled(s: Learned, frame: seq<Byte>, now: int)
    requires Inv(s) && Solid(s) && !Ignored(frame)
    ensures var m := Absorb(s, Isp, frame, now); m.ce.Some? ==> Usable(m.ce.value) && OnSegment(m.ce, m.gw)
  {
    hide Absorb, Usable, OnLinkGw;
    InvIsMid(s);
    AbsorbKeeps(s, Isp, frame, now);
  }

  // ---- The customer's side ----

  /** An answer from the customer's side names no gateway. */
  lemma AnswerTeachesNoGateway(s: Learned, frame: seq<Byte>, src: Mac, spa: Ipv4, tpa: Ipv4, now: int, t: Learned)
    requires s.gw.None? && ArpFrame(frame, src, false, spa, tpa) && FrameStep(s, Cpe, frame, now, t)
    ensures t.gw.None?
  {
    hide Absorb, ArpFrame, PicksFor, Settle, Usable, SawHost;
    ArpFrameAbsorbed(s, Cpe, frame, src, false, spa, tpa, now);
    SightingSources(s.(customer := true), spa, src, 1, now, spa);
    var m := Absorb(s, Cpe, frame, now);
    var p :| PicksFor(m, now, p) && t == Settle(m, now, p);
    NoGatewayAppears(m, now, p);
  }

  lemma NoGatewayAppears(m: Learned, now: int, p: Picks)
    requires m.gw.None?
    ensures Settle(m, now, p).gw.None?
  {
    hide Dead, Usable, OnSegment, FillVacancy, ReplaceUnusable, FixSegment, Recompute, SyncPrimaryMac;
    var s1 := Demote(m, now, p.demote);
    var s2 := FillVacancy(s1, p.vacant);
    var s3 := ReplaceUnusable(s2, p.unusable);
    ElectionsBringNoGateway(s1, p.vacant);
    ElectionsBringNoGateway(s2, p.unusable);
    ElectionsBringNoGateway(s3, p.segment);
  }

  lemma ElectionsBringNoGateway(s: Learned, pick: Option<Ipv4>)
    requires s.gw.None?
    ensures FillVacancy(s, pick).gw.None? && ReplaceUnusable(s, pick).gw.None? && FixSegment(s, pick).gw.None?
    ensures Recompute(SyncPrimaryMac(FixSegment(s, pick))).gw.None?
  {
    hide Usable, OnSegment;
  }

  /** Nor does a question for another known host of the customer's side. */
  lemma QuestionForHostTeachesNoGateway(s: Learned, frame: seq<Byte>, src: Mac, spa: Ipv4, tpa: Ipv4, now: int,
                                        t: Learned)
    requires s.gw.None? && ArpFrame(frame, src, true, spa, tpa) && FrameStep(s, Cpe, frame, now, t)
    requires tpa in s.hosts && now - s.hosts[tpa].at <= 30 * 60 * SECOND && s.ce != Some(tpa) && spa != tpa
    ensures t.gw.None?
  {
    hide Absorb, ArpFrame, PicksFor, Settle, Usable, SawHost, OnLinkGw;
    ArpFrameAbsorbed(s, Cpe, frame, src, true, spa, tpa, now);
    var s0, points := s.(customer := true), if Usable(tpa) then 6 else 1;
    SightingSources(s0, spa, src, points, now, spa);
    if Usable(spa) {
      SightingPrunes(s0, spa, src, points, now, tpa);
    }
    var m := Absorb(s, Cpe, frame, now);
    var p :| PicksFor(m, now, p) && t == Settle(m, now, p);
    NoGatewayAppears(m, now, p);
  }
}
