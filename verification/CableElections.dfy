/** Who is elected, what is forgotten with a retired customer, and what the phase says. */
module CableElections {
  import opened Net
  import opened CableState
  import opened CableTheorems
  import opened CableReasons
  import opened CableFrames

  // ---- Elections ----

  /** A host that may be elected: on the cable within five minutes, usable, and on the segment of the gateway. */
  ghost predicate Candidate(s: Learned, ip: Ipv4, now: int) {
    && ip in s.hosts && now - s.hosts[ip].at <= 300 * 1_000_000_000 && Usable(ip)
    && (s.gw.Some? ==> ip != s.gw.value && SameSegment(ip, s.gw.value))
  }

  /** The best candidate wins: the highest score, and among those the latest sighting. */
  lemma ElectedHostIff(s: Learned, now: int, r: Option<Ipv4>)
    requires exists ip: Ipv4 :: Candidate(s, ip, now)
    ensures Elected(s, now, r) <==>
            && r.Some? && Candidate(s, r.value, now)
            && forall ip: Ipv4 :: Candidate(s, ip, now) ==>
                 && Score(s, ip) <= Score(s, r.value)
                 && (Score(s, ip) == Score(s, r.value) ==> s.hosts[ip].at <= s.hosts[r.value].at)
  {
    hide Usable, SameSegment, Score;
    forall ip: Ipv4
      ensures Eligible(s, ip, now) <==> Candidate(s, ip, now)
    {
    }
  }

  /** An address known from its score alone. */
  predicate Remembered(s: Learned, ip: Ipv4) {
    && ip in s.scores && s.scores[ip] > 0 && Usable(ip)
    && (s.gw.Some? ==> ip != s.gw.value && SameSegment(ip, s.gw.value))
  }

  /** Without a candidate, an address with the highest score wins, and nobody if there is none. */
  lemma ElectedScoreIff(s: Learned, now: int, r: Option<Ipv4>)
    requires forall ip: Ipv4 :: !Candidate(s, ip, now)
    ensures Elected(s, now, r) <==>
            if r.None? then forall ip: Ipv4 :: !Remembered(s, ip)
            else Remembered(s, r.value)
                 && forall ip: Ipv4 :: Remembered(s, ip) ==> s.scores[ip] <= s.scores[r.value]
  {
    hide Usable, SameSegment;
    forall ip: Ipv4
      ensures Eligible(s, ip, now) <==> Candidate(s, ip, now)
    {
    }
    forall ip: Ipv4
      ensures Scored(s, ip) <==> Remembered(s, ip)
    {
    }
  }

  // ---- Retiring a customer ----

  /** A retired customer is forgotten: it is neither host nor candidate any more, the misses start over, and its MAC
      goes with it when nobody takes its place. */
  lemma RetiredIsForgotten(s: Learned, role: Role, frame: seq<Byte>, now: int, t: Learned)
    requires Inv(s) && !Ignored(frame) && FrameStep(s, role, frame, now, t)
    requires Dead(Absorb(s, role, frame, now), now)
    ensures var m := Absorb(s, role, frame, now);
            && m.ce.Some? && t.misses == 0 && m.ce.value !in t.hosts && m.ce.value !in t.scores
            && (t.ce.None? ==> t.cpeMac.None?)
  {
    hide Absorb, Dead, PicksFor, Settle, Inv, Ignored;
    InvIsMid(s);
    AbsorbKeeps(s, role, frame, now);
    var m := Absorb(s, role, frame, now);
    var p :| PicksFor(m, now, p) && t == Settle(m, now, p);
    DeadIsKnown(m, now);
    RetirementSettles(m, now, p);
  }

  lemma RetirementSettles(m: Learned, now: int, p: Picks)
    requires Mid(m) && Dead(m, now) && m.ce.Some? && PicksFor(m, now, p)
    ensures var t := Settle(m, now, p);
            && t.misses == 0 && m.ce.value !in t.hosts && m.ce.value !in t.scores && (t.ce.None? ==> t.cpeMac.None?)
  {
    hide Dead, Usable, OnSegment, Elected, Recompute, SyncPrimaryMac;
    var s1 := Demote(m, now, p.demote);
    assert s1.misses == 0 && s1.ce == p.demote && (s1.ce.None? ==> s1.cpeMac.None?);
    if p.demote.Some? {
      RetiredKeepsMid(m);
      ElectedFits(Retire(m), now, p.demote);
    }
    RestOfSettle(s1, p);
  }

  lemma RetiredKeepsMid(m: Learned)
    requires Mid(m) && m.ce.Some?
    ensures Mid(Retire(m))
  {
    hide Usable;
  }

  lemma RestOfSettle(s1: Learned, p: Picks)
    requires s1.misses == 0 && (s1.ce.None? ==> s1.cpeMac.None?) && (s1.ce.Some? ==> Usable(s1.ce.value))
    ensures var t := Recompute(SyncPrimaryMac(
                       FixSegment(ReplaceUnusable(FillVacancy(s1, p.vacant), p.unusable), p.segment)));
            t.misses == 0 && t.hosts == s1.hosts && t.scores == s1.scores && (t.ce.None? ==> t.cpeMac.None?)
  {
    hide FillVacancy, ReplaceUnusable, FixSegment, SyncPrimaryMac, Recompute, Usable;
    VacancyFilled(s1, p.vacant, p.unusable);
    SegmentFixed(ReplaceUnusable(FillVacancy(s1, p.vacant), p.unusable), p.segment);
  }

  lemma VacancyFilled(s: Learned, vacant: Option<Ipv4>, unusable: Option<Ipv4>)
    requires s.ce.Some? ==> Usable(s.ce.value)
    ensures var t := ReplaceUnusable(FillVacancy(s, vacant), unusable);
            && t.misses == s.misses && t.hosts == s.hosts && t.scores == s.scores && t.cpeMac == s.cpeMac
            && (t.ce.None? ==> s.ce.None?)
  {
    hide Usable;
  }

  lemma SegmentFixed(s: Learned, pick: Option<Ipv4>)
    requires s.misses == 0 && (s.ce.None? ==> s.cpeMac.None?)
    ensures var t := Recompute(SyncPrimaryMac(FixSegment(s, pick)));
            t.misses == 0 && t.hosts == s.hosts && t.scores == s.scores && (t.ce.None? ==> t.cpeMac.None?)
  {
    hide FixSegment;
    FixKeepsCustomer(s, pick);
  }

  lemma FixKeepsCustomer(s: Learned, pick: Option<Ipv4>)
    requires s.misses == 0
    ensures var t := FixSegment(s, pick);
            && t.misses == 0 && t.hosts == s.hosts && t.scores == s.scores && t.cpeMac == s.cpeMac
            && (t.ce.None? ==> s.ce.None?)
  {
    hide OnSegment;
    NobodyOffSegment(s.gw);
  }

  lemma NobodyOffSegment(gw: Option<Ipv4>)
    ensures OnSegment(None, gw)
  {
  }

  // ---- The phase ----

  /** Something is known of the customer's side. */
  predicate CustomerSide(l: Learned) {
    l.cpeMac.Some? || l.ce.Some? || l.hosts != map[]
  }

  /** The phase after a frame says exactly which sides are known: the customer's, the provider's, both or neither; a
      customer heard once counts even when all else of it is gone. */
  lemma PhaseIff(s: Learned, role: Role, frame: seq<Byte>, now: int, t: Learned)
    requires !Ignored(frame) && FrameStep(s, role, frame, now, t)
    ensures t.phase == Dual <==> CustomerSide(t) && t.peMac.Some?
    ensures t.phase == IspOnly <==> !CustomerSide(t) && t.peMac.Some? && !t.customer
    ensures t.phase == Idle <==> !CustomerSide(t) && t.peMac.None?
    ensures t.phase == CpeOnly <==>
            if t.peMac.Some? then !CustomerSide(t) && t.customer else CustomerSide(t)
  {
    hide Absorb, PicksFor, Dead, Demote, FillVacancy, ReplaceUnusable, FixSegment, SyncPrimaryMac;
    var m := Absorb(s, role, frame, now);
    var p :| PicksFor(m, now, p) && t == Settle(m, now, p);
  }

  // ---- Frames of other protocols ----

  /** Frames that are too short, tagged, IPv6 or PPPoE leave the record as it is, housekeeping included. */
  lemma ForeignFramesChangeNothing(s: Learned, role: Role, frame: seq<Byte>, now: int, t: Learned)
    requires FrameStep(s, role, frame, now, t)
    requires || |frame| < 14 || Holds(frame, 12, [0x81, 0x00]) || Holds(frame, 12, [0x86, 0xdd])
             || Holds(frame, 12, [0x88, 0x63]) || Holds(frame, 12, [0x88, 0x64])
    ensures t == s
  {
    hide Absorb, PicksFor, Settle;
    if |frame| >= 14 {
      var o := frame[12..14];
      assert frame[12] == o[0] && frame[13] == o[1];
    }
  }

  // ---- The gateway of the spare address ----

  /** Any other ARP of the configured gateway fills an empty slot, as weak evidence. */
  lemma SpareGatewayTeaches(s: Learned, frame: seq<Byte>, src: Mac, request: bool, spa: Ipv4, tpa: Ipv4, spare: Spare)
    requires SpareUsable(spare) && spare.gateway == Some(spa) && ArpFrame(frame, src, request, spa, tpa)
    requires !(request && spare.ip == Some(tpa)) && s.gw.None? && s.peMac.None? && !s.gwStrong
    ensures var t := SpareArp(s, Isp, frame, spare);
            t.gw == Some(spa) && !t.gwStrong && t.peMac == Some(src) && t.ce == s.ce && t.hosts == s.hosts
  {
    hide ArpFrame, MacAt, Usable, OnLinkGw;
    ArpFrameReads(frame, src, request, spa, tpa);
  }
}
