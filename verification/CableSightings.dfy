/** What the frames of the customer's side leave in the record: hosts with the MAC last seen for them, scores, and
    a customer that follows its MAC. */
module CableSightings {
  import opened Net
  import opened CableState
  import opened CableTheorems
  import opened CableReasons
  import opened CableFrames

  // ---- Where the host table's MACs come from ----

  /** The frame names `ip` as its sender's or as leased, and `mac` as its hardware address. */
  predicate Claims(frame: seq<Byte>, ip: Ipv4, mac: Mac)
    requires !Ignored(frame)
  {
    || (FrameArp(frame).Some? && FrameArp(frame).value.spa == ip && MacAt(frame, 6) == mac)
    || (FramePacket(frame).Some? && PacketClaims(FramePacket(frame).value, MacAt(frame, 6), ip, mac))
  }

  predicate PacketClaims(pkt: Packet, src: Mac, ip: Ipv4, mac: Mac) {
    || (pkt.src == ip && mac == src)
    || (PacketLease(pkt, src).Some? && LeaseClaims(PacketLease(pkt, src).value, ip, mac))
  }

  predicate LeaseClaims(l: Lease, ip: Ipv4, mac: Mac) {
    mac == l.chaddr && (ip == l.yiaddr || l.requested == Some(ip))
  }

  /** A frame from the customer's side that names `ip`, while it may be a host's. */
  ghost predicate Renews(s: Learned, role: Role, frame: seq<Byte>, ip: Ipv4) {
    && role.Cpe? && !Ignored(frame) && Usable(ip) && s.gw != Some(ip)
    && exists mac :: Claims(frame, ip, mac)
  }

  lemma SightingSources(s: Learned, who: Ipv4, mac: Mac, points: nat, now: int, ip: Ipv4)
    ensures var t := SawHost(s, who, mac, points, now);
            && t.gw == s.gw
            && (ip in t.hosts ==>
                  if ip == who && Usable(ip) && s.gw != Some(ip) then t.hosts[ip] == Host(mac, Stamp(now))
                  else ip in s.hosts && t.hosts[ip] == s.hosts[ip])
  {
    hide Usable, SameMacHitch, PrimaryMac;
  }

  lemma DhcpHostSources(s: Learned, who: Ipv4, mac: Mac, now: int, ip: Ipv4)
    ensures var t := LearnDhcpHost(s, who, mac, now);
            && t.gw == s.gw
            && (ip in t.hosts ==>
                  if ip == who && Usable(ip) && s.gw != Some(ip) then t.hosts[ip] == Host(mac, Stamp(now))
                  else ip in s.hosts && t.hosts[ip] == s.hosts[ip])
  {
    hide Usable, SameMacHitch, PrimaryMac;
  }

  lemma LeaseSources(s: Learned, l: Lease, now: int, ip: Ipv4)
    ensures var t := LearnLease(s, l, now);
            ip in t.hosts ==>
              if LeaseClaims(l, ip, l.chaddr) && Usable(ip) && s.gw != Some(ip) then
                t.hosts[ip] == Host(l.chaddr, Stamp(now))
              else ip in s.hosts && t.hosts[ip] == s.hosts[ip]
  {
    hide Usable, LearnDhcpHost, OnLinkGw;
    var s1 := LearnDhcpHost(s, l.yiaddr, l.chaddr, now);
    DhcpHostSources(s, l.yiaddr, l.chaddr, now, ip);
    if l.requested.Some? {
      DhcpHostSources(s1, l.requested.value, l.chaddr, now, ip);
    }
  }

  lemma ArpSources(s: Learned, mac: Mac, arp: Arp, now: int, ip: Ipv4)
    ensures var t := ArpFromCpe(s, mac, arp, now);
            ip in t.hosts ==>
              if ip == arp.spa && Usable(ip) && s.gw != Some(ip) then t.hosts[ip] == Host(mac, Stamp(now))
              else ip in s.hosts && t.hosts[ip] == s.hosts[ip]
  {
    hide Usable, SawHost, OnLinkGw;
    SightingSources(s.(customer := true), arp.spa, mac, if arp.request && Usable(arp.tpa) then 6 else 1, now, ip);
  }

  lemma PacketSources(s: Learned, mac: Mac, pkt: Packet, now: int, ip: Ipv4)
    ensures var t := Ipv4FromCpe(s, mac, pkt, now);
            ip in t.hosts ==>
              if Usable(ip) && s.gw != Some(ip) && exists m :: PacketClaims(pkt, mac, ip, m) then
                PacketClaims(pkt, mac, ip, t.hosts[ip].mac) && t.hosts[ip].at == Stamp(now)
              else ip in s.hosts && t.hosts[ip] == s.hosts[ip]
  {
    hide Usable, SawHost, LearnLease, LeaseClaims, PacketLease;
    var s0 := s.(customer := true);
    SightingSources(s0, pkt.src, mac, 1, now, ip);
    var s1 := if Usable(pkt.src) && s0.gw != Some(pkt.src) then SawHost(s0, pkt.src, mac, 1, now) else s0;
    var lease := PacketLease(pkt, mac);
    if lease.Some? {
      LeaseSources(AnsweredBy(s1, pkt.src), lease.value, now, ip);
      ClientClaims(lease.value, ip);
      assert PacketClaims(pkt, mac, ip, lease.value.chaddr) <== LeaseClaims(lease.value, ip, lease.value.chaddr);
    }
    assert ip == pkt.src ==> PacketClaims(pkt, mac, ip, mac);
  }

  lemma ClientClaims(l: Lease, ip: Ipv4)
    ensures forall mac :: LeaseClaims(l, ip, mac) ==> mac == l.chaddr
  {
  }

  /** A frame's own evidence, for both ports. */
  lemma AbsorbSources(s: Learned, role: Role, frame: seq<Byte>, now: int, ip: Ipv4)
    requires !Ignored(frame)
    ensures var m := Absorb(s, role, frame, now);
            ip in m.hosts ==>
              if Renews(s, role, frame, ip) then Claims(frame, ip, m.hosts[ip].mac) && m.hosts[ip].at == Stamp(now)
              else ip in s.hosts && m.hosts[ip] == s.hosts[ip]
  {
    hide Usable, ArpFromCpe, ArpFromIsp, Ipv4FromCpe, MacAt, Be16, PacketClaims, DecodeArp, DecodeIpv4;
    var mac := MacAt(frame, 6);
    if role.Isp? {
      IspEvidenceAddsNoHost(s, frame, now);
    } else if FrameArp(frame).Some? {
      ArpSources(s, mac, FrameArp(frame).value, now, ip);
      assert ip == FrameArp(frame).value.spa ==> Claims(frame, ip, mac);
    } else if FramePacket(frame).Some? {
      PacketSources(s, mac, FramePacket(frame).value, now, ip);
      assert forall m :: PacketClaims(FramePacket(frame).value, mac, ip, m) ==> Claims(frame, ip, m);
    }
  }

  /** A host's MAC is the one last seen for it: a frame from the customer's side that names the host renews
      the MAC and the time, and no other frame changes what the table says of it. */
  lemma HostMacIsLastSeen(s: Learned, role: Role, frame: seq<Byte>, now: int, t: Learned, ip: Ipv4)
    requires FrameStep(s, role, frame, now, t) && ip in t.hosts
    ensures if Renews(s, role, frame, ip) then Claims(frame, ip, t.hosts[ip].mac) && t.hosts[ip].at == Stamp(now)
            else ip in s.hosts && t.hosts[ip] == s.hosts[ip]
  {
    hide Renews, Claims, Absorb, PicksFor, Settle, Dead;
    if !Ignored(frame) {
      var m := Absorb(s, role, frame, now);
      var p :| PicksFor(m, now, p) && t == Settle(m, now, p);
      AbsorbSources(s, role, frame, now, ip);
      SettledHosts(m, now, p);
    } else {
      IgnoredRenewsNothing(s, role, frame, ip);
    }
  }

  lemma IgnoredRenewsNothing(s: Learned, role: Role, frame: seq<Byte>, ip: Ipv4)
    requires Ignored(frame)
    ensures !Renews(s, role, frame, ip)
  {
  }

  // ---- What sightings do to the rest of the record ----

  /** Hosts seen within half an hour stay, and the others go, whenever a host is seen. */
  lemma SightingPrunes(s: Learned, ip: Ipv4, mac: Mac, points: nat, now: int, o: Ipv4)
    requires Usable(ip) && s.gw != Some(ip) && o != ip && s.ce != Some(o)
    ensures o in SawHost(s, ip, mac, points, now).hosts <==> o in s.hosts && now - s.hosts[o].at <= 30 * 60 * SECOND
    ensures SawHost(s, ip, mac, points, now).ce in {s.ce, Some(ip)}
  {
    hide Usable, SameMacHitch, PrimaryMac;
  }

  lemma PrunedAbsorbed(s: Learned, frame: seq<Byte>, src: Mac, ip: Ipv4, now: int, o: Ipv4)
    requires Sights(frame, src, ip) && Usable(ip) && s.gw != Some(ip) && o != ip && s.ce != Some(o)
    ensures !Ignored(frame)
    ensures var m := Absorb(s, Cpe, frame, now);
            && (o in m.hosts <==> o in s.hosts && now - s.hosts[o].at <= 30 * 60 * SECOND)
            && m.ce in {s.ce, Some(ip)} && (s.ce == Some(ip) ==> m.ce == Some(ip))
  {
    hide Usable, MacAt, SawHost, OnLinkGw, AnsweredBy, ArpSender, Ipv4Frame, DhcpFrame, UdpStart, Be16;
    AnswerKeepsHosts(s, ip);
    var s0 := s.(customer := true);
    if ArpSender(frame, src, ip) {
      var arp := SenderRead(frame, src, ip);
      var points := if arp.request && Usable(arp.tpa) then 6 else 1;
      SightingPrunes(s0, ip, src, points, now, o);
      AnswerKeepsHosts(SawHost(s0, ip, src, points, now), ip);
    } else {
      Ipv4Reads(frame, src, ip);
      LeaseNeedsDhcp(frame, src, ip);
      SightingPrunes(s0, ip, src, 1, now, o);
      AnswerKeepsHosts(SawHost(s0, ip, src, 1, now), ip);
    }
  }

  lemma AnswerKeepsHosts(s: Learned, ip: Ipv4)
    ensures AnsweredBy(s, ip).hosts == s.hosts && AnsweredBy(s, ip).ce == s.ce
  {
  }

  /** The host table forgets: after a sighting it holds, besides the sender and the customer of before, exactly the
      hosts it held that were seen within the last thirty minutes. */
  lemma HostsExpire(s: Learned, frame: seq<Byte>, src: Mac, ip: Ipv4, now: int, t: Learned, o: Ipv4)
    requires Sights(frame, src, ip) && Usable(ip) && s.gw != Some(ip) && FrameStep(s, Cpe, frame, now, t)
    requires o != ip && s.ce != Some(o)
    ensures o in t.hosts <==> o in s.hosts && now - s.hosts[o].at <= 30 * 60 * SECOND
  {
    hide Sights, Absorb, Settle, PicksFor, Usable, Ignored, Dead;
    PrunedAbsorbed(s, frame, src, ip, now, o);
    var m := Absorb(s, Cpe, frame, now);
    var p :| PicksFor(m, now, p) && t == Settle(m, now, p);
    SettledHosts(m, now, p);
  }

  /** The evidence of a rebind. */
  lemma RebindEvidence(s: Learned, was: Ipv4, ip: Ipv4, mac: Mac, points: nat, now: int)
    requires s.ce == Some(was) && s.cpeMac == Some(mac) && (was in s.hosts ==> s.hosts[was].mac == mac)
    requires Usable(ip) && ip != was && s.gw != Some(ip) && SameSegment(was, ip)
    ensures var t := SawHost(s, ip, mac, points, now);
            && t.ce == Some(ip) && t.misses == 0 && was !in t.hosts && was !in t.scores && t.gw == s.gw
            && AnsweredBy(t, ip) == t
  {
    hide Usable;
  }

  lemma RebindAbsorbed(s: Learned, frame: seq<Byte>, src: Mac, was: Ipv4, ip: Ipv4, now: int)
    requires Sights(frame, src, ip) && s.ce == Some(was) && s.cpeMac == Some(src) && s.gw.Some?
    requires (was in s.hosts ==> s.hosts[was].mac == src)
    requires Usable(ip) && ip != was && s.gw != Some(ip) && SameSegment(was, ip)
    ensures !Ignored(frame)
    ensures var m := Absorb(s, Cpe, frame, now);
            m.ce == Some(ip) && m.misses == 0 && was !in m.hosts && was !in m.scores && m.gw == s.gw
  {
    hide Usable, MacAt, SawHost, OnLinkGw, AnsweredBy, ArpSender, Ipv4Frame, DhcpFrame, UdpStart, Be16, SameSegment;
    var s0 := s.(customer := true);
    if ArpSender(frame, src, ip) {
      var arp := SenderRead(frame, src, ip);
      RebindEvidence(s0, was, ip, src, if arp.request && Usable(arp.tpa) then 6 else 1, now);
    } else {
      Ipv4Reads(frame, src, ip);
      LeaseNeedsDhcp(frame, src, ip);
      RebindEvidence(s0, was, ip, src, 1, now);
    }
  }

  /** Housekeeping leaves alone a live, usable customer on the segment of its gateway. */
  lemma HealthyCustomerStays(m: Learned, now: int, p: Picks)
    requires !Dead(m, now) && m.ce.Some? && Usable(m.ce.value) && OnSegment(m.ce, m.gw)
    ensures var t := Settle(m, now, p);
            t.ce == m.ce && t.gw == m.gw && t.misses == m.misses && t.hosts == m.hosts && t.scores == m.scores
  {
    hide Dead, Usable, OnSegment;
  }

  /**
   * The customer follows its MAC. When the customer's own MAC is heard from another address of its segment, that
   * address is the customer from then on, with no misses, and the old one is forgotten as host and as candidate;
   * the gateway stays.
   */
  lemma CustomerFollowsItsMac(s: Learned, frame: seq<Byte>, src: Mac, was: Ipv4, ip: Ipv4, now: int, t: Learned)
    requires Inv(s) && Solid(s) && s.ce == Some(was) && s.cpeMac == Some(src)
    requires Sights(frame, src, ip) && FrameStep(s, Cpe, frame, now, t)
    requires Usable(ip) && ip != was && s.gw != Some(ip) && SameSegment(was, ip)
    ensures t.ce == Some(ip) && t.misses == 0 && t.gw == s.gw && t.cpeMac == Some(src)
    ensures was !in t.hosts && was !in t.scores
  {
    hide Sights, Absorb, Settle, PicksFor, Usable, Ignored, Dead, SameSegment;
    RebindAbsorbed(s, frame, src, was, ip, now);
    SightAbsorbed(s, frame, src, ip, now);
    var m := Absorb(s, Cpe, frame, now);
    var p :| PicksFor(m, now, p) && t == Settle(m, now, p);
    SeenIsAlive(s, m, ip, src, now);
    StillOnSegment(s, was, ip);
    HealthyCustomerStays(m, now, p);
    SightedIsRemembered(s, frame, src, ip, now, t);
    SettledInStep(m, now, p);
  }

  lemma StillOnSegment(s: Learned, was: Ipv4, ip: Ipv4)
    requires Inv(s) && Solid(s) && s.ce == Some(was) && s.gw != Some(ip) && SameSegment(was, ip)
    ensures OnSegment(Some(ip), s.gw)
  {
    hide Usable;
    SegmentDecidesClass(was, ip);
  }

  /** The record's customer MAC is the one its host table has for the customer. */
  predicate MacInStep(l: Learned) {
    l.ce.Some? && l.ce.value in l.hosts ==> l.cpeMac == Some(l.hosts[l.ce.value].mac)
  }

  lemma SettledInStep(m: Learned, now: int, p: Picks)
    ensures MacInStep(Settle(m, now, p))
  {
    hide Demote, FillVacancy, ReplaceUnusable, FixSegment;
    SummaryInStep(FixSegment(ReplaceUnusable(FillVacancy(Demote(m, now, p.demote), p.vacant), p.unusable), p.segment));
  }

  lemma SummaryInStep(s: Learned)
    ensures MacInStep(Recompute(SyncPrimaryMac(s)))
  {
  }

  /** A customer that is heard again has no misses. */
  lemma AnswerClearsMisses(s: Learned, frame: seq<Byte>, src: Mac, ip: Ipv4, now: int, t: Learned)
    requires Inv(s) && s.ce == Some(ip) && Sights(frame, src, ip) && FrameStep(s, Cpe, frame, now, t)
    ensures t.misses == 0
  {
    hide Sights, Absorb, Settle, PicksFor, Usable, Ignored, Dead, Inv;
    CustomerIsHost(s, ip);
    SightAbsorbed(s, frame, src, ip, now);
    CustomerStaysHeard(s, frame, src, ip, now);
    var m := Absorb(s, Cpe, frame, now);
    var p :| PicksFor(m, now, p) && t == Settle(m, now, p);
    SeenIsAlive(s, m, ip, src, now);
    NoMissesAdded(m, now, p);
  }

  lemma CustomerIsHost(s: Learned, ip: Ipv4)
    requires Inv(s) && s.ce == Some(ip)
    ensures Usable(ip) && s.gw != Some(ip)
  {
    hide Usable;
  }

  lemma CustomerStaysHeard(s: Learned, frame: seq<Byte>, src: Mac, ip: Ipv4, now: int)
    requires s.ce == Some(ip) && Sights(frame, src, ip) && Usable(ip) && s.gw != Some(ip)
    ensures !Ignored(frame) && Absorb(s, Cpe, frame, now).ce == Some(ip)
  {
    hide Sights, Absorb, Usable, Ignored;
    UsableIff(ip);
    PrunedAbsorbed(s, frame, src, ip, now, 0);
  }

  lemma NoMissesAdded(m: Learned, now: int, p: Picks)
    requires !Dead(m, now) && m.misses == 0
    ensures Settle(m, now, p).misses == 0
  {
    hide Dead, Usable, OnSegment, FillVacancy, ReplaceUnusable, FixSegment, Recompute, SyncPrimaryMac;
    var s1 := Demote(m, now, p.demote);
    var s2 := FillVacancy(s1, p.vacant);
    var s3 := ReplaceUnusable(s2, p.unusable);
    ElectionsAddNoMisses(s1, p.vacant);
    ElectionsAddNoMisses(s2, p.unusable);
    ElectionsAddNoMisses(s3, p.segment);
  }

  lemma ElectionsAddNoMisses(s: Learned, pick: Option<Ipv4>)
    requires s.misses == 0
    ensures FillVacancy(s, pick).misses == ReplaceUnusable(s, pick).misses == FixSegment(s, pick).misses == 0
    ensures Recompute(SyncPrimaryMac(FixSegment(s, pick))).misses == 0
  {
    hide Usable, OnSegment;
  }

  // ---- Scores ----

  lemma SightingScores(s: Learned, ip: Ipv4, mac: Mac, points: nat, now: int)
    requires Usable(ip) && s.gw != Some(ip)
    ensures Score(AnsweredBy(SawHost(s, ip, mac, points, now), ip), ip) == Score(s, ip) + points
  {
    hide Usable, SameMacHitch, PrimaryMac;
  }

  lemma SettledScore(m: Learned, now: int, p: Picks, ip: Ipv4)
    requires !Dead(m, now) || m.ce != Some(ip)
    ensures Score(Settle(m, now, p), ip) == Score(m, ip)
  {
    hide Dead, Usable, OnSegment, FillVacancy, ReplaceUnusable, FixSegment, Recompute, SyncPrimaryMac;
    if Dead(m, now) {
      DeadIsKnown(m, now);
    }
    var s1 := Demote(m, now, p.demote);
    var s2 := FillVacancy(s1, p.vacant);
    var s3 := ReplaceUnusable(s2, p.unusable);
    ElectionsKeepScores(s1, p.vacant);
    ElectionsKeepScores(s2, p.unusable);
    ElectionsKeepScores(s3, p.segment);
  }

  lemma ElectionsKeepScores(s: Learned, pick: Option<Ipv4>)
    ensures FillVacancy(s, pick).scores == ReplaceUnusable(s, pick).scores == FixSegment(s, pick).scores == s.scores
    ensures Recompute(SyncPrimaryMac(FixSegment(s, pick))).scores == s.scores
  {
    hide Usable, OnSegment;
  }

  lemma SightScored(s: Learned, frame: seq<Byte>, src: Mac, ip: Ipv4, points: nat, now: int, t: Learned)
    requires Sights(frame, src, ip) && Usable(ip) && s.gw != Some(ip) && FrameStep(s, Cpe, frame, now, t)
    requires !Ignored(frame) && Score(Absorb(s, Cpe, frame, now), ip) == Score(s, ip) + points
    ensures Score(t, ip) == Score(s, ip) + points
  {
    hide Sights, Absorb, Settle, PicksFor, Usable, Ignored, Dead, Score;
    SightAbsorbed(s, frame, src, ip, now);
    var m := Absorb(s, Cpe, frame, now);
    var p :| PicksFor(m, now, p) && t == Settle(m, now, p);
    if m.ce == Some(ip) {
      SeenIsAlive(s, m, ip, src, now);
    }
    SettledScore(m, now, p, ip);
  }

  /** A host scores six points when it asks for a possible gateway and one for any other ARP. */
  lemma ArpScores(s: Learned, frame: seq<Byte>, src: Mac, request: bool, ip: Ipv4, tpa: Ipv4, now: int, t: Learned)
    requires ArpFrame(frame, src, request, ip, tpa) && Usable(ip) && s.gw != Some(ip)
    requires FrameStep(s, Cpe, frame, now, t)
    ensures Score(t, ip) == Score(s, ip) + if request && Usable(tpa) then 6 else 1
  {
    hide Usable, MacAt, SawHost, OnLinkGw, AnsweredBy, DecodeArp, Be16, IpOctets, MacOctets, ArpSender, Settle,
        PicksFor;
    ArpFrameReads(frame, src, request, ip, tpa);
    var points := if request && Usable(tpa) then 6 else 1;
    SightingScores(s.(customer := true), ip, src, points, now);
    SightScored(s, frame, src, ip, points, now, t);
  }

  /** And one for an IPv4 packet. */
  lemma PacketScores(s: Learned, frame: seq<Byte>, src: Mac, ip: Ipv4, now: int, t: Learned)
    requires Ipv4Frame(frame, src, ip) && !DhcpFrame(frame) && Usable(ip) && s.gw != Some(ip)
    requires FrameStep(s, Cpe, frame, now, t)
    ensures Score(t, ip) == Score(s, ip) + 1
  {
    hide Usable, MacAt, SawHost, AnsweredBy, Be16, Ipv4Frame, DhcpFrame, UdpStart, Settle, PicksFor;
    Ipv4Reads(frame, src, ip);
    LeaseNeedsDhcp(frame, src, ip);
    SightingScores(s.(customer := true), ip, src, 1, now);
    SightScored(s, frame, src, ip, 1, now, t);
  }
}
