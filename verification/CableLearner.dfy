/** The transparent-cable learner as the program runs it: one record updated in place, its host and
    score tables scanned in an arbitrary order. Every method is tied to the functions of `CableState`. */
module CableLearner {
  import opened Net
  import opened CableState

  class Learner {
    var phase: Phase
    var cpeMac: Option<Mac>
    var ce: Option<Ipv4>
    var peMac: Option<Mac>
    var gw: Option<Ipv4>
    var customer: bool
    var hosts: map<Ipv4, Host>
    var scores: map<Ipv4, nat>
    var misses: nat
    var gwStrong: bool

    function State(): Learned
      reads this
    {
      Learned(phase, cpeMac, ce, peMac, gw, customer, hosts, scores, misses, gwStrong)
    }

    constructor From(s: Learned)
      ensures State() == s
    {
      phase, cpeMac, ce, peMac, gw := s.phase, s.cpeMac, s.ce, s.peMac, s.gw;
      customer, hosts, scores, misses, gwStrong := s.customer, s.hosts, s.scores, s.misses, s.gwStrong;
    }

    // ---- Host table ----

    method PruneHosts(now: int)
      modifies this`hosts
      ensures State() == Prune(old(State()), now)
    {
      var todo := hosts.Keys;
      while todo != {}
        invariant todo <= hosts.Keys <= old(hosts).Keys
        invariant forall ip :: ip in hosts ==> hosts[ip] == old(hosts)[ip]
        invariant forall ip :: ip in old(hosts) ==>
                                 (ip in hosts <==> ip in todo || now - old(hosts)[ip].at <= HOST_TTL)
        decreases |todo|
      {
        var ip :| ip in todo;
        todo := todo - {ip};
        if now - hosts[ip].at > HOST_TTL {
          hosts := hosts - {ip};
        }
      }
    }

    method RememberHost(ip: Ipv4, mac: Mac, now: int)
      modifies this`hosts
      ensures State() == Remember(old(State()), ip, mac, now)
    {
      if !Usable(ip) || gw == Some(ip) {
        return;
      }
      hosts := hosts[ip := Host(mac, Stamp(now))];
      PruneHosts(now);
    }

    method AddScore(ip: Ipv4, n: nat)
      modifies this`scores
      ensures State() == Credit(old(State()), ip, n)
    {
      scores := scores[ip := (if ip in scores then scores[ip] else 0) + n];
    }

    method HotUpdateIfSameMac(ip: Ipv4, mac: Mac)
      modifies this
      ensures State() == HotUpdate(old(State()), ip, mac)
    {
      if !Usable(ip) || ce.None? || ce == Some(ip) {
        return;
      }
      var primary := cpeMac;
      if ce.value in hosts {
        primary := Some(hosts[ce.value].mac);
      }
      if primary != Some(mac) || !SameMacHitch(gw, ce.value, ip) {
        return;
      }
      hosts, scores := hosts - {ce.value}, scores - {ce.value};
      ce, misses := Some(ip), 0;
    }

    method SetGateway(g: Ipv4, strong: bool)
      modifies this
      ensures State() == SetGw(old(State()), g, strong)
    {
      if !OnLinkGw(ce, g) {
        return;
      }
      if !strong && (gwStrong || gw.Some?) {
        return;
      }
      if strong && gw.Some? && gw != Some(g) && ce.Some? && SameSegment(ce.value, gw.value) {
        return;
      }
      if gw.Some? && gw != Some(g) {
        peMac := None;
      }
      gw, gwStrong := Some(g), strong;
      if strong {
        hosts, scores := hosts - {g}, scores - {g};
      }
    }

    // ---- Evidence ----

    method ApplyArpFromCpe(srcMac: Mac, arp: Arp, now: int)
      modifies this
      ensures State() == ArpFromCpe(old(State()), srcMac, arp, now)
    {
      customer := true;
      if Usable(arp.spa) && gw != Some(arp.spa) {
        RememberHost(arp.spa, srcMac, now);
        AddScore(arp.spa, if arp.request && Usable(arp.tpa) then 6 else 1);
        HotUpdateIfSameMac(arp.spa, srcMac);
      }
      if ce == Some(arp.spa) {
        misses := 0;
      }
      if arp.request && arp.tpa !in hosts {
        SetGateway(arp.tpa, false);
      }
    }

    method ConfirmGateway(spa: Ipv4, srcMac: Mac)
      modifies this
      ensures State() == ConfirmGw(old(State()), spa, srcMac)
    {
      SetGateway(spa, true);
      if peMac.None? && gw == Some(spa) {
        peMac := Some(srcMac);
      }
    }

    method LearnFromSource(spa: Ipv4, srcMac: Mac)
      modifies this
      ensures State() == ArpSource(old(State()), srcMac, spa)
    {
      if gw.None? && peMac.None? && spa !in hosts && OnLinkGw(ce, spa) {
        SetGateway(spa, false);
        if gw == Some(spa) {
          peMac := Some(srcMac);
        }
      } else if gw == Some(spa) {
        if peMac.None? {
          peMac := Some(srcMac);
        }
      }
    }

    method LearnFromTarget(srcMac: Mac, arp: Arp)
      modifies this
      ensures State() == ArpTarget(old(State()), srcMac, arp)
    {
      hide ConfirmGw;
      if arp.request {
        if ce == Some(arp.tpa) {
          misses := misses + 1;
        }
        if ce == Some(arp.tpa) || arp.tpa in hosts {
          ConfirmGateway(arp.spa, srcMac);
        }
      }
    }

    method ApplyArpFromIsp(srcMac: Mac, arp: Arp)
      modifies this
      ensures State() == ArpFromIsp(old(State()), srcMac, arp)
    {
      LearnFromTarget(srcMac, arp);
      LearnFromSource(arp.spa, srcMac);
    }

    method ApplyArp(role: Role, srcMac: Mac, payload: seq<Byte>, now: int)
      modifies this
      ensures State() ==
              match DecodeArp(payload)
              case None => old(State())
              case Some(arp) =>
                if role.Cpe? then ArpFromCpe(old(State()), srcMac, arp, now)
                else ArpFromIsp(old(State()), srcMac, arp)
    {
      var decoded := DecodeArp(payload);
      if decoded.None? {
        return;
      }
      match role
      case Cpe => ApplyArpFromCpe(srcMac, decoded.value, now);
      case Isp => ApplyArpFromIsp(srcMac, decoded.value);
    }

    method LearnHost(ip: Ipv4, chaddr: Mac, now: int)
      modifies this
      ensures State() == LearnDhcpHost(old(State()), ip, chaddr, now)
    {
      if !Usable(ip) || gw == Some(ip) {
        return;
      }
      AddScore(ip, 8);
      RememberHost(ip, chaddr, now);
      HotUpdateIfSameMac(ip, chaddr);
    }

    method ApplyDhcp(udp: seq<Byte>, srcMac: Mac, now: int)
      modifies this
      ensures var l := DecodeDhcp(udp, srcMac);
              State() == if l.Some? then LearnLease(old(State()), l.value, now) else old(State())
    {
      if |udp| < 8 + 240 {
        return;
      }
      var sport, dport := Be16(udp, 0), Be16(udp, 2);
      if sport != 67 && dport != 67 && sport != 68 && dport != 68 {
        return;
      }
      var bootp := udp[8..];
      var chaddr := srcMac;
      if bootp[1] == 1 && bootp[2] >= 6 {
        chaddr := MacAt(bootp, 28);
      }
      LearnHost(Ipv4At(bootp, 16), chaddr, now);
      var opts := bootp[240..];
      var requested := FindDhcpOption(opts, 50);
      if requested.Some? {
        LearnHost(requested.value, chaddr, now);
      }
      var router := FindDhcpOption(opts, 3);
      if router.Some? && OnLinkGw(ce, router.value) && (gw.None? || !OnLinkGw(ce, gw.value)) {
        gw := router;
      }
    }

    method ApplyIpv4(role: Role, srcMac: Mac, payload: seq<Byte>, now: int)
      modifies this
      ensures State() ==
              match DecodeIpv4(payload)
              case None => old(State())
              case Some(pkt) => if role.Cpe? then Ipv4FromCpe(old(State()), srcMac, pkt, now) else old(State())
    {
      var decoded := DecodeIpv4(payload);
      if decoded.None? || role.Isp? {
        return;
      }
      var pkt := decoded.value;
      customer := true;
      if Usable(pkt.src) && gw != Some(pkt.src) {
        RememberHost(pkt.src, srcMac, now);
        AddScore(pkt.src, 1);
        HotUpdateIfSameMac(pkt.src, srcMac);
      }
      if ce == Some(pkt.src) {
        misses := 0;
      }
      if pkt.udp.Some? {
        ApplyDhcp(pkt.udp.value, srcMac, now);
      }
    }

    /** ISP ARP aimed at the spare address, or sent by its configured gateway. */
    method ApplySpareArp(role: Role, frame: seq<Byte>, spare: Spare)
      modifies this
      ensures State() == SpareArp(old(State()), role, frame, spare)
    {
      if role.Cpe? || !SpareUsable(spare) || |frame| < ETH_LEN || Be16(frame, 12) != ETHER_ARP {
        return;
      }
      var decoded := DecodeArp(frame[ETH_LEN..]);
      if decoded.None? {
        return;
      }
      var arp, srcMac := decoded.value, MacAt(frame, 6);
      if arp.request && Some(arp.tpa) == spare.ip {
        ConfirmGateway(arp.spa, srcMac);
        return;
      }
      if spare.gateway == Some(arp.spa) {
        if gw.None? {
          SetGateway(arp.spa, false);
        }
        if peMac.None? && (gw == spare.gateway || gw.None?) {
          if gw.None? {
            gw := spare.gateway;
          }
          peMac := Some(srcMac);
        }
      }
    }

    // ---- Elections ----

    method TopCandidate() returns (best: Option<Ipv4>)
      ensures TopScored(State(), best)
    {
      best := None;
      var bestN, todo := 0, scores.Keys;
      while todo != {}
        invariant todo <= scores.Keys
        invariant best.None? ==> bestN == 0
        invariant best.Some? ==> Scored(State(), best.value) && bestN == scores[best.value]
        invariant forall o :: o in scores.Keys - todo && Scored(State(), o) ==> scores[o] <= bestN
        decreases |todo|
      {
        var ip :| ip in todo;
        todo := todo - {ip};
        if gw == Some(ip) || !Usable(ip) || (gw.Some? && !SameSegment(ip, gw.value)) {
          continue;
        }
        if scores[ip] > bestN {
          best, bestN := Some(ip), scores[ip];
        }
      }
    }

    /** Whatever the order of the scan, the winner is a best eligible host if there is one. */
    method ElectCe(now: int) returns (best: Option<Ipv4>)
      ensures Elected(State(), now, best)
    {
      best := None;
      var bestScore: int, bestAt: int := -1, 0;
      var todo := hosts.Keys;
      while todo != {}
        invariant todo <= hosts.Keys
        invariant best.None? ==> bestScore == -1
        invariant best.None? ==> forall o :: o in hosts.Keys - todo ==> !Eligible(State(), o, now)
        invariant best.Some? ==> Eligible(State(), best.value, now)
        invariant best.Some? ==> bestScore == Score(State(), best.value) && bestAt == hosts[best.value].at
        invariant best.Some? ==>
          forall o :: o in hosts.Keys - todo && Eligible(State(), o, now) ==> !Better(State(), o, best.value)
        decreases |todo|
      {
        var ip :| ip in todo;
        todo := todo - {ip};
        if gw == Some(ip) || !Usable(ip) || (gw.Some? && !SameSegment(ip, gw.value)) {
          continue;
        }
        var at := hosts[ip].at;
        if now - at > CE_STALE_AFTER {
          continue;
        }
        var score := Score(State(), ip);
        if score > bestScore || (score == bestScore && at > bestAt) {
          best, bestScore, bestAt := Some(ip), score, at;
        }
      }
      if best.None? {
        best := TopCandidate();
      }
    }

    method OtherFreshHost(c: Ipv4, now: int) returns (found: bool)
      ensures found == OtherFresh(State(), c, now)
    {
      var todo := hosts.Keys;
      while todo != {}
        invariant todo <= hosts.Keys
        invariant forall o :: o in hosts.Keys - todo ==> o == c || !Fresh(State(), o, now)
        decreases |todo|
      {
        var ip :| ip in todo;
        todo := todo - {ip};
        if ip != c && Fresh(State(), ip, now) {
          return true;
        }
      }
      return false;
    }

    method ReplacedByNewMac(c: Ipv4, now: int) returns (found: bool)
      requires ce == Some(c)
      ensures found == Replaced(State(), c, now)
    {
      var cpe := PrimaryMac(State());
      if cpe.None? || (c in hosts && now - hosts[c].at < CE_REPLACE_AFTER) {
        return false;
      }
      var todo := hosts.Keys;
      while todo != {}
        invariant todo <= hosts.Keys
        invariant forall o :: o in hosts.Keys - todo ==> o == c || !Fresh(State(), o, now) || hosts[o].mac == cpe.value
        decreases |todo|
      {
        var ip :| ip in todo;
        todo := todo - {ip};
        if ip != c && Fresh(State(), ip, now) && hosts[ip].mac != cpe.value {
          return true;
        }
      }
      return false;
    }

    // ---- Housekeeping ----

    method DemoteDeadCe(now: int) returns (ghost pick: Option<Ipv4>)
      modifies this
      ensures Dead(old(State()), now) ==> Elected(Retire(old(State())), now, pick)
      ensures State() == Demote(old(State()), now, pick)
    {
      pick := None;
      if ce.None? {
        return;
      }
      var c := ce.value;
      var other := OtherFreshHost(c, now);
      var replaced := ReplacedByNewMac(c, now);
      if !((misses >= CE_ARP_MISS_LIMIT && other) || (!Fresh(State(), c, now) && other) || replaced) {
        return;
      }
      hosts, scores := hosts - {c}, scores - {c};
      misses := 0;
      ce := ElectCe(now);
      pick := ce;
      if ce.None? {
        cpeMac := None;
      }
    }

    method KeepOnSegment(now: int) returns (ghost pick: Option<Ipv4>)
      modifies this
      ensures !OnSegment(old(ce), old(gw)) ==> Elected(old(State()), now, pick)
      ensures State() == FixSegment(old(State()), pick)
    {
      pick := None;
      if ce.Some? && gw.Some? {
        if !OnLinkGw(ce, gw.value) || !SameSegment(ce.value, gw.value) {
          var alt := ElectCe(now);
          pick := alt;
          if alt.Some? && OnLinkGw(alt, gw.value) && SameSegment(alt.value, gw.value) {
            ce, misses := alt, 0;
          } else {
            gw, gwStrong, peMac := None, false, None;
          }
        }
      }
    }

    method FillVacantCe(now: int) returns (ghost pick: Option<Ipv4>)
      modifies this`ce
      ensures Vacant(old(State())) ==> Elected(old(State()), now, pick)
      ensures State() == FillVacancy(old(State()), pick)
    {
      pick := None;
      if ce.None? && (scores != map[] || hosts != map[]) {
        ce := ElectCe(now);
        pick := ce;
      }
    }

    method ReplaceUnusableCe(now: int) returns (ghost pick: Option<Ipv4>)
      modifies this`ce
      ensures old(ce).None? || !Usable(old(ce).value) ==> Elected(old(State()), now, pick)
      ensures State() == ReplaceUnusable(old(State()), pick)
    {
      pick := None;
      if ce.None? || !Usable(ce.value) {
        ce := ElectCe(now);
        pick := ce;
      }
    }

    method Housekeep(now: int)
      modifies this
      ensures exists p :: PicksFor(old(State()), now, p) && State() == Settle(old(State()), now, p)
    {
      ghost var demoted := DemoteDeadCe(now);
      ghost var vacant := FillVacantCe(now);
      ghost var unusable := ReplaceUnusableCe(now);
      ghost var segment := KeepOnSegment(now);
      ghost var p := Picks(demoted, vacant, unusable, segment);
      assert PicksFor(old(State()), now, p);
      if ce.Some? && ce.value in hosts {
        cpeMac := Some(hosts[ce.value].mac);
      }
      phase := Recompute(State()).phase;
    }

    method ApplyFrame(role: Role, frame: seq<Byte>, now: int)
      modifies this
      ensures FrameStep(old(State()), role, frame, now, State())
    {
      if Ignored(frame) {
        return;
      }
      var srcMac, payload := MacAt(frame, 6), frame[ETH_LEN..];
      if Be16(frame, 12) == ETHER_ARP {
        ApplyArp(role, srcMac, payload, now);
      } else if Be16(frame, 12) == ETHER_IPV4 {
        ApplyIpv4(role, srcMac, payload, now);
      }
      assert State() == Absorb(old(State()), role, frame, now);
      Housekeep(now);
    }
  }

  /** The search loop of the DHCP option reader. */
  method FindDhcpOption(opts: seq<Byte>, code: Byte) returns (r: Option<Ipv4>)
    ensures r == DhcpOption(opts, code, 0)
  {
    var i := 0;
    while i < |opts|
      invariant 0 <= i
      invariant DhcpOption(opts, code, i) == DhcpOption(opts, code, 0)
      decreases |opts| - i
    {
      var c := opts[i];
      if c == 255 {
        return None;
      }
      if c == 0 {
        i := i + 1;
        continue;
      }
      if i + 1 >= |opts| {
        return None;
      }
      var n := opts[i + 1];
      if i + 2 + n > |opts| {
        return None;
      }
      if c == code && n >= 4 {
        var ip := Ipv4At(opts, i + 2);
        if ip != 0 {
          return Some(ip);
        }
      }
      i := i + 2 + n;
    }
    return None;
  }
}
