/**
 * The transparent-cable learner as a function of its record: what one Ethernet frame from either
 * port does to the learned customer edge (CE), gateway, provider-edge MAC and host table.
 *
 * Empty strings of the program are `None`; addresses and MACs are numbers; times are nanoseconds.
 * Elections range over Go maps, whose order is arbitrary, so an election is a relation (`Elected`)
 * and a frame is a relation between records (`FrameStep`).
 */
module CableState {
  import opened Net

  const SECOND: int := 1_000_000_000
  const HOST_TTL: int := 30 * 60 * SECOND
  const CE_STALE_AFTER: int := 5 * 60 * SECOND
  const CE_REPLACE_AFTER: int := 2 * SECOND
  const CE_ARP_MISS_LIMIT := 5

  const ETH_LEN := 14
  const ETHER_ARP := 0x0806
  const ETHER_IPV4 := 0x0800
  const ETHER_DOT1Q := 0x8100
  const ETHER_IPV6 := 0x86dd
  const ETHER_PPPOE_DISC := 0x8863
  const ETHER_PPPOE_SESS := 0x8864
  const ARP_REQUEST := 1

  datatype Role = Isp | Cpe

  datatype Phase = Idle | CpeOnly | IspOnly | Dual

  datatype Host = Host(mac: Mac, at: int)

  datatype Learned = Learned(
    phase: Phase,
    cpeMac: Option<Mac>,
    ce: Option<Ipv4>,
    peMac: Option<Mac>,
    gw: Option<Ipv4>,
    customer: bool,
    hosts: map<Ipv4, Host>,
    scores: map<Ipv4, nat>,
    misses: nat,
    gwStrong: bool)

  const EMPTY := Learned(Idle, None, None, None, None, false, map[], map[], 0, false)

  // ---- Addresses ----

  /** A unicast address the box may borrow. */
  predicate Usable(ip: Ipv4) {
    var a, b, c := Octet0(ip), Octet1(ip), Octet2(ip);
    && ip != 0 && a != 127 && !(a == 169 && b == 254) && a < 224
    && !(a == 172 && b == 31 && (c == 252 || c == 253))
    && !(a == 172 && b == 19 && c == 0 && Octet3(ip) <= 3)
  }

  predicate Private(ip: Ipv4) {
    var a, b := Octet0(ip), Octet1(ip);
    a == 10 || (a == 172 && 16 <= b <= 31) || (a == 192 && b == 168)
  }

  predicate SameSegment(a: Ipv4, b: Ipv4) {
    a / 256 == b / 256
  }

  /** A next hop the box may use for the given customer edge. */
  predicate OnLinkGw(ce: Option<Ipv4>, gw: Ipv4) {
    Usable(gw) && ce != Some(gw) && (ce.None? || Private(ce.value) == Private(gw))
  }

  // ---- Host table ----

  /** Sightings are stored with one-second resolution. */
  function Stamp(now: int): int {
    now - now % SECOND
  }

  function Prune(s: Learned, now: int): Learned {
    s.(hosts := map ip | ip in s.hosts && now - s.hosts[ip].at <= HOST_TTL :: s.hosts[ip])
  }

  function Remember(s: Learned, ip: Ipv4, mac: Mac, now: int): Learned {
    if !Usable(ip) || s.gw == Some(ip) then s
    else Prune(s.(hosts := s.hosts[ip := Host(mac, Stamp(now))]), now)
  }

  function Score(s: Learned, ip: Ipv4): nat {
    if ip in s.scores then s.scores[ip] else 0
  }

  function Credit(s: Learned, ip: Ipv4, n: nat): Learned {
    s.(scores := s.scores[ip := Score(s, ip) + n])
  }

  function PrimaryMac(s: Learned): Option<Mac> {
    if s.ce.Some? && s.ce.value in s.hosts then Some(s.hosts[s.ce.value].mac) else s.cpeMac
  }

  /** May the same Ethernet host carry the hitch from `oldIp` to `newIp`? */
  predicate SameMacHitch(gw: Option<Ipv4>, oldIp: Ipv4, newIp: Ipv4) {
    if gw.Some? then
      var oldOn, newOn := SameSegment(oldIp, gw.value), SameSegment(newIp, gw.value);
      if oldOn && !newOn then false
      else !(!oldOn && !newOn && !SameSegment(oldIp, newIp))
    else SameSegment(oldIp, newIp)
  }

  function Forget(s: Learned, ip: Ipv4): Learned {
    s.(hosts := s.hosts - {ip}, scores := s.scores - {ip})
  }

  function HotUpdate(s: Learned, ip: Ipv4, mac: Mac): Learned {
    if !Usable(ip) || s.ce.None? || s.ce == Some(ip) then s
    else if PrimaryMac(s) != Some(mac) || !SameMacHitch(s.gw, s.ce.value, ip) then s
    else Forget(s, s.ce.value).(ce := Some(ip), misses := 0)
  }

  function SetGw(s: Learned, gw: Ipv4, strong: bool): Learned {
    if !OnLinkGw(s.ce, gw) then s
    else if !strong && (s.gwStrong || s.gw.Some?) then s
    else if strong && s.gw.Some? && s.gw != Some(gw) && s.ce.Some? && SameSegment(s.ce.value, s.gw.value) then s
    else
      var pe := if s.gw.Some? && s.gw != Some(gw) then None else s.peMac;
      var t := s.(gw := Some(gw), gwStrong := strong, peMac := pe);
      if strong then Forget(t, gw) else t
  }

  // ---- ARP ----

  datatype Arp = Arp(request: bool, spa: Ipv4, tpa: Ipv4)

  function DecodeArp(payload: seq<Byte>): Option<Arp> {
    if |payload| < 28 || Be16(payload, 0) != 1 || Be16(payload, 2) != ETHER_IPV4 then None
    else Some(Arp(Be16(payload, 6) == ARP_REQUEST, Ipv4At(payload, 14), Ipv4At(payload, 24)))
  }

  function SawHost(s: Learned, ip: Ipv4, mac: Mac, points: nat, now: int): Learned {
    HotUpdate(Credit(Remember(s, ip, mac, now), ip, points), ip, mac)
  }

  function AnsweredBy(s: Learned, ip: Ipv4): Learned {
    if s.ce == Some(ip) then s.(misses := 0) else s
  }

  function ArpFromCpe(s: Learned, mac: Mac, arp: Arp, now: int): Learned {
    var s0 := s.(customer := true);
    var points := if arp.request && Usable(arp.tpa) then 6 else 1;
    var s1 := if Usable(arp.spa) && s0.gw != Some(arp.spa) then SawHost(s0, arp.spa, mac, points, now) else s0;
    var s2 := AnsweredBy(s1, arp.spa);
    if arp.request && arp.tpa !in s2.hosts then SetGw(s2, arp.tpa, false) else s2
  }

  function FillPe(s: Learned, mac: Mac): Learned {
    if s.peMac.None? then s.(peMac := Some(mac)) else s
  }

  /** An unanswered who-has for the hitch address counts against it. */
  function CountMiss(s: Learned, arp: Arp): Learned {
    if arp.request && s.ce == Some(arp.tpa) then s.(misses := s.misses + 1) else s
  }

  /** Strong evidence for a gateway; its first ARP also fills the PE MAC. */
  function ConfirmGw(s: Learned, spa: Ipv4, mac: Mac): Learned {
    var t := SetGw(s, spa, true);
    if t.gw == Some(spa) then FillPe(t, mac) else t
  }

  /** Who-has for the hitch address or a known host: only the real next hop asks that. */
  function ArpTarget(s: Learned, mac: Mac, arp: Arp): Learned {
    var s1 := CountMiss(s, arp);
    if arp.request && (s1.ce == Some(arp.tpa) || arp.tpa in s1.hosts) then ConfirmGw(s1, arp.spa, mac) else s1
  }

  function ArpSource(s: Learned, mac: Mac, spa: Ipv4): Learned {
    if s.gw.None? && s.peMac.None? && spa !in s.hosts && OnLinkGw(s.ce, spa) then
      var t := SetGw(s, spa, false);
      if t.gw == Some(spa) then t.(peMac := Some(mac)) else t
    else if s.gw == Some(spa) then FillPe(s, mac)
    else s
  }

  function ArpFromIsp(s: Learned, mac: Mac, arp: Arp): Learned {
    ArpSource(ArpTarget(s, mac, arp), mac, arp.spa)
  }

  // ---- IPv4 and DHCP ----

  /** The first usable address option with the given code, before the end marker. */
  function DhcpOption(opts: seq<Byte>, code: Byte, i: nat): Option<Ipv4>
    decreases |opts| - i
  {
    if i >= |opts| || opts[i] == 255 then None
    else if opts[i] == 0 then DhcpOption(opts, code, i + 1)
    else if i + 1 >= |opts| || i + 2 + opts[i + 1] > |opts| then None
    else if opts[i] == code && opts[i + 1] >= 4 && Ipv4At(opts, i + 2) != 0 then Some(Ipv4At(opts, i + 2))
    else DhcpOption(opts, code, i + 2 + opts[i + 1])
  }

  datatype Lease = Lease(chaddr: Mac, yiaddr: Ipv4, requested: Option<Ipv4>, router: Option<Ipv4>)

  function DecodeDhcp(udp: seq<Byte>, srcMac: Mac): Option<Lease> {
    if |udp| < 8 + 240 then None
    else
      var sport, dport := Be16(udp, 0), Be16(udp, 2);
      if sport != 67 && dport != 67 && sport != 68 && dport != 68 then None
      else
        var bootp := udp[8..];
        var chaddr := if bootp[1] == 1 && bootp[2] >= 6 then MacAt(bootp, 28) else srcMac;
        var opts := bootp[240..];
        Some(Lease(chaddr, Ipv4At(bootp, 16), DhcpOption(opts, 50, 0), DhcpOption(opts, 3, 0)))
  }

  function LearnDhcpHost(s: Learned, ip: Ipv4, chaddr: Mac, now: int): Learned {
    if !Usable(ip) || s.gw == Some(ip) then s
    else HotUpdate(Remember(Credit(s, ip, 8), ip, chaddr, now), ip, chaddr)
  }

  function LearnLease(s: Learned, l: Lease, now: int): Learned {
    var s1 := LearnDhcpHost(s, l.yiaddr, l.chaddr, now);
    var s2 := if l.requested.Some? then LearnDhcpHost(s1, l.requested.value, l.chaddr, now) else s1;
    if l.router.Some? && OnLinkGw(s2.ce, l.router.value) && (s2.gw.None? || !OnLinkGw(s2.ce, s2.gw.value))
    then s2.(gw := l.router)
    else s2
  }

  datatype Packet = Packet(src: Ipv4, udp: Option<seq<Byte>>)

  function DecodeIpv4(payload: seq<Byte>): Option<Packet> {
    if |payload| < 20 then None
    else
      var ihl := payload[0] % 16 * 4;
      if ihl < 20 || |payload| < ihl then None
      else Some(Packet(Ipv4At(payload, 12), if payload[9] == 17 then Some(payload[ihl..]) else None))
  }

  function PacketLease(pkt: Packet, mac: Mac): Option<Lease> {
    if pkt.udp.Some? then DecodeDhcp(pkt.udp.value, mac) else None
  }

  function Ipv4FromCpe(s: Learned, mac: Mac, pkt: Packet, now: int): Learned {
    var s0 := s.(customer := true);
    var s1 := if Usable(pkt.src) && s0.gw != Some(pkt.src) then SawHost(s0, pkt.src, mac, 1, now) else s0;
    var s2 := AnsweredBy(s1, pkt.src);
    var lease := PacketLease(pkt, mac);
    if lease.Some? then LearnLease(s2, lease.value, now) else s2
  }

  // ---- One frame: evidence first, then housekeeping ----

  /** Frames the learner drops without any housekeeping. */
  predicate Ignored(frame: seq<Byte>) {
    || |frame| < ETH_LEN
    || Be16(frame, 12) in {ETHER_DOT1Q, ETHER_IPV6, ETHER_PPPOE_DISC, ETHER_PPPOE_SESS}
  }

  function Absorb(s: Learned, role: Role, frame: seq<Byte>, now: int): Learned
    requires !Ignored(frame)
  {
    var mac, payload := MacAt(frame, 6), frame[ETH_LEN..];
    if Be16(frame, 12) == ETHER_ARP then
      match DecodeArp(payload)
      case None => s
      case Some(arp) => if role.Cpe? then ArpFromCpe(s, mac, arp, now) else ArpFromIsp(s, mac, arp)
    else if Be16(frame, 12) == ETHER_IPV4 && role.Cpe? then
      match DecodeIpv4(payload)
      case None => s
      case Some(pkt) => Ipv4FromCpe(s, mac, pkt, now)
    else s
  }

  // ---- The spare address ----

  /** The spare management address the box may use when no customer is there. */
  datatype Spare = Spare(ip: Option<Ipv4>, gateway: Option<Ipv4>)

  predicate SpareUsable(spare: Spare) {
    spare.ip.Some? && Usable(spare.ip.value)
  }

  /** ARP sent by the spare address's configured gateway: it fills what is still empty. */
  function SpareGatewayArp(s: Learned, spa: Ipv4, mac: Mac): Learned {
    var t := if s.gw.None? then SetGw(s, spa, false) else s;
    if t.peMac.None? && (t.gw == Some(spa) || t.gw.None?) then t.(gw := Some(spa), peMac := Some(mac)) else t
  }

  function SpareArp(s: Learned, role: Role, frame: seq<Byte>, spare: Spare): Learned {
    if role.Cpe? || !SpareUsable(spare) || |frame| < ETH_LEN || Be16(frame, 12) != ETHER_ARP then s
    else
      match DecodeArp(frame[ETH_LEN..])
      case None => s
      case Some(arp) =>
        var mac := MacAt(frame, 6);
        if arp.request && Some(arp.tpa) == spare.ip then
          ConfirmGw(s, arp.spa, mac)
        else if spare.gateway == Some(arp.spa) then SpareGatewayArp(s, arp.spa, mac)
        else s
  }

  // ---- Elections ----

  predicate Fresh(s: Learned, ip: Ipv4, now: int) {
    ip in s.hosts && now - s.hosts[ip].at <= CE_STALE_AFTER
  }

  /** A host on the gateway's segment, seen recently, that is not the gateway. */
  predicate Eligible(s: Learned, ip: Ipv4, now: int) {
    && Fresh(s, ip, now) && s.gw != Some(ip) && Usable(ip)
    && (s.gw.Some? ==> SameSegment(ip, s.gw.value))
  }

  predicate Better(s: Learned, a: Ipv4, b: Ipv4)
    requires a in s.hosts && b in s.hosts
  {
    Score(s, a) > Score(s, b) || (Score(s, a) == Score(s, b) && s.hosts[a].at > s.hosts[b].at)
  }

  ghost predicate BestHost(s: Learned, ip: Ipv4, now: int) {
    Eligible(s, ip, now) && forall o: Ipv4 :: Eligible(s, o, now) ==> !Better(s, o, ip)
  }

  /** A scored address that may stand in when no host was seen recently. */
  predicate Scored(s: Learned, ip: Ipv4) {
    && ip in s.scores && s.scores[ip] > 0 && s.gw != Some(ip) && Usable(ip)
    && (s.gw.Some? ==> SameSegment(ip, s.gw.value))
  }

  ghost predicate TopScored(s: Learned, r: Option<Ipv4>) {
    if r.Some? then Scored(s, r.value) && forall o: Ipv4 :: Scored(s, o) ==> s.scores[o] <= s.scores[r.value]
    else forall o: Ipv4 :: !Scored(s, o)
  }

  ghost predicate Elected(s: Learned, now: int, r: Option<Ipv4>) {
    if exists ip: Ipv4 :: Eligible(s, ip, now) then r.Some? && BestHost(s, r.value, now)
    else TopScored(s, r)
  }

  ghost predicate OtherFresh(s: Learned, ce: Ipv4, now: int) {
    exists ip: Ipv4 :: ip != ce && Fresh(s, ip, now)
  }

  /** Another device now owns the cable: a fresh host with another MAC while the hitch is quiet. */
  ghost predicate Replaced(s: Learned, ce: Ipv4, now: int) {
    && PrimaryMac(s).Some?
    && !(ce in s.hosts && now - s.hosts[ce].at < CE_REPLACE_AFTER)
    && exists ip: Ipv4 :: ip != ce && Fresh(s, ip, now) && s.hosts[ip].mac != PrimaryMac(s).value
  }

  ghost predicate Dead(s: Learned, now: int) {
    s.ce.Some? &&
    var ce := s.ce.value;
    || (s.misses >= CE_ARP_MISS_LIMIT && OtherFresh(s, ce, now))
    || (!Fresh(s, ce, now) && OtherFresh(s, ce, now))
    || Replaced(s, ce, now)
  }

  /** The results of the elections one frame may hold, in order. */
  datatype Picks = Picks(demote: Option<Ipv4>, vacant: Option<Ipv4>, unusable: Option<Ipv4>, segment: Option<Ipv4>)

  function Retire(s: Learned): Learned
    requires s.ce.Some?
  {
    Forget(s, s.ce.value).(misses := 0)
  }

  ghost function Demote(s: Learned, now: int, pick: Option<Ipv4>): Learned {
    if Dead(s, now) then
      Retire(s).(ce := pick, cpeMac := if pick.None? then None else s.cpeMac)
    else s
  }

  predicate Vacant(s: Learned) {
    s.ce.None? && (s.scores != map[] || s.hosts != map[])
  }

  function FillVacancy(s: Learned, pick: Option<Ipv4>): Learned {
    if Vacant(s) then s.(ce := pick) else s
  }

  function ReplaceUnusable(s: Learned, pick: Option<Ipv4>): Learned {
    if s.ce.None? || !Usable(s.ce.value) then s.(ce := pick) else s
  }

  predicate OnSegment(ce: Option<Ipv4>, gw: Option<Ipv4>) {
    ce.Some? && gw.Some? ==> OnLinkGw(ce, gw.value) && SameSegment(ce.value, gw.value)
  }

  function FixSegment(s: Learned, pick: Option<Ipv4>): Learned {
    if OnSegment(s.ce, s.gw) then s
    else if pick.Some? && OnSegment(pick, s.gw) then s.(ce := pick, misses := 0)
    else s.(gw := None, gwStrong := false, peMac := None)
  }

  ghost predicate PicksFor(s: Learned, now: int, p: Picks) {
    var s1 := Demote(s, now, p.demote);
    var s2 := FillVacancy(s1, p.vacant);
    var s3 := ReplaceUnusable(s2, p.unusable);
    && (Dead(s, now) ==> Elected(Retire(s), now, p.demote))
    && (Vacant(s1) ==> Elected(s1, now, p.vacant))
    && (s2.ce.None? || !Usable(s2.ce.value) ==> Elected(s2, now, p.unusable))
    && (!OnSegment(s3.ce, s3.gw) ==> Elected(s3, now, p.segment))
  }

  function SyncPrimaryMac(s: Learned): Learned {
    if s.ce.Some? && s.ce.value in s.hosts then s.(cpeMac := Some(s.hosts[s.ce.value].mac)) else s
  }

  function Recompute(s: Learned): Learned {
    var hasCpe := s.cpeMac.Some? || s.ce.Some? || s.hosts != map[];
    var hasIsp := s.peMac.Some?;
    s.(phase :=
      if hasCpe && hasIsp then Dual
      else if hasCpe then CpeOnly
      else if hasIsp && !s.customer then IspOnly
      else if hasIsp then CpeOnly
      else Idle)
  }

  ghost function Settle(s: Learned, now: int, p: Picks): Learned {
    Recompute(SyncPrimaryMac(
      FixSegment(ReplaceUnusable(FillVacancy(Demote(s, now, p.demote), p.vacant), p.unusable), p.segment)))
  }

  /** One call of ApplyFrame, for some outcome of its elections. */
  ghost predicate FrameStep(s: Learned, role: Role, frame: seq<Byte>, now: int, t: Learned) {
    if Ignored(frame) then t == s
    else
      var m := Absorb(s, role, frame, now);
      exists p :: PicksFor(m, now, p) && t == Settle(m, now, p)
  }
}
