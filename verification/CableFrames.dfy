/** The learner on the octets of a frame: where a frame names a host, a gateway or a lease, and what it teaches. */
module CableFrames {
  import opened Net
  import opened CableState
  import opened CableTheorems
  import opened CableReasons
  import opened CableProgress

  // ---- Addresses written out ----

  /** An address in network order. */
  function IpOctets(ip: Ipv4): seq<Byte> {
    [ip / 0x100_0000, ip / 0x1_0000 % 0x100, ip / 0x100 % 0x100, ip % 0x100]
  }

  function MacOctets(mac: Mac): seq<Byte> {
    [mac / 0x100_0000_0000, mac / 0x1_0000_0000 % 0x100] + IpOctets(mac % 0x1_0000_0000)
  }

  predicate Holds(b: seq<Byte>, i: nat, x: seq<Byte>) {
    i + |x| <= |b| && b[i..i + |x|] == x
  }

  lemma IpFromOctets(ip: Ipv4)
    ensures var x := IpOctets(ip); FromOctets(x[0], x[1], x[2], x[3]) == ip
  {
    assert ip == ip / 0x100 * 0x100 + ip % 0x100;
    assert ip / 0x1_0000 == ip / 0x100 / 0x100 && ip / 0x100_0000 == ip / 0x100 / 0x100 / 0x100;
  }

  lemma HeldIp(b: seq<Byte>, i: nat, ip: Ipv4)
    requires Holds(b, i, IpOctets(ip))
    ensures Ipv4At(b, i) == ip
  {
    hide IpOctets, FromOctets;
    FourOctets(ip);
    var x := b[i..i + 4];
    assert b[i] == x[0] && b[i + 1] == x[1] && b[i + 2] == x[2] && b[i + 3] == x[3];
    IpFromOctets(ip);
  }

  lemma HeldPair(b: seq<Byte>, i: nat, hi: Byte, lo: Byte)
    requires Holds(b, i, [hi, lo])
    ensures i + 2 <= |b| && b[i] == hi && b[i + 1] == lo && Be16(b, i) == hi * 0x100 + lo
  {
    var x := b[i..i + 2];
    assert b[i] == x[0] && b[i + 1] == x[1];
  }

  /** An address put together from its octets. */
  lemma MacFromParts(mac: Mac)
    ensures mac / 0x100_0000_0000 * 0x100 + mac / 0x1_0000_0000 % 0x100 == mac / 0x1_0000_0000
    ensures mac == mac / 0x1_0000_0000 * 0x1_0000_0000 + mac % 0x1_0000_0000
  {
  }

  lemma HeldMac(b: seq<Byte>, i: nat, mac: Mac)
    requires Holds(b, i, MacOctets(mac))
    ensures MacAt(b, i) == mac
  {
    hide IpOctets, Be16, Be32;
    var hi, lo, low := mac / 0x100_0000_0000, mac / 0x1_0000_0000 % 0x100, mac % 0x1_0000_0000;
    FourOctets(low);
    assert MacOctets(mac) == [hi, lo] + IpOctets(low);
    HeldParts(b, i, [hi, lo], IpOctets(low));
    HeldPair(b, i, hi, lo);
    HeldIp(b, i + 2, low);
    MacFromParts(mac);
  }

  lemma FourOctets(ip: Ipv4)
    ensures |IpOctets(ip)| == 4
  {
  }

  lemma HeldParts(b: seq<Byte>, i: nat, x: seq<Byte>, y: seq<Byte>)
    requires Holds(b, i, x + y)
    ensures Holds(b, i, x) && Holds(b, i + |x|, y)
  {
    assert b[i..i + |x|] == b[i..i + |x + y|][..|x|];
    assert b[i + |x|..i + |x| + |y|] == b[i..i + |x + y|][|x|..];
  }

  /** What a frame holds behind its Ethernet header. */
  lemma HeldInPayload(frame: seq<Byte>, i: nat, x: seq<Byte>)
    requires ETH_LEN <= i && Holds(frame, i, x)
    ensures Holds(frame[ETH_LEN..], i - ETH_LEN, x)
  {
    assert frame[ETH_LEN..][i - ETH_LEN..i - ETH_LEN + |x|] == frame[i..i + |x|];
  }

  /** The addresses a customer may have: none of this network, loopback, link-local, multicast and above, and none
      of the box's own blocks 172.31.252.0/23 and 172.19.0.0/30. */
  lemma UsableIff(ip: Ipv4)
    ensures Usable(ip) <==>
            && ip != 0 && !(0x7F00_0000 <= ip < 0x8000_0000) && !(0xA9FE_0000 <= ip < 0xA9FF_0000)
            && ip < 0xE000_0000 && !(0xAC1F_FC00 <= ip < 0xAC1F_FE00) && !(0xAC13_0000 <= ip < 0xAC13_0004)
  {
    OctetsOf(ip);
  }

  /** Private addresses: 10.0.0.0/8, 172.16.0.0/12 and 192.168.0.0/16. */
  lemma PrivateIff(ip: Ipv4)
    ensures Private(ip) <==>
            || 0x0A00_0000 <= ip < 0x0B00_0000 || 0xAC10_0000 <= ip < 0xAC20_0000 || 0xC0A8_0000 <= ip < 0xC0A9_0000
  {
    OctetsOf(ip);
  }

  lemma OctetsOf(ip: Ipv4)
    ensures ip == Octet0(ip) * 0x100_0000 + Octet1(ip) * 0x1_0000 + Octet2(ip) * 0x100 + Octet3(ip)
  {
    assert ip == ip / 0x100 * 0x100 + ip % 0x100;
    assert ip / 0x1_0000 == ip / 0x100 / 0x100 && ip / 0x100_0000 == ip / 0x100 / 0x100 / 0x100;
  }

  // ---- ARP ----

  /** An ARP frame from `src` over Ethernet and IPv4, with its sender's address from octet 28. */
  predicate ArpSender(frame: seq<Byte>, src: Mac, spa: Ipv4) {
    && Holds(frame, 6, MacOctets(src)) && Holds(frame, 12, [0x08, 0x06]) && 42 <= |frame|
    && Holds(frame, 14, [0x00, 0x01]) && Holds(frame, 16, [0x08, 0x00]) && Holds(frame, 28, IpOctets(spa))
  }

  /** The same with the operation in octets 20 and 21 and the target's address from octet 38. */
  predicate ArpFrame(frame: seq<Byte>, src: Mac, request: bool, spa: Ipv4, tpa: Ipv4) {
    && ArpSender(frame, src, spa)
    && (request <==> Holds(frame, 20, [0x00, 0x01])) && Holds(frame, 38, IpOctets(tpa))
  }

  lemma ArpFrameReads(frame: seq<Byte>, src: Mac, request: bool, spa: Ipv4, tpa: Ipv4)
    requires ArpFrame(frame, src, request, spa, tpa)
    ensures !Ignored(frame) && MacAt(frame, 6) == src && FrameArp(frame) == Some(Arp(request, spa, tpa))
  {
    hide IpOctets, MacOctets, Ipv4At;
    HeldMac(frame, 6, src);
    HeldPair(frame, 12, 0x08, 0x06);
    HeldPair(frame, 14, 0x00, 0x01);
    HeldPair(frame, 16, 0x08, 0x00);
    HeldInPayload(frame, 28, IpOctets(spa));
    HeldInPayload(frame, 38, IpOctets(tpa));
    HeldIp(frame[ETH_LEN..], 14, spa);
    HeldIp(frame[ETH_LEN..], 24, tpa);
    if Be16(frame, 20) == 1 {
      assert frame[20..22] == [0x00, 0x01];
    } else if request {
      HeldPair(frame, 20, 0x00, 0x01);
    }
  }

  /** One ARP request of a cable host for its gateway: the sender's address, the target's and the source MAC
      of the frame are customer, gateway and customer MAC of an empty learner. */
  lemma ArpFrameTeaches(frame: seq<Byte>, src: Mac, spa: Ipv4, tpa: Ipv4, now: int, t: Learned)
    requires ArpFrame(frame, src, true, spa, tpa) && FrameStep(EMPTY, Cpe, frame, now, t)
    requires spa != tpa && Usable(spa) && Usable(tpa) && SameSegment(spa, tpa)
    ensures t.ce == Some(spa) && t.gw == Some(tpa) && t.cpeMac == Some(src)
  {
    hide ArpFrame, FrameStep, FrameArp, MacAt, Ignored, Usable;
    ArpFrameReads(frame, src, true, spa, tpa);
    FirstArpTeachesCustomerAndGateway(frame, now, t);
  }

  /** An ARP frame of the known gateway: its source MAC is the PE MAC. */
  lemma GatewayFrameTeachesPe(s: Learned, frame: seq<Byte>, src: Mac, request: bool, gw: Ipv4, tpa: Ipv4, now: int,
                              t: Learned)
    requires ArpFrame(frame, src, request, gw, tpa) && FrameStep(s, Isp, frame, now, t)
    requires Inv(s) && Solid(s) && s.peMac.None? && s.gw == Some(gw)
    ensures t.peMac == Some(src) && t.gw == Some(gw)
  {
    hide ArpFrame, FrameStep, FrameArp, MacAt, Ignored, Inv, Solid;
    ArpFrameReads(frame, src, request, gw, tpa);
    GatewayArpTeachesPe(s, frame, now, t);
  }

  /** Without a gateway, an ISP-side request for the spare address names it, and its source MAC is the PE MAC. */
  lemma SpareRequestTeaches(s: Learned, frame: seq<Byte>, src: Mac, spa: Ipv4, spare: Spare)
    requires SpareUsable(spare) && ArpFrame(frame, src, true, spa, spare.ip.value)
    requires s.gw.None? && s.peMac.None? && OnLinkGw(s.ce, spa)
    ensures var t := SpareArp(s, Isp, frame, spare);
            t.gw == Some(spa) && t.gwStrong && t.peMac == Some(src) && t.ce == s.ce && spa !in t.hosts
  {
    hide ArpFrame, MacAt, Usable, OnLinkGw;
    ArpFrameReads(frame, src, true, spa, spare.ip.value);
  }

  // ---- IPv4 ----

  /** An IPv4 frame from `src` with a legal header length in octet 14 and the source address from octet 26. */
  predicate Ipv4Frame(frame: seq<Byte>, src: Mac, ip: Ipv4) {
    && Holds(frame, 6, MacOctets(src)) && Holds(frame, 12, [0x08, 0x00]) && 34 <= |frame|
    && 5 <= frame[14] % 16 && UdpStart(frame) <= |frame| && Holds(frame, 26, IpOctets(ip))
  }

  /** Where the IP header ends, counted in words of four octets. */
  function UdpStart(frame: seq<Byte>): nat
    requires 15 <= |frame|
  {
    14 + 4 * (frame[14] % 16)
  }

  /** A UDP datagram long enough for DHCP, with a DHCP port on either side. */
  predicate DhcpFrame(frame: seq<Byte>) {
    && 34 <= |frame| && frame[23] == 17
    && var u := UdpStart(frame);
    && u + 248 <= |frame|
    && (Port(frame, u, 67) || Port(frame, u, 68) || Port(frame, u + 2, 67) || Port(frame, u + 2, 68))
  }

  predicate Port(frame: seq<Byte>, i: nat, port: Byte) {
    Holds(frame, i, [0x00, port])
  }

  lemma PortRead(b: seq<Byte>, i: nat, port: Byte)
    requires i + 2 <= |b|
    ensures Port(b, i, port) <==> Be16(b, i) == port
  {
    if Port(b, i, port) {
      HeldPair(b, i, 0, port);
    } else {
      assert b[i..i + 2] == [b[i], b[i + 1]];
    }
  }

  lemma Ipv4Reads(frame: seq<Byte>, src: Mac, ip: Ipv4)
    requires Ipv4Frame(frame, src, ip)
    ensures !Ignored(frame) && Be16(frame, 12) == ETHER_IPV4 && MacAt(frame, 6) == src
    ensures DecodeIpv4(frame[ETH_LEN..]) ==
            Some(Packet(ip, if frame[23] == 17 then Some(frame[UdpStart(frame)..]) else None))
  {
    hide IpOctets, MacOctets, Ipv4At;
    HeldMac(frame, 6, src);
    HeldPair(frame, 12, 0x08, 0x00);
    HeldInPayload(frame, 26, IpOctets(ip));
    HeldIp(frame[ETH_LEN..], 12, ip);
    assert frame[ETH_LEN..][UdpStart(frame) - ETH_LEN..] == frame[UdpStart(frame)..];
  }

  lemma LeaseNeedsDhcp(frame: seq<Byte>, src: Mac, ip: Ipv4)
    requires Ipv4Frame(frame, src, ip) && 34 <= |frame|
    ensures PacketLease(Packet(ip, if frame[23] == 17 then Some(frame[UdpStart(frame)..]) else None), src).Some?
            <==> DhcpFrame(frame)
  {
    hide Port, Holds;
    var u := UdpStart(frame);
    if frame[23] == 17 && u + 248 <= |frame| {
      var udp := frame[u..];
      assert Be16(udp, 0) == Be16(frame, u) && Be16(udp, 2) == Be16(frame, u + 2);
      PortRead(frame, u, 67);
      PortRead(frame, u, 68);
      PortRead(frame, u + 2, 67);
      PortRead(frame, u + 2, 68);
    }
  }

  // ---- Sightings ----

  /** The frame comes from the host `ip` at `src`, and says nothing of a lease. */
  predicate Sights(frame: seq<Byte>, src: Mac, ip: Ipv4) {
    ArpSender(frame, src, ip) || (Ipv4Frame(frame, src, ip) && !DhcpFrame(frame))
  }

  lemma SightingRecorded(s: Learned, ip: Ipv4, mac: Mac, points: nat, now: int)
    requires Usable(ip) && s.gw != Some(ip)
    ensures var t := AnsweredBy(SawHost(s, ip, mac, points, now), ip);
            && ip in t.hosts && t.hosts[ip] == Host(mac, Stamp(now)) && (t.ce == Some(ip) ==> t.misses == 0)
            && (forall o :: o in t.hosts && o != ip ==> o in s.hosts && t.hosts[o] == s.hosts[o])
  {
    hide Usable, SameMacHitch;
  }

  /** The evidence of a sighting: the host is in the table, and no other address is new there. */
  ghost predicate Seen(s: Learned, m: Learned, ip: Ipv4, mac: Mac, now: int) {
    && ip in m.hosts && m.hosts[ip] == Host(mac, Stamp(now)) && (m.ce == Some(ip) ==> m.misses == 0)
    && (forall o :: o in m.hosts && o != ip ==> o in s.hosts && m.hosts[o] == s.hosts[o])
  }

  lemma SightAbsorbed(s: Learned, frame: seq<Byte>, src: Mac, ip: Ipv4, now: int)
    requires Sights(frame, src, ip) && Usable(ip) && s.gw != Some(ip)
    ensures !Ignored(frame) && Seen(s, Absorb(s, Cpe, frame, now), ip, src, now)
  {
    hide Usable, MacAt, SawHost, OnLinkGw, AnsweredBy, ArpSender, Ipv4Frame, DhcpFrame, UdpStart, Be16;
    if ArpSender(frame, src, ip) {
      var arp := SenderRead(frame, src, ip);
      SightingRecorded(s.(customer := true), ip, src, if arp.request && Usable(arp.tpa) then 6 else 1, now);
    } else {
      Ipv4Reads(frame, src, ip);
      LeaseNeedsDhcp(frame, src, ip);
      SightingRecorded(s.(customer := true), ip, src, 1, now);
    }
  }

  lemma SenderRead(frame: seq<Byte>, src: Mac, spa: Ipv4) returns (arp: Arp)
    requires ArpSender(frame, src, spa)
    ensures !Ignored(frame) && Be16(frame, 12) == ETHER_ARP && MacAt(frame, 6) == src
    ensures DecodeArp(frame[ETH_LEN..]) == Some(arp) && arp.spa == spa
  {
    hide IpOctets, MacOctets, Ipv4At;
    HeldMac(frame, 6, src);
    HeldPair(frame, 12, 0x08, 0x06);
    HeldPair(frame, 14, 0x00, 0x01);
    HeldPair(frame, 16, 0x08, 0x00);
    HeldInPayload(frame, 28, IpOctets(spa));
    HeldIp(frame[ETH_LEN..], 14, spa);
    arp := DecodeArp(frame[ETH_LEN..]).value;
  }

  /** Housekeeping drops a dead customer from the host table, and nothing else. */
  lemma SettledHosts(m: Learned, now: int, p: Picks)
    ensures Dead(m, now) ==> m.ce.Some?
    ensures Settle(m, now, p).hosts == if Dead(m, now) then m.hosts - {m.ce.value} else m.hosts
  {
    hide Usable, OnSegment, Dead, Recompute, SyncPrimaryMac, FixSegment, ReplaceUnusable, FillVacancy;
    var s1 := Demote(m, now, p.demote);
    var s2 := FillVacancy(s1, p.vacant);
    var s3 := ReplaceUnusable(s2, p.unusable);
    ElectionsKeepHosts(s1, p.vacant);
    ElectionsKeepHosts(s2, p.unusable);
    ElectionsKeepHosts(s3, p.segment);
    SummaryKeepsHosts(FixSegment(s3, p.segment));
    if Dead(m, now) {
      DeadIsKnown(m, now);
    }
  }

  lemma DeadIsKnown(m: Learned, now: int)
    requires Dead(m, now)
    ensures m.ce.Some?
  {
  }

  lemma ElectionsKeepHosts(s: Learned, pick: Option<Ipv4>)
    ensures FillVacancy(s, pick).hosts == s.hosts
    ensures ReplaceUnusable(s, pick).hosts == s.hosts
    ensures FixSegment(s, pick).hosts == s.hosts
  {
    hide Usable, OnSegment;
  }

  lemma SummaryKeepsHosts(s: Learned)
    ensures Recompute(SyncPrimaryMac(s)).hosts == s.hosts
  {
  }

  /** A host just seen is not dead. */
  lemma SeenIsAlive(s: Learned, m: Learned, ip: Ipv4, mac: Mac, now: int)
    requires Seen(s, m, ip, mac, now) && m.ce == Some(ip)
    ensures !Dead(m, now)
  {
    assert Fresh(m, ip, now);
  }

  lemma SeenStays(s: Learned, m: Learned, ip: Ipv4, mac: Mac, now: int, p: Picks)
    requires Seen(s, m, ip, mac, now)
    ensures var t := Settle(m, now, p);
            && ip in t.hosts && t.hosts[ip] == Host(mac, Stamp(now))
            && (forall o :: o in t.hosts && o != ip ==> o in s.hosts && t.hosts[o] == s.hosts[o])
  {
    hide Dead, Settle;
    SettledHosts(m, now, p);
    if m.ce == Some(ip) {
      SeenIsAlive(s, m, ip, mac, now);
    }
  }

  /**
   * A frame from the customer's side tells who sent it. Whatever the record, after an ARP frame or an IPv4
   * packet without a lease the host table holds the address it names as its sender, with the source MAC of the
   * frame and the present time, unless that address is unusable or the gateway's; and it holds no other address
   * it did not hold before.
   */
  lemma SightedIsRemembered(s: Learned, frame: seq<Byte>, src: Mac, ip: Ipv4, now: int, t: Learned)
    requires Sights(frame, src, ip) && Usable(ip) && s.gw != Some(ip) && FrameStep(s, Cpe, frame, now, t)
    ensures ip in t.hosts && t.hosts[ip] == Host(src, Stamp(now))
    ensures forall o :: o in t.hosts && o != ip ==> o in s.hosts && t.hosts[o] == s.hosts[o]
  {
    hide Sights, Absorb, Settle, PicksFor, Usable, Ignored;
    SightAbsorbed(s, frame, src, ip, now);
    var m := Absorb(s, Cpe, frame, now);
    var p :| PicksFor(m, now, p) && t == Settle(m, now, p);
    SeenStays(s, m, ip, src, now, p);
  }

  /** One IPv4 packet of a cable host: its source address, in octets 26 to 29, and the source MAC of the frame
      are customer and customer MAC of an empty learner. */
  lemma Ipv4FrameTeaches(frame: seq<Byte>, src: Mac, ip: Ipv4, now: int, t: Learned)
    requires Ipv4Frame(frame, src, ip) && !DhcpFrame(frame) && Usable(ip) && FrameStep(EMPTY, Cpe, frame, now, t)
    ensures t.ce == Some(ip) && t.cpeMac == Some(src) && t.gw.None? && t.hosts == map[ip := Host(src, Stamp(now))]
    ensures t.phase == CpeOnly
  {
    hide Usable, MacAt, Ipv4Frame, DhcpFrame, UdpStart, Be16;
    Ipv4Reads(frame, src, ip);
    LeaseNeedsDhcp(frame, src, ip);
    var m := EMPTY.(customer := true, hosts := map[ip := Host(src, Stamp(now))], scores := map[ip := 1]);
    assert SawHost(EMPTY.(customer := true), ip, src, 1, now) == m;
    assert Absorb(EMPTY, Cpe, frame, now) == m;
    LoneHostIsElected(m, ip, now, t);
  }

  lemma LoneHostIsElected(m: Learned, ip: Ipv4, now: int, t: Learned)
    requires m.ce.None? && m.gw.None? && m.peMac.None? && m.hosts.Keys == {ip} && Eligible(m, ip, now)
    requires exists p :: PicksFor(m, now, p) && t == Settle(m, now, p)
    ensures t.ce == Some(ip) && t.gw == m.gw && t.cpeMac == Some(m.hosts[ip].mac) && t.hosts == m.hosts
    ensures t.phase == CpeOnly
  {
    var p :| PicksFor(m, now, p) && t == Settle(m, now, p);
    assert p.vacant == Some(ip);
    var s2 := FillVacancy(m, p.vacant);
    assert ReplaceUnusable(s2, p.unusable) == s2 && FixSegment(s2, p.segment) == s2;
  }

  // ---- DHCP ----

  datatype DhcpItem = Pad | Opt(code: Byte, data: seq<Byte>)

  predicate ItemOk(x: DhcpItem) {
    x.Opt? ==> x.code != 0 && x.code != 255 && |x.data| < 256
  }

  /** An option on the wire is a code, a length and the data; a pad is a single octet. */
  function WriteItem(x: DhcpItem): seq<Byte>
    requires ItemOk(x)
  {
    match x
    case Pad => [0]
    case Opt(code, data) => var n: Byte := |data|; [code, n] + data
  }

  function WriteItems(items: seq<DhcpItem>): seq<Byte>
    requires forall i :: 0 <= i < |items| ==> ItemOk(items[i])
  {
    if items == [] then [] else WriteItem(items[0]) + WriteItems(items[1..])
  }

  /** The item holds an address under the code. */
  predicate Gives(x: DhcpItem, code: Byte) {
    x.Opt? && x.code == code && |x.data| >= 4 && Ipv4At(x.data, 0) != 0
  }

  /** The address of the first item with the code that holds one other than 0.0.0.0. */
  function FirstAddress(items: seq<DhcpItem>, code: Byte): Option<Ipv4> {
    if items == [] then None
    else if Gives(items[0], code) then Some(Ipv4At(items[0].data, 0))
    else FirstAddress(items[1..], code)
  }

  /** One item: the scan finds its address or goes on behind it. */
  lemma ItemRead(b: seq<Byte>, i: nat, x: DhcpItem, code: Byte)
    requires ItemOk(x) && Holds(b, i, WriteItem(x)) && code != 0 && code != 255
    ensures DhcpOption(b, code, i) ==
            if Gives(x, code) then Some(Ipv4At(x.data, 0)) else DhcpOption(b, code, i + |WriteItem(x)|)
  {
    hide Ipv4At;
    var w := WriteItem(x);
    assert b[i] == b[i..i + |w|][0];
    if x.Opt? {
      assert b[i + 1] == b[i..i + |w|][1];
      assert b[i + 2..i + 2 + |x.data|] == b[i..i + |w|][2..] == x.data;
      if |x.data| >= 4 {
        SameAddress(b, i + 2, x.data);
      }
    }
  }

  /** The option scan reads what was written, up to the end marker, wherever the options begin and whatever
      follows them. */
  lemma {:induction false} ItemsRead(pre: seq<Byte>, items: seq<DhcpItem>, rest: seq<Byte>, code: Byte)
    requires forall i :: 0 <= i < |items| ==> ItemOk(items[i])
    requires code != 0 && code != 255
    ensures DhcpOption(pre + WriteItems(items) + [255] + rest, code, |pre|) == FirstAddress(items, code)
    decreases |items|
  {
    hide Ipv4At, WriteItem;
    var b := pre + WriteItems(items) + [255] + rest;
    if items == [] {
      assert b[|pre|] == 255;
    } else {
      hide DhcpOption;
      var head, tail := WriteItem(items[0]), WriteItems(items[1..]);
      assert b == (pre + head) + tail + [255] + rest;
      assert b[|pre|..|pre| + |head|] == head;
      ItemRead(b, |pre|, items[0], code);
      ItemsRead(pre + head, items[1..], rest, code);
    }
  }

  lemma SameAddress(b: seq<Byte>, i: nat, data: seq<Byte>)
    requires 4 <= |data| && Holds(b, i, data)
    ensures Ipv4At(b, i) == Ipv4At(data, 0)
  {
    var x := b[i..i + |data|];
    assert b[i] == x[0] && b[i + 1] == x[1] && b[i + 2] == x[2] && b[i + 3] == x[3];
  }

  /** The client a DHCP message at `u` is about: its hardware address, or the sender of the frame. */
  predicate Client(frame: seq<Byte>, u: nat, src: Mac, chaddr: Mac)
    requires u + 248 <= |frame|
  {
    if frame[u + 9] == 1 && frame[u + 10] >= 6 then Holds(frame, u + 36, MacOctets(chaddr)) else chaddr == src
  }

  /** A DHCP message: the assigned address sixteen octets into its body, options behind the fixed fields. */
  predicate LeaseFrame(frame: seq<Byte>, src: Mac, ip: Ipv4, chaddr: Mac, yiaddr: Ipv4, items: seq<DhcpItem>) {
    && Ipv4Frame(frame, src, ip) && DhcpFrame(frame)
    && (forall i :: 0 <= i < |items| ==> ItemOk(items[i]))
    && var u := UdpStart(frame);
    && Client(frame, u, src, chaddr) && Holds(frame, u + 24, IpOctets(yiaddr))
    && Holds(frame, u + 248, WriteItems(items) + [255])
  }

  lemma LeaseReads(frame: seq<Byte>, src: Mac, ip: Ipv4, chaddr: Mac, yiaddr: Ipv4, items: seq<DhcpItem>)
    requires LeaseFrame(frame, src, ip, chaddr, yiaddr, items)
    ensures frame[23] == 17 && UdpStart(frame) <= |frame|
    ensures DecodeDhcp(frame[UdpStart(frame)..], src)
            == Some(Lease(chaddr, yiaddr, FirstAddress(items, 50), FirstAddress(items, 3)))
  {
    hide IpOctets, MacOctets, Ipv4At, MacAt, DhcpOption, FirstAddress, WriteItems, Ipv4Frame, DhcpFrame;
    DhcpIsUdp(frame, src, ip);
    var u := UdpStart(frame);
    var udp := frame[u..];
    var bootp, opts := udp[8..], udp[8..][240..];
    assert opts == frame[u + 248..];
    LeaseNeedsDhcp(frame, src, ip);
    assert frame[u + 24..u + 28] == bootp[16..20];
    HeldIp(bootp, 16, yiaddr);
    if bootp[1] == 1 && bootp[2] >= 6 {
      assert frame[u + 36..u + 42] == bootp[28..34];
      HeldMac(bootp, 28, chaddr);
    }
    var written := WriteItems(items) + [255];
    var rest := opts[|written|..];
    assert opts == [] + WriteItems(items) + [255] + rest by {
      assert opts[..|written|] == frame[u + 248..u + 248 + |written|];
    }
    ItemsRead([], items, rest, 50);
    ItemsRead([], items, rest, 3);
  }

  lemma DhcpIsUdp(frame: seq<Byte>, src: Mac, ip: Ipv4)
    requires Ipv4Frame(frame, src, ip) && DhcpFrame(frame)
    ensures 34 <= |frame| && frame[23] == 17 && UdpStart(frame) + 248 <= |frame|
  {
  }

  /** The first item with the code that has an address decides. */
  lemma {:induction false} FirstOffered(items: seq<DhcpItem>, k: nat, code: Byte, ip: Ipv4, more: seq<Byte>)
    requires k < |items| && items[k] == Opt(code, IpOctets(ip) + more) && ip != 0
    requires forall j :: 0 <= j < k ==> !Gives(items[j], code)
    ensures FirstAddress(items, code) == Some(ip)
    decreases k
  {
    hide IpOctets, Ipv4At;
    if k == 0 {
      assert items[0].data[0..|IpOctets(ip)|] == IpOctets(ip);
      HeldIp(items[0].data, 0, ip);
      assert |IpOctets(ip)| == 4 by { FourOctets(ip); }
    } else {
      FirstOffered(items[1..], k - 1, code, ip, more);
    }
  }

  /** The lease is about one address: the assigned one, or in a request the asked-for one. */
  predicate About(l: Lease, leased: Ipv4) {
    || (l.yiaddr == leased && (l.requested.None? || l.requested == Some(leased)))
    || (!Usable(l.yiaddr) && l.requested == Some(leased))
  }

  /** What a lease leaves of a record that knows at most the sender of the packet. */
  lemma LeaseEvidence(s: Learned, l: Lease, leased: Ipv4, router: Ipv4, now: int)
    requires s.ce.None? && s.gw.None? && Usable(leased) && About(l, leased)
    requires l.router == Some(router) && Usable(router)
    requires forall o :: o in s.hosts ==> now - s.hosts[o].at <= HOST_TTL
    ensures var m := LearnLease(s, l, now);
            && m == s.(gw := Some(router), hosts := m.hosts, scores := m.scores)
            && m.hosts == s.hosts[leased := Host(l.chaddr, Stamp(now))]
            && Score(m, leased) >= 8 && forall o :: o != leased ==> Score(m, o) == Score(s, o)
  {
    hide Usable, LearnDhcpHost;
    DhcpHostEvidence(s, l.yiaddr, l.chaddr, now);
    var s1 := LearnDhcpHost(s, l.yiaddr, l.chaddr, now);
    if l.requested.Some? {
      DhcpHostEvidence(s1, l.requested.value, l.chaddr, now);
    }
  }

  lemma DhcpHostEvidence(s: Learned, ip: Ipv4, chaddr: Mac, now: int)
    requires s.ce.None? && s.gw.None?
    requires forall o :: o in s.hosts ==> now - s.hosts[o].at <= HOST_TTL
    ensures var t := LearnDhcpHost(s, ip, chaddr, now);
            if !Usable(ip) then t == s
            else
              && t == s.(hosts := s.hosts[ip := Host(chaddr, Stamp(now))], scores := t.scores)
              && Score(t, ip) == Score(s, ip) + 8 && forall o :: o != ip ==> Score(t, o) == Score(s, o)
  {
    hide Usable;
  }

  /** The record before the lease is read: at most the sender of the packet is known. */
  function SenderKnown(mac: Mac, ip: Ipv4, now: int): Learned {
    var s := EMPTY.(customer := true);
    if Usable(ip) then SawHost(s, ip, mac, 1, now) else s
  }

  lemma SenderEvidence(mac: Mac, ip: Ipv4, now: int)
    ensures var s, t := EMPTY.(customer := true), SenderKnown(mac, ip, now);
            && AnsweredBy(t, ip) == t && t == s.(hosts := t.hosts, scores := t.scores)
            && (forall o :: Score(t, o) <= 1) && (forall o :: o in t.hosts ==> o == ip && t.hosts[o].at == Stamp(now))
  {
    hide Usable;
  }

  /** Among hosts of which one outscores all others, the election finds it. */
  lemma TopHostIsElected(m: Learned, ip: Ipv4, gw: Ipv4, now: int, t: Learned)
    requires m.ce.None? && m.gw == Some(gw) && m.peMac.None? && Usable(gw) && Eligible(m, ip, now)
    requires forall o :: o != ip ==> Score(m, o) < Score(m, ip)
    requires exists p :: PicksFor(m, now, p) && t == Settle(m, now, p)
    ensures t.ce == Some(ip) && t.gw == m.gw && t.cpeMac == Some(m.hosts[ip].mac) && t.hosts == m.hosts
  {
    hide Usable, SameSegment;
    var p :| PicksFor(m, now, p) && t == Settle(m, now, p);
    assert Vacant(m);
    assert p.vacant == Some(ip);
    SegmentDecidesClass(ip, gw);
    var s2 := FillVacancy(m, p.vacant);
    assert ReplaceUnusable(s2, p.unusable) == s2 && FixSegment(s2, p.segment) == s2;
  }

  lemma LeaseAbsorbed(frame: seq<Byte>, src: Mac, ip: Ipv4, chaddr: Mac, yiaddr: Ipv4, items: seq<DhcpItem>, now: int)
    requires LeaseFrame(frame, src, ip, chaddr, yiaddr, items)
    ensures !Ignored(frame)
    ensures var l := Lease(chaddr, yiaddr, FirstAddress(items, 50), FirstAddress(items, 3));
            Absorb(EMPTY, Cpe, frame, now) == LearnLease(SenderKnown(src, ip, now), l, now)
  {
    hide Usable, MacAt, LeaseFrame, DhcpFrame, Ipv4Frame, Be16, FirstAddress, SawHost, LearnLease;
    LeaseIsIpv4(frame, src, ip, chaddr, yiaddr, items);
    Ipv4Reads(frame, src, ip);
    LeaseReads(frame, src, ip, chaddr, yiaddr, items);
    SenderEvidence(src, ip, now);
  }

  /**
   * A DHCP message on the customer's side teaches an empty learner the leased address, the client it is
   * leased to and the router: the address sixteen octets into the message or that of option 50, the hardware
   * address 28 octets in, and the address of option 3.
   */
  lemma LeaseFrameTeaches(frame: seq<Byte>, src: Mac, ip: Ipv4, chaddr: Mac, yiaddr: Ipv4, items: seq<DhcpItem>,
                          leased: Ipv4, router: Ipv4, now: int, t: Learned)
    requires LeaseFrame(frame, src, ip, chaddr, yiaddr, items) && FrameStep(EMPTY, Cpe, frame, now, t)
    requires FirstAddress(items, 3) == Some(router) && Usable(router)
    requires About(Lease(chaddr, yiaddr, FirstAddress(items, 50), Some(router)), leased)
    requires Usable(leased) && leased != router && SameSegment(leased, router)
    ensures t.ce == Some(leased) && t.cpeMac == Some(chaddr) && t.gw == Some(router)
    ensures leased in t.hosts && t.hosts[leased] == Host(chaddr, Stamp(now))
  {
    hide Usable, LeaseFrame, FirstAddress, SenderKnown, LearnLease, SameSegment, About, Absorb, Settle, PicksFor;
    LeaseAbsorbed(frame, src, ip, chaddr, yiaddr, items, now);
    SenderEvidence(src, ip, now);
    var s := SenderKnown(src, ip, now);
    var l := Lease(chaddr, yiaddr, FirstAddress(items, 50), Some(router));
    LeaseEvidence(s, l, leased, router, now);
    TopHostIsElected(LearnLease(s, l, now), leased, router, now, t);
  }

  lemma LeaseIsIpv4(frame: seq<Byte>, src: Mac, ip: Ipv4, chaddr: Mac, yiaddr: Ipv4, items: seq<DhcpItem>)
    requires LeaseFrame(frame, src, ip, chaddr, yiaddr, items)
    ensures Ipv4Frame(frame, src, ip) && DhcpFrame(frame)
  {
  }
}
