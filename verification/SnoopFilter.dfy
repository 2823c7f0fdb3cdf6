/** The kernel prefilter of the DNS snooper, and the packet parser behind it. */
module SnoopFilter {
  import opened Net

  /** The classic packet-filter instructions the snooper uses, on an accumulator `a` and an index `x`. */
  datatype Instr =
    | LoadAbsolute(off: nat, size: nat)
    | LoadIndirect(off: nat, size: nat)
    | JumpEqual(val: nat, skipTrue: nat, skipFalse: nat)
    | AndNibble
    | ShiftLeft2
    | CopyToX
    | Ret(val: nat)

  function Load(pkt: seq<Byte>, at: nat, size: nat): Option<nat> {
    if size == 1 && at < |pkt| then Some(pkt[at] as int)
    else if size == 2 && at + 2 <= |pkt| then Some(Be16(pkt, at))
    else None
  }

  /** How many octets of the packet the filter passes on; a load out of bounds drops it. */
  function RunFilter(prog: seq<Instr>, pc: nat, a: nat, x: nat, pkt: seq<Byte>): nat
    decreases if pc < |prog| then |prog| - pc else 0
  {
    if pc >= |prog| then 0
    else
      match prog[pc]
      case LoadAbsolute(off, size) =>
        (match Load(pkt, off, size)
         case None => 0
         case Some(v) => RunFilter(prog, pc + 1, v, x, pkt))
      case LoadIndirect(off, size) =>
        (match Load(pkt, x + off, size)
         case None => 0
         case Some(v) => RunFilter(prog, pc + 1, v, x, pkt))
      case JumpEqual(val, t, f) => RunFilter(prog, pc + 1 + (if a == val then t else f), a, x, pkt)
      case AndNibble => RunFilter(prog, pc + 1, a % 16, x, pkt)
      case ShiftLeft2 => RunFilter(prog, pc + 1, a * 4, x, pkt)
      case CopyToX => RunFilter(prog, pc + 1, a, a, pkt)
      case Ret(val) => val
  }

  const UDP53: seq<Instr> := [
    LoadAbsolute(9, 1),
    JumpEqual(17, 0, 9),
    LoadAbsolute(0, 1),
    AndNibble,
    ShiftLeft2,
    CopyToX,
    LoadIndirect(0, 2),
    JumpEqual(53, 2, 0),
    LoadIndirect(2, 2),
    JumpEqual(53, 0, 1),
    Ret(0xffff),
    Ret(0)]

  predicate Accepts(pkt: seq<Byte>) {
    RunFilter(UDP53, 0, 0, 0, pkt) != 0
  }

  function HeaderLength(pkt: seq<Byte>): nat
    requires |pkt| > 0
  {
    pkt[0] % 16 * 4
  }

  /** Source or destination port 53 behind the header, read without leaving the packet. */
  predicate DnsPort(pkt: seq<Byte>)
    requires |pkt| > 0
  {
    var h := HeaderLength(pkt);
    && h + 2 <= |pkt|
    && (Be16(pkt, h) == 53 || (h + 4 <= |pkt| && Be16(pkt, h + 2) == 53))
  }

  lemma PortCheck(a: nat, pkt: seq<Byte>)
    requires |pkt| > 0
    ensures RunFilter(UDP53, 6, a, HeaderLength(pkt), pkt) == if DnsPort(pkt) then 0xffff else 0
  {
    var h := HeaderLength(pkt);
    assert forall b, x :: RunFilter(UDP53, 10, b, x, pkt) == 0xffff && RunFilter(UDP53, 11, b, x, pkt) == 0;
    if h + 2 <= |pkt| {
      var p := Be16(pkt, h);
      assert RunFilter(UDP53, 6, a, h, pkt) == RunFilter(UDP53, 7, p, h, pkt);
      assert RunFilter(UDP53, 7, p, h, pkt) == if p == 53 then 0xffff else RunFilter(UDP53, 8, p, h, pkt);
      if h + 4 <= |pkt| {
        var d := Be16(pkt, h + 2);
        assert RunFilter(UDP53, 8, p, h, pkt) == RunFilter(UDP53, 9, d, h, pkt);
        assert RunFilter(UDP53, 9, d, h, pkt) == if d == 53 then 0xffff else 0;
      }
    }
  }

  /** The filter accepts exactly UDP packets with port 53 on either side. */
  lemma FilterAcceptsIff(pkt: seq<Byte>)
    ensures Accepts(pkt) <==> |pkt| > 9 && pkt[9] == 17 && DnsPort(pkt)
  {
    if |pkt| > 9 {
      var proto: nat, first: nat := pkt[9], pkt[0];
      assert RunFilter(UDP53, 0, 0, 0, pkt) == RunFilter(UDP53, 1, proto, 0, pkt);
      if proto == 17 {
        assert RunFilter(UDP53, 1, proto, 0, pkt) == RunFilter(UDP53, 2, proto, 0, pkt);
        assert RunFilter(UDP53, 2, proto, 0, pkt) == RunFilter(UDP53, 3, first, 0, pkt);
        assert RunFilter(UDP53, 3, first, 0, pkt) == RunFilter(UDP53, 4, first % 16, 0, pkt);
        assert RunFilter(UDP53, 4, first % 16, 0, pkt) == RunFilter(UDP53, 5, first % 16 * 4, 0, pkt);
        var h := HeaderLength(pkt);
        assert RunFilter(UDP53, 5, h, 0, pkt) == RunFilter(UDP53, 6, h, h, pkt);
        PortCheck(h, pkt);
      } else {
        assert RunFilter(UDP53, 1, proto, 0, pkt) == RunFilter(UDP53, 11, proto, 0, pkt);
      }
    }
  }

  // ---- The parser behind the filter ----

  datatype Datagram = Datagram(payload: seq<Byte>, srcPort: nat, dstPort: nat)

  /** The UDP payload of an unfragmented IPv4 packet. A length field that does not fit means the rest. */
  function UdpPayload(pkt: seq<Byte>): Option<Datagram> {
    if |pkt| < 20 || pkt[0] / 16 != 4 then None
    else
      var ihl := HeaderLength(pkt);
      if ihl < 20 || |pkt| < ihl + 8 || Be16(pkt, 6) % 0x2000 != 0 || pkt[9] != 17 then None
      else
        var udp := pkt[ihl..];
        var ulen := Be16(udp, 4);
        Some(Datagram(if 8 <= ulen <= |udp| then udp[8..ulen] else udp[8..], Be16(udp, 0), Be16(udp, 2)))
  }

  /** An IPv4 header of `w` words for UDP, in front of a first fragment. */
  predicate UdpHeader(ip: seq<Byte>, w: nat) {
    && 5 <= w <= 15 && |ip| == 4 * w && ip[0] == 0x40 + w && ip[9] == 17
    && ip[6] % 0x20 == 0 && ip[7] == 0
  }

  /** A datagram written out is read back: its ports, and its payload without whatever follows it. */
  lemma DatagramReads(ip: seq<Byte>, w: nat, s1: Byte, s2: Byte, d1: Byte, d2: Byte, l1: Byte, l2: Byte, c1: Byte,
                      c2: Byte, payload: seq<Byte>, padding: seq<Byte>)
    requires UdpHeader(ip, w) && l1 * 0x100 + l2 == 8 + |payload|
    ensures UdpPayload(ip + [s1, s2, d1, d2, l1, l2, c1, c2] + payload + padding)
            == Some(Datagram(payload, s1 * 0x100 + s2, d1 * 0x100 + d2))
  {
    var udp := [s1, s2, d1, d2, l1, l2, c1, c2] + payload + padding;
    var pkt := ip + [s1, s2, d1, d2, l1, l2, c1, c2] + payload + padding;
    assert pkt == ip + udp && pkt[4 * w..] == udp;
    assert pkt[0] == ip[0] && pkt[6] == ip[6] && pkt[7] == ip[7] && pkt[9] == ip[9];
    assert Be16(udp, 0) == s1 * 0x100 + s2 && Be16(udp, 2) == d1 * 0x100 + d2 && Be16(udp, 4) == 8 + |payload|;
    assert udp[8..8 + |payload|] == payload;
    FirstFragment(pkt[6], pkt[7]);
  }

  lemma FirstFragment(hi: Byte, lo: Byte)
    ensures (hi * 0x100 + lo) % 0x2000 == 0 <==> hi % 0x20 == 0 && lo == 0
  {
    assert hi * 0x100 + lo == hi / 0x20 * 0x2000 + (hi % 0x20 * 0x100 + lo);
  }

  /** Exactly what is no datagram: anything but the first fragment of an IPv4 packet for UDP with both headers. */
  lemma NoDatagramIff(pkt: seq<Byte>)
    ensures UdpPayload(pkt).None? <==>
            || |pkt| < 20 || pkt[0] < 0x45 || 0x50 <= pkt[0] || |pkt| < 4 * (pkt[0] as int - 0x40) + 8
            || pkt[6] % 0x20 != 0 || pkt[7] != 0 || pkt[9] != 17
  {
    if |pkt| >= 20 {
      FirstFragment(pkt[6], pkt[7]);
    }
  }

  /** The prefilter never starves the parser: whatever parses as a datagram from or to port 53 was accepted. */
  lemma FilterKeepsDnsDatagrams(pkt: seq<Byte>)
    requires UdpPayload(pkt).Some?
    requires UdpPayload(pkt).value.srcPort == 53 || UdpPayload(pkt).value.dstPort == 53
    ensures Accepts(pkt)
  {
    FilterAcceptsIff(pkt);
    var ihl := HeaderLength(pkt);
    assert Be16(pkt[ihl..], 0) == Be16(pkt, ihl) && Be16(pkt[ihl..], 2) == Be16(pkt, ihl + 2);
  }
}
