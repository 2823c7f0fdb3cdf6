/** Shared vocabulary: optional values, octets and IPv4 addresses. */
module Net {

  datatype Option<+T> = None | Some(value: T)

  type Byte = x: int | 0 <= x < 256

  /** An IPv4 address in network order, as a number. */
  type Ipv4 = x: int | 0 <= x < 0x1_0000_0000

  /** An Ethernet address as a number. */
  type Mac = x: int | 0 <= x < 0x1_0000_0000_0000

  function FromOctets(a: Byte, b: Byte, c: Byte, d: Byte): Ipv4 {
    ((a * 256 + b) * 256 + c) * 256 + d
  }

  function Octet0(ip: Ipv4): Byte { ip / 0x100_0000 }

  function Octet1(ip: Ipv4): Byte { ip / 0x1_0000 % 256 }

  function Octet2(ip: Ipv4): Byte { ip / 0x100 % 256 }

  function Octet3(ip: Ipv4): Byte { ip % 256 }

  function Be16(b: seq<Byte>, i: nat): (v: nat)
    requires i + 2 <= |b|
    ensures v < 0x1_0000
  {
    (b[i] as int) * 256 + b[i + 1] as int
  }

  function Be32(b: seq<Byte>, i: nat): (v: nat)
    requires i + 4 <= |b|
    ensures v < 0x1_0000_0000
  {
    FromOctets(b[i], b[i + 1], b[i + 2], b[i + 3])
  }

  function Ipv4At(b: seq<Byte>, i: nat): Ipv4
    requires i + 4 <= |b|
  {
    Be32(b, i)
  }

  function MacAt(b: seq<Byte>, i: nat): Mac
    requires i + 6 <= |b|
  {
    Be16(b, i) * 0x1_0000_0000 + Be32(b, i + 2)
  }
}
