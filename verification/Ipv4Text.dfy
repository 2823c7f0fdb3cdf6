/** Dotted-quad text: what the address parser accepts and what the printer writes. */
module Ipv4Text {
  import opened Net
  import opened Text

  predicate IsDigit(c: char) {
    '0' <= c <= '9'
  }

  function Digit(d: nat): char
    requires d < 10
  {
    ('0' as int + d) as char
  }

  function DigitValue(c: char): nat
    requires IsDigit(c)
  {
    c as int - '0' as int
  }

  function FormatOctet(b: Byte): string {
    if b < 10 then [Digit(b)]
    else if b < 100 then [Digit(b / 10), Digit(b % 10)]
    else [Digit(b / 100), Digit(b / 10 % 10), Digit(b % 10)]
  }

  /** One to three digits, no leading zero, at most 255. */
  function ParseOctet(s: string): Option<Byte> {
    if !(1 <= |s| <= 3) || (exists i :: 0 <= i < |s| && !IsDigit(s[i])) || (|s| > 1 && s[0] == '0') then None
    else
      var v := if |s| == 1 then DigitValue(s[0])
               else if |s| == 2 then DigitValue(s[0]) * 10 + DigitValue(s[1])
               else DigitValue(s[0]) * 100 + DigitValue(s[1]) * 10 + DigitValue(s[2]);
      if v < 256 then Some(v) else None
  }

  lemma OctetDigits(b: Byte)
    ensures var s := FormatOctet(b); 1 <= |s| <= 3 && (|s| > 1 ==> s[0] != '0')
    ensures forall i :: 0 <= i < |FormatOctet(b)| ==> IsDigit(FormatOctet(b)[i])
  {
  }

  lemma OctetRoundTrip(b: Byte)
    ensures ParseOctet(FormatOctet(b)) == Some(b)
    ensures forall c :: c in FormatOctet(b) ==> IsDigit(c)
  {
    OctetDigits(b);
  }

  function FormatIpv4(ip: Ipv4): string {
    Join([FormatOctet(Octet0(ip)), FormatOctet(Octet1(ip)), FormatOctet(Octet2(ip)), FormatOctet(Octet3(ip))], '.')
  }

  function ParseIpv4(s: string): Option<Ipv4> {
    var p := Split(s, '.');
    if |p| != 4 then None
    else
      var a, b, c, d := ParseOctet(p[0]), ParseOctet(p[1]), ParseOctet(p[2]), ParseOctet(p[3]);
      if a.None? || b.None? || c.None? || d.None? then None
      else Some(FromOctets(a.value, b.value, c.value, d.value))
  }

  lemma OctetsCompose(ip: Ipv4)
    ensures FromOctets(Octet0(ip), Octet1(ip), Octet2(ip), Octet3(ip)) == ip
  {
    assert ip / 0x1_0000 == ip / 0x100 / 256 && ip / 0x100_0000 == ip / 0x1_0000 / 256;
  }

  lemma Ipv4RoundTrip(ip: Ipv4)
    ensures ParseIpv4(FormatIpv4(ip)) == Some(ip)
  {
    hide ParseOctet, FormatOctet, Split, Octet0, Octet1, Octet2, Octet3;
    var a, b, c, d := Octet0(ip), Octet1(ip), Octet2(ip), Octet3(ip);
    OctetRoundTrip(a);
    OctetRoundTrip(b);
    OctetRoundTrip(c);
    OctetRoundTrip(d);
    SplitJoin([FormatOctet(a), FormatOctet(b), FormatOctet(c), FormatOctet(d)], '.');
    OctetsCompose(ip);
  }

  /** The parser the programs use: surrounding white space is ignored, the answer is in canonical form. */
  function CanonIp(raw: string): Option<string> {
    var ip := ParseIpv4(TrimSpace(raw));
    if ip.None? then None else Some(FormatIpv4(ip.value))
  }

  predicate Canonical(ip: string) {
    CanonIp(ip) == Some(ip)
  }

  predicate QuadChar(c: char) {
    IsDigit(c) || c == '.'
  }

  predicate QuadText(s: string) {
    s != "" && forall i :: 0 <= i < |s| ==> QuadChar(s[i])
  }

  lemma {:induction false} JoinChars(parts: seq<string>)
    requires forall p, c :: p in parts && c in p ==> IsDigit(c)
    ensures forall c :: c in Join(parts, '.') ==> QuadChar(c)
  {
    if parts == [] {
    } else {
      assert parts[0] in parts;
      JoinChars(parts[1..]);
    }
  }

  lemma FormatIsQuadText(ip: Ipv4)
    ensures QuadText(FormatIpv4(ip))
  {
    hide FormatOctet, ParseOctet, Octet0, Octet1, Octet2, Octet3;
    var a, b, c, d := Octet0(ip), Octet1(ip), Octet2(ip), Octet3(ip);
    OctetRoundTrip(a);
    OctetRoundTrip(b);
    OctetRoundTrip(c);
    OctetRoundTrip(d);
    var parts := [FormatOctet(a), FormatOctet(b), FormatOctet(c), FormatOctet(d)];
    JoinChars(parts);
    JoinCons(parts[0], '.', parts[1..]);
    var s := FormatIpv4(ip);
    assert forall i :: 0 <= i < |s| ==> s[i] in s;
  }

  /** Whatever the parser returns is canonical. */
  lemma CanonIpIsCanonical(raw: string)
    ensures CanonIp(raw).Some? ==> Canonical(CanonIp(raw).value) && QuadText(CanonIp(raw).value)
  {
    hide ParseIpv4, FormatIpv4;
    var ip := ParseIpv4(TrimSpace(raw));
    if ip.Some? {
      var s := FormatIpv4(ip.value);
      FormatIsQuadText(ip.value);
      Ipv4RoundTrip(ip.value);
      assert !IsSpace(s[0]) && !IsSpace(s[|s| - 1]);
      TrimSpaceFixes(s);
    }
  }
}
