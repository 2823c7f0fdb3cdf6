/** Reading DNS replies off the wire: names with compression pointers, and the A records behind them. */
module DnsMessages {
  import opened Net
  import opened Text
  import DomainNames

  const MAX_HOPS := 128

  function LowerText(b: seq<Byte>): (s: string)
    ensures |s| == |b|
  {
    ToLower(seq(|b|, i requires 0 <= i < |b| => b[i] as char))
  }

  // ---- Names ----

  datatype Name = Name(labels: seq<string>, next: nat)

  /** The labels read so far followed by those of the rest. */
  function After(labels: seq<string>, rest: Option<Name>): Option<Name> {
    if rest.None? then None else Some(Name(labels + rest.value.labels, rest.value.next))
  }

  function EndingAt(n: Option<Name>, next: nat): Option<Name> {
    if n.None? then None else Some(n.value.(next := next))
  }

  /** Where the pointer at `offset` leads. */
  function Pointer(msg: seq<Byte>, offset: nat): nat
    requires offset + 1 < |msg| && msg[offset] >= 0xC0
  {
    (msg[offset] as nat - 0xC0) * 256 + msg[offset + 1]
  }

  predicate LabelAt(msg: seq<Byte>, offset: nat) {
    offset < |msg| && 0 < msg[offset] < 0x40 && offset + 1 + msg[offset] <= |msg|
  }

  function LabelText(msg: seq<Byte>, offset: nat): string
    requires LabelAt(msg, offset)
  {
    LowerText(msg[offset + 1..offset + 1 + msg[offset]])
  }

  predicate PointerAt(msg: seq<Byte>, offset: nat) {
    offset + 1 < |msg| && msg[offset] >= 0xC0 && Pointer(msg, offset) < |msg|
  }

  /** The labels read from `offset` on with the given number of steps left, and the position after the
      name in the reading that started here. */
  function DecodeName(msg: seq<Byte>, offset: nat, hops: nat): (r: Option<Name>)
    ensures r.Some? ==> offset < r.value.next <= |msg| && |r.value.labels| < hops
    decreases hops
  {
    if hops == 0 || offset >= |msg| then None
    else if msg[offset] == 0 then Some(Name([], offset + 1))
    else if PointerAt(msg, offset) then EndingAt(DecodeName(msg, Pointer(msg, offset), hops - 1), offset + 2)
    else if LabelAt(msg, offset) then
      After([LabelText(msg, offset)], DecodeName(msg, offset + 1 + msg[offset], hops - 1))
    else None
  }

  lemma LabelFollows(msg: seq<Byte>, at: nat, hops: nat)
    requires LabelAt(msg, at) && hops > 0
    ensures DecodeName(msg, at, hops) ==
            After([LabelText(msg, at)], DecodeName(msg, at + 1 + msg[at], hops - 1))
  {
  }

  /** A compression pointer reads the name it points to, one hop later, and ends after its two octets. */
  lemma PointerFollows(msg: seq<Byte>, at: nat, hops: nat)
    requires PointerAt(msg, at) && hops > 0
    ensures DecodeName(msg, at, hops) == EndingAt(DecodeName(msg, Pointer(msg, at), hops - 1), at + 2)
  {
  }

  lemma NameStops(msg: seq<Byte>, at: nat, hops: nat)
    requires !LabelAt(msg, at) && !PointerAt(msg, at)
    ensures DecodeName(msg, at, hops) ==
            if hops > 0 && at < |msg| && msg[at] == 0 then Some(Name([], at + 1)) else None
  {
  }

  lemma AfterJoins(a: seq<string>, b: seq<string>, rest: Option<Name>)
    ensures After(a, After(b, rest)) == After(a + b, rest)
  {
    if rest.Some? {
      assert a + (b + rest.value.labels) == (a + b) + rest.value.labels;
    }
  }

  lemma AfterNothing(rest: Option<Name>)
    ensures After([], rest) == rest
  {
    if rest.Some? {
      assert [] + rest.value.labels == rest.value.labels;
    }
  }

  /** What the decoder loop still has to return. */
  function Pending(labels: seq<string>, jumped: bool, next: nat, rest: Option<Name>): Option<Name> {
    if jumped then EndingAt(After(labels, rest), next) else After(labels, rest)
  }

  /** The decoder loop: one cursor, a list of labels, and a `next` that freezes at the first jump. */
  method DecodeDnsName(msg: seq<Byte>, start: nat) returns (r: Option<Name>)
    ensures r == DecodeName(msg, start, MAX_HOPS)
  {
    var labels: seq<string>, jumped, next: nat, offset: nat := [], false, start, start;
    hide DecodeName, LowerText, LabelText;
    AfterNothing(DecodeName(msg, start, MAX_HOPS));
    for hops := 0 to MAX_HOPS
      invariant DecodeName(msg, start, MAX_HOPS) ==
                Pending(labels, jumped, next, DecodeName(msg, offset, MAX_HOPS - hops))
    {
      ghost var left := MAX_HOPS - hops;
      if offset >= |msg| {
        NameStops(msg, offset, left);
        return None;
      }
      var l: nat := msg[offset];
      if l == 0 {
        NameStops(msg, offset, left);
        offset := offset + 1;
        if !jumped {
          next := offset;
        }
        assert labels + [] == labels;
        return Some(Name(labels, next));
      }
      if l >= 0xC0 {
        if offset + 1 >= |msg| {
          NameStops(msg, offset, left);
          return None;
        }
        var ptr: nat := (l - 0xC0) * 256 + msg[offset + 1];
        if ptr >= |msg| {
          NameStops(msg, offset, left);
          return None;
        }
        PointerFollows(msg, offset, left);
        if !jumped {
          next, jumped := offset + 2, true;
        }
        offset := ptr;
        continue;
      }
      if l >= 0x40 || offset + 1 + l > |msg| {
        NameStops(msg, offset, left);
        return None;
      }
      LabelFollows(msg, offset, left);
      var word := LabelText(msg, offset);
      AfterJoins(labels, [word], DecodeName(msg, offset + 1 + l, left - 1));
      labels := labels + [word];
      offset := offset + 1 + l;
    }
    return None;
  }

  // ---- Encoded names ----

  /** Labels as section 3.1 of RFC 1035 has them: one to 63 octets each. */
  predicate LabelsOk(labels: seq<seq<Byte>>) {
    forall l :: l in labels ==> 1 <= |l| <= 63
  }

  function EncodeName(labels: seq<seq<Byte>>): seq<Byte>
    requires LabelsOk(labels)
  {
    if labels == [] then [0] else [|labels[0]| as Byte] + labels[0] + EncodeName(labels[1..])
  }

  function LowerLabels(labels: seq<seq<Byte>>): seq<string> {
    if labels == [] then [] else [LowerText(labels[0])] + LowerLabels(labels[1..])
  }

  /** `part` stands in `msg` at `at`. */
  predicate Stands(msg: seq<Byte>, at: nat, part: seq<Byte>) {
    at + |part| <= |msg| && msg[at..at + |part|] == part
  }

  lemma StandsParts(msg: seq<Byte>, at: nat, a: seq<Byte>, b: seq<Byte>)
    requires Stands(msg, at, a + b)
    ensures Stands(msg, at, a) && Stands(msg, at + |a|, b)
  {
    assert msg[at..at + |a|] == msg[at..at + |a + b|][..|a|];
    assert msg[at + |a|..at + |a + b|] == msg[at..at + |a + b|][|a|..];
  }

  lemma FirstLabelStands(msg: seq<Byte>, at: nat, labels: seq<seq<Byte>>)
    requires LabelsOk(labels) && labels != [] && Stands(msg, at, EncodeName(labels))
    ensures LabelAt(msg, at) && msg[at] == |labels[0]| && LabelText(msg, at) == LowerText(labels[0])
    ensures LabelsOk(labels[1..]) && Stands(msg, at + 1 + |labels[0]|, EncodeName(labels[1..]))
    ensures |EncodeName(labels)| == 1 + |labels[0]| + |EncodeName(labels[1..])|
  {
    var first := labels[0];
    assert first in labels;
    SizedStands(msg, at, first, EncodeName(labels[1..]));
  }

  lemma SizedStands(msg: seq<Byte>, at: nat, part: seq<Byte>, rest: seq<Byte>)
    requires 1 <= |part| <= 63 && Stands(msg, at, [|part| as Byte] + part + rest)
    ensures LabelAt(msg, at) && msg[at] == |part| && LabelText(msg, at) == LowerText(part)
    ensures Stands(msg, at + 1 + |part|, rest)
  {
    hide LowerText;
    var size := [|part| as Byte];
    assert size + part + rest == size + (part + rest);
    StandsParts(msg, at, size, part + rest);
    StandsParts(msg, at + 1, part, rest);
    assert msg[at] == msg[at..at + 1][0];
  }

  lemma RootDecodes(msg: seq<Byte>, at: nat, hops: nat)
    requires Stands(msg, at, EncodeName([])) && hops > 0
    ensures |EncodeName([])| == 1
    ensures DecodeName(msg, at, hops) == Some(Name(LowerLabels([]), at + 1))
  {
    assert msg[at] == msg[at..at + 1][0];
  }

  lemma NameJoins(labels: seq<seq<Byte>>, at: nat)
    requires labels != [] && LabelsOk(labels[1..])
    ensures After([LowerText(labels[0])], Some(Name(LowerLabels(labels[1..]), at + |EncodeName(labels[1..])|)))
            == Some(Name(LowerLabels(labels), at + |EncodeName(labels[1..])|))
  {
    hide LowerText, EncodeName, LabelsOk;
  }

  /** A plain name within the hop bound decodes to its lower-cased labels, wherever it stands. */
  lemma {:induction false} PlainNameDecodes(msg: seq<Byte>, at: nat, labels: seq<seq<Byte>>, hops: nat)
    requires LabelsOk(labels) && Stands(msg, at, EncodeName(labels)) && |labels| < hops
    ensures DecodeName(msg, at, hops) == Some(Name(LowerLabels(labels), at + |EncodeName(labels)|))
    decreases |labels|
  {
    hide *;
    if labels == [] {
      RootDecodes(msg, at, hops);
    } else {
      FirstLabelStands(msg, at, labels);
      LabelFollows(msg, at, hops);
      PlainNameDecodes(msg, at + 1 + |labels[0]|, labels[1..], hops - 1);
      NameJoins(labels, at + 1 + |labels[0]|);
    }
  }

  /** A name with more labels than the hop bound allows does not decode. */
  lemma {:induction false} LongNameFails(msg: seq<Byte>, at: nat, labels: seq<seq<Byte>>, hops: nat)
    requires LabelsOk(labels) && Stands(msg, at, EncodeName(labels)) && |labels| >= hops
    ensures DecodeName(msg, at, hops).None?
    decreases |labels|
  {
    hide EncodeName, Stands, LabelsOk, LabelAt, LabelText, LowerText;
    if hops == 0 {
    } else {
      FirstLabelStands(msg, at, labels);
      LabelFollows(msg, at, hops);
      LongNameFails(msg, at + 1 + |labels[0]|, labels[1..], hops - 1);
    }
  }

  /** Labels without an end, as a compressed name begins. */
  function EncodeLabels(labels: seq<seq<Byte>>): seq<Byte>
    requires LabelsOk(labels)
  {
    if labels == [] then [] else [|labels[0]| as Byte] + labels[0] + EncodeLabels(labels[1..])
  }

  /** The two octets of a pointer: two set bits and the fourteen bits of the target. */
  function EncodePointer(target: nat): seq<Byte>
    requires target < 0x4000
  {
    [0xC0 + target / 0x100, target % 0x100]
  }

  lemma PointerReads(msg: seq<Byte>, at: nat, target: nat)
    requires target < 0x4000 && target < |msg| && Stands(msg, at, EncodePointer(target))
    ensures PointerAt(msg, at) && Pointer(msg, at) == target && !LabelAt(msg, at)
  {
    var p := msg[at..at + 2];
    assert msg[at] == p[0] && msg[at + 1] == p[1];
  }

  lemma LabelsStand(msg: seq<Byte>, at: nat, labels: seq<seq<Byte>>, rest: seq<Byte>)
    requires LabelsOk(labels) && labels != [] && Stands(msg, at, EncodeLabels(labels) + rest)
    ensures LabelAt(msg, at) && msg[at] == |labels[0]| && LabelText(msg, at) == LowerText(labels[0])
    ensures LabelsOk(labels[1..]) && Stands(msg, at + 1 + |labels[0]|, EncodeLabels(labels[1..]) + rest)
    ensures |EncodeLabels(labels)| == 1 + |labels[0]| + |EncodeLabels(labels[1..])|
  {
    hide LowerText, LabelText, LabelAt, Stands;
    var first, more := labels[0], EncodeLabels(labels[1..]);
    assert first in labels;
    assert EncodeLabels(labels) + rest == [|first| as Byte] + first + (more + rest);
    SizedStands(msg, at, first, more + rest);
  }

  /** What a name reads as whose labels end in a pointer: its labels, then those of the target, and it ends behind
      the pointer. */
  function Compressed(labels: seq<seq<Byte>>, pointed: Option<Name>, next: nat): Option<Name> {
    if pointed.None? then None else Some(Name(LowerLabels(labels) + pointed.value.labels, next))
  }

  lemma CompressedJoins(labels: seq<seq<Byte>>, pointed: Option<Name>, next: nat)
    requires labels != []
    ensures After([LowerText(labels[0])], Compressed(labels[1..], pointed, next)) == Compressed(labels, pointed, next)
  {
    hide LowerText;
    if pointed.Some? {
      var first := [LowerText(labels[0])];
      assert first + (LowerLabels(labels[1..]) + pointed.value.labels)
          == (first + LowerLabels(labels[1..])) + pointed.value.labels;
    }
  }

  lemma JustPointed(pointed: Option<Name>, next: nat)
    ensures EndingAt(pointed, next) == Compressed([], pointed, next)
  {
    if pointed.Some? {
      assert LowerLabels([]) + pointed.value.labels == pointed.value.labels;
    }
  }

  /** A compressed name (section 4.1.4 of RFC 1035) decodes to its own labels followed by those at the target of its
      pointer, wherever in the message that is, and exactly if the target does within the hops left. */
  lemma {:induction false} CompressedNameDecodes(msg: seq<Byte>, at: nat, labels: seq<seq<Byte>>, target: nat,
                                                 hops: nat)
    requires LabelsOk(labels) && |labels| < hops && target < 0x4000 && target < |msg|
    requires Stands(msg, at, EncodeLabels(labels) + EncodePointer(target))
    ensures DecodeName(msg, at, hops) ==
            Compressed(labels, DecodeName(msg, target, hops - |labels| - 1), at + |EncodeLabels(labels)| + 2)
    decreases |labels|
  {
    hide DecodeName, EncodePointer, LowerText, LabelText, LabelAt, Stands, LabelsOk, Compressed;
    var pointed := DecodeName(msg, target, hops - |labels| - 1);
    if labels == [] {
      assert EncodeLabels([]) + EncodePointer(target) == EncodePointer(target);
      PointerReads(msg, at, target);
      PointerFollows(msg, at, hops);
      JustPointed(pointed, at + 2);
    } else {
      LabelsStand(msg, at, labels, EncodePointer(target));
      LabelFollows(msg, at, hops);
      CompressedNameDecodes(msg, at + 1 + |labels[0]|, labels[1..], target, hops - 1);
      CompressedJoins(labels, pointed, at + |EncodeLabels(labels)| + 2);
    }
  }

  /** A name fails where it leaves the message: before its end, with a label or with a pointer; and at a length that
      section 4.1.4 of RFC 1035 reserves. */
  lemma BrokenNameFails(msg: seq<Byte>, at: nat, hops: nat)
    requires || |msg| <= at || 0x40 <= msg[at] < 0xC0
             || (msg[at] < 0x40 && msg[at] != 0 && |msg| - at <= msg[at])
             || (msg[at] >= 0xC0 && (|msg| - at < 2 || |msg| <= (msg[at] as int - 0xC0) * 0x100 + msg[at + 1]))
    ensures DecodeName(msg, at, hops).None?
  {
    NameStops(msg, at, hops);
  }

  /** Names that point at each other never decode: the hop bound ends the walk. */
  lemma {:induction false} PointerCycleFails(msg: seq<Byte>, a: nat, b: nat, hops: nat)
    requires PointerAt(msg, a) && Pointer(msg, a) == b && PointerAt(msg, b) && Pointer(msg, b) == a
    ensures DecodeName(msg, a, hops).None? && DecodeName(msg, b, hops).None?
    decreases hops
  {
    if hops == 0 {
    } else {
      PointerCycleFails(msg, a, b, hops - 1);
    }
  }

  /** Octet limit of section 2.3.4 of RFC 1035: a name within 255 octets has at most 127 labels. */
  lemma {:induction false} LabelsWithinLimit(labels: seq<seq<Byte>>)
    requires LabelsOk(labels)
    ensures |EncodeName(labels)| >= 2 * |labels| + 1
  {
    if labels == [] {
    } else {
      assert labels[0] in labels;
      LabelsWithinLimit(labels[1..]);
    }
  }

  /** Every uncompressed name within the protocol's limit decodes. */
  lemma NameWithinLimitDecodes(msg: seq<Byte>, at: nat, labels: seq<seq<Byte>>)
    requires LabelsOk(labels) && |EncodeName(labels)| <= 255 && Stands(msg, at, EncodeName(labels))
    ensures DecodeName(msg, at, MAX_HOPS) == Some(Name(LowerLabels(labels), at + |EncodeName(labels)|))
  {
    LabelsWithinLimit(labels);
    PlainNameDecodes(msg, at, labels, MAX_HOPS);
  }

  // ---- Records ----

  datatype ARecord = ARecord(ip: Ipv4, ttl: nat)

  function NameEnd(msg: seq<Byte>, off: nat): Option<nat> {
    var n := DecodeName(msg, off, MAX_HOPS);
    if n.None? then None else Some(n.value.next)
  }

  /** Where the question section ends. */
  function SkipQuestions(msg: seq<Byte>, off: nat, count: nat): (r: Option<nat>)
    ensures r.Some? && count > 0 ==> off < r.value <= |msg|
    decreases count
  {
    if count == 0 then Some(off)
    else
      var e := NameEnd(msg, off);
      if e.None? || e.value + 4 > |msg| then None else SkipQuestions(msg, e.value + 4, count - 1)
  }

  /** One resource record: unreadable, an address, or something to step over. */
  datatype Record = Malformed | Other(next: nat) | Address(record: ARecord, next: nat)

  function RecordAt(msg: seq<Byte>, off: nat): Record {
    var e := NameEnd(msg, off);
    if e.None? || e.value + 10 > |msg| then Malformed
    else
      var data := e.value + 10;
      var next := data + Be16(msg, e.value + 8);
      if next > |msg| then Malformed
      else if Be16(msg, e.value) == 1 && next == data + 4 then
        Address(ARecord(Ipv4At(msg, data), Be32(msg, e.value + 4)), next)
      else Other(next)
  }

  /** The A records among the next `count` resource records; reading stops at the first malformed one. */
  function Answers(msg: seq<Byte>, off: nat, count: nat): seq<ARecord>
    decreases count
  {
    if count == 0 then []
    else
      match RecordAt(msg, off)
      case Malformed => []
      case Other(next) => Answers(msg, next, count - 1)
      case Address(r, next) => [r] + Answers(msg, next, count - 1)
  }

  /** The distinct addresses, in order of first appearance. */
  function AddIp(ips: seq<Ipv4>, ip: Ipv4): seq<Ipv4> {
    if ip in ips then ips else ips + [ip]
  }

  function DistinctIps(ips: seq<Ipv4>, records: seq<ARecord>): seq<Ipv4>
    decreases |records|
  {
    if records == [] then ips else DistinctIps(AddIp(ips, records[0].ip), records[1..])
  }

  /** The running minimum of the program, which takes zero for "none yet". */
  function FoldTtl(m: nat, records: seq<ARecord>): nat
    decreases |records|
  {
    if records == [] then m
    else FoldTtl(if m == 0 || records[0].ttl < m then records[0].ttl else m, records[1..])
  }

  datatype Reply = Reply(qname: string, ips: seq<Ipv4>, ttl: nat)

  function QueryName(msg: seq<Byte>): string {
    var n := DecodeName(msg, 12, MAX_HOPS);
    if n.None? then "" else DomainNames.CanonDomain(Join(n.value.labels, '.'))
  }

  function ParseReply(msg: seq<Byte>): Option<Reply> {
    if |msg| < 12 || msg[2] < 0x80 || Be16(msg, 4) < 1 then None
    else
      var off := SkipQuestions(msg, 12, Be16(msg, 4));
      if off.None? || QueryName(msg) == "" then None
      else
        var records := Answers(msg, off.value, Be16(msg, 6) + Be16(msg, 8) + Be16(msg, 10));
        if records == [] then None
        else Some(Reply(QueryName(msg), DistinctIps([], records), FoldTtl(0, records)))
  }

  // ---- The parser loops ----

  method ReadQuestions(msg: seq<Byte>, qd: nat) returns (end: Option<nat>, qname: string)
    requires |msg| >= 12 && qd >= 1
    ensures end == SkipQuestions(msg, 12, qd)
    ensures end.Some? ==> qname == QueryName(msg)
  {
    hide DecodeName, DomainNames.CanonDomain, Join;
    var off: nat := 12;
    qname := "";
    for i := 0 to qd
      invariant SkipQuestions(msg, 12, qd) == SkipQuestions(msg, off, qd - i)
      invariant i == 0 ==> off == 12
      invariant i > 0 ==> qname == QueryName(msg)
    {
      var name := DecodeDnsName(msg, off);
      if name.None? {
        return None, "";
      }
      if i == 0 {
        qname := DomainNames.CanonDomain(Join(name.value.labels, '.'));
      }
      off := name.value.next + 4;
      if off > |msg| {
        return None, "";
      }
    }
    return Some(off), qname;
  }

  method ReadRecord(msg: seq<Byte>, start: nat) returns (r: Record)
    ensures r == RecordAt(msg, start)
  {
    hide DecodeName;
    var name := DecodeDnsName(msg, start);
    if name.None? || name.value.next + 10 > |msg| {
      return Malformed;
    }
    var off := name.value.next;
    var typ, ttl, rdlen := Be16(msg, off), Be32(msg, off + 4), Be16(msg, off + 8);
    off := off + 10;
    if off + rdlen > |msg| {
      return Malformed;
    }
    if typ == 1 && rdlen == 4 {
      return Address(ARecord(Ipv4At(msg, off), ttl), off + rdlen);
    }
    return Other(off + rdlen);
  }

  lemma FoldStep(ips: seq<Ipv4>, m: nat, r: ARecord, rest: seq<ARecord>)
    ensures DistinctIps(ips, [r] + rest) == DistinctIps(AddIp(ips, r.ip), rest)
    ensures FoldTtl(m, [r] + rest) == FoldTtl(if m == 0 || r.ttl < m then r.ttl else m, rest)
  {
    assert ([r] + rest)[1..] == rest;
  }

  method ReadAnswers(msg: seq<Byte>, start: nat, total: nat) returns (ips: seq<Ipv4>, minTtl: nat)
    ensures ips == DistinctIps([], Answers(msg, start, total))
    ensures minTtl == FoldTtl(0, Answers(msg, start, total))
  {
    hide RecordAt;
    ips, minTtl := [], 0;
    var off := start;
    for i := 0 to total
      invariant DistinctIps([], Answers(msg, start, total)) == DistinctIps(ips, Answers(msg, off, total - i))
      invariant FoldTtl(0, Answers(msg, start, total)) == FoldTtl(minTtl, Answers(msg, off, total - i))
    {
      var rec := ReadRecord(msg, off);
      if rec.Malformed? {
        return;
      }
      if rec.Address? {
        FoldStep(ips, minTtl, rec.record, Answers(msg, rec.next, total - i - 1));
        if rec.record.ip !in ips {
          ips := ips + [rec.record.ip];
        }
        if minTtl == 0 || rec.record.ttl < minTtl {
          minTtl := rec.record.ttl;
        }
      }
      off := rec.next;
    }
  }

  method ParseDnsReply(msg: seq<Byte>) returns (r: Option<Reply>)
    ensures r == ParseReply(msg)
  {
    hide DecodeName, SkipQuestions, Answers, DistinctIps, FoldTtl, QueryName;
    if |msg| < 12 || msg[2] < 0x80 {
      return None;
    }
    var qd, an, ns, ar := Be16(msg, 4), Be16(msg, 6), Be16(msg, 8), Be16(msg, 10);
    if qd < 1 {
      return None;
    }
    var end, qname := ReadQuestions(msg, qd);
    if end.None? || qname == "" {
      return None;
    }
    var ips, ttl := ReadAnswers(msg, end.value, an + ns + ar);
    AnyIpIff([], Answers(msg, end.value, an + ns + ar));
    if ips == [] {
      return None;
    }
    return Some(Reply(qname, ips, ttl));
  }

  // ---- What a reply says ----

  predicate Distinct(ips: seq<Ipv4>) {
    forall i, j :: 0 <= i < j < |ips| ==> ips[i] != ips[j]
  }

  /** Some record has the address. */
  predicate HasIp(records: seq<ARecord>, ip: Ipv4) {
    exists r :: r in records && r.ip == ip
  }

  /** The list holds each address of the records once, and nothing else. */
  lemma {:induction false} DistinctIpsExact(ips: seq<Ipv4>, records: seq<ARecord>)
    requires Distinct(ips)
    ensures Distinct(DistinctIps(ips, records)) && ips <= DistinctIps(ips, records)
    ensures forall ip :: ip in DistinctIps(ips, records) <==> ip in ips || HasIp(records, ip)
    decreases |records|
  {
    if records == [] {
    } else {
      var next := AddIp(ips, records[0].ip);
      DistinctIpsExact(next, records[1..]);
      forall ip: Ipv4
        ensures HasIp(records, ip) <==> ip == records[0].ip || HasIp(records[1..], ip)
      {
        FirstOrLater(records, ip);
      }
      hide AddIp;
      InOrAdded(ips, records[0].ip);
    }
  }

  lemma InOrAdded(ips: seq<Ipv4>, ip: Ipv4)
    ensures ips <= AddIp(ips, ip) && forall o :: o in AddIp(ips, ip) <==> o in ips || o == ip
  {
  }

  lemma FirstOrLater(records: seq<ARecord>, ip: Ipv4)
    requires records != []
    ensures HasIp(records, ip) <==> ip == records[0].ip || HasIp(records[1..], ip)
  {
    assert records == [records[0]] + records[1..];
  }

  lemma AnyIpIff(ips: seq<Ipv4>, records: seq<ARecord>)
    requires Distinct(ips)
    ensures DistinctIps(ips, records) == [] <==> ips == [] && records == []
  {
    DistinctIpsExact(ips, records);
    if records != [] {
      assert records[0] in records;
      assert records[0].ip in DistinctIps(ips, records);
    }
  }

  predicate IsMinTtl(t: nat, records: seq<ARecord>) {
    (exists r :: r in records && r.ttl == t) && forall r :: r in records ==> t <= r.ttl
  }

  predicate NoZeroTtl(records: seq<ARecord>) {
    forall r :: r in records ==> r.ttl != 0
  }

  /** The running minimum is zero exactly when the last record's TTL is. */
  lemma {:induction false} FoldZeroIff(m: nat, records: seq<ARecord>)
    requires records != []
    ensures FoldTtl(m, records) == 0 <==> records[|records| - 1].ttl == 0
    decreases |records|
  {
    var next := if m == 0 || records[0].ttl < m then records[0].ttl else m;
    if |records| == 1 {
    } else {
      FoldZeroIff(next, records[1..]);
    }
  }

  lemma {:induction false} FoldWithoutZeros(m: nat, records: seq<ARecord>)
    requires NoZeroTtl(records) && (m != 0 || records != [])
    ensures var t := FoldTtl(m, records);
            && t != 0 && (t == m || exists r :: r in records && r.ttl == t)
            && (m != 0 ==> t <= m) && forall r :: r in records ==> t <= r.ttl
    decreases |records|
  {
    if records == [] {
    } else {
      assert records[0] in records && records == [records[0]] + records[1..];
      FoldWithoutZeros(if m == 0 || records[0].ttl < m then records[0].ttl else m, records[1..]);
    }
  }

  /** The reply TTL is the true minimum exactly when no A record has TTL 0, or the last one does. */
  lemma ReplyTtlIsMinimumIff(records: seq<ARecord>)
    requires records != []
    ensures IsMinTtl(FoldTtl(0, records), records) <==> NoZeroTtl(records) || records[|records| - 1].ttl == 0
  {
    FoldZeroIff(0, records);
    assert records[|records| - 1] in records;
    if NoZeroTtl(records) {
      FoldWithoutZeros(0, records);
    }
  }

  /** One such reply: with TTLs 0 and 300 in this order, the program says 300. */
  lemma ZeroTtlIsForgotten(ip: Ipv4, other: Ipv4)
    ensures var records := [ARecord(ip, 0), ARecord(other, 300)];
            FoldTtl(0, records) == 300 && !IsMinTtl(300, records)
  {
    var records := [ARecord(ip, 0), ARecord(other, 300)];
    var rest := [ARecord(other, 300)];
    assert records[1..] == rest && rest[1..] == [];
    assert FoldTtl(0, records) == FoldTtl(0, rest) == FoldTtl(300, []);
    assert records[0] in records && records[0].ttl == 0;
  }
}
