/** What is read from a DNS reply whose records are of any type, and the round trip of whole replies. */
module DnsReplies {
  import opened Net
  import opened Text
  import opened DnsMessages

  // ---- Numbers written out ----

  function Octets16(v: nat): seq<Byte>
    requires v < 0x1_0000
  {
    [v / 0x100, v % 0x100]
  }

  function Octets32(v: nat): seq<Byte>
    requires v < 0x1_0000_0000
  {
    [v / 0x100_0000, v / 0x1_0000 % 0x100, v / 0x100 % 0x100, v % 0x100]
  }

  lemma Octets16Read(v: nat, msg: seq<Byte>, at: nat)
    requires v < 0x1_0000 && Stands(msg, at, Octets16(v))
    ensures Be16(msg, at) == v
  {
    var o := msg[at..at + 2];
    assert msg[at] == o[0] && msg[at + 1] == o[1];
  }

  lemma Octets32Read(v: nat, msg: seq<Byte>, at: nat)
    requires v < 0x1_0000_0000 && Stands(msg, at, Octets32(v))
    ensures Be32(msg, at) == v
  {
    var o := msg[at..at + 4];
    assert msg[at] == o[0] && msg[at + 1] == o[1] && msg[at + 2] == o[2] && msg[at + 3] == o[3];
    assert v / 0x1_0000 == v / 0x100 / 0x100 && v / 0x100_0000 == v / 0x1_0000 / 0x100;
  }

  lemma Octets16Back(a: Byte, b: Byte)
    ensures Octets16(a * 256 + b) == [a, b]
  {
  }

  lemma Octets32Back(a: Byte, b: Byte, c: Byte, d: Byte)
    ensures Octets32(FromOctets(a, b, c, d)) == [a, b, c, d]
  {
    var x := a * 256 + b;
    var y := x * 256 + c;
    var v := y * 256 + d;
    assert v / 256 == y && v % 256 == d && y / 256 == x && y % 256 == c && x / 256 == a && x % 256 == b;
    assert v / 0x1_0000 == v / 0x100 / 0x100 && v / 0x100_0000 == v / 0x100 / 0x100 / 0x100;
  }

  // ---- Records of any type ----

  /** The fields of a resource record behind its owner's name. */
  datatype Fields = Fields(typ: nat, cls: nat, ttl: nat, data: seq<Byte>)

  predicate FieldsOk(f: Fields) {
    f.typ < 0x1_0000 && f.cls < 0x1_0000 && f.ttl < 0x1_0000_0000 && |f.data| < 0x1_0000
  }

  function EncodeFields(f: Fields): (e: seq<Byte>)
    requires FieldsOk(f)
    ensures |e| == 10 + |f.data|
  {
    Octets16(f.typ) + (Octets16(f.cls) + (Octets32(f.ttl) + (Octets16(|f.data|) + f.data)))
  }

  lemma FieldsRead(msg: seq<Byte>, at: nat, f: Fields)
    requires FieldsOk(f) && Stands(msg, at, EncodeFields(f))
    ensures Be16(msg, at) == f.typ && Be32(msg, at + 4) == f.ttl && Be16(msg, at + 8) == |f.data|
    ensures Stands(msg, at + 10, f.data)
  {
    hide Octets16, Octets32, Be16, Be32, Stands;
    var a, b, c, d := Octets16(f.typ), Octets16(f.cls), Octets32(f.ttl), Octets16(|f.data|);
    Widths(f);
    StandsParts(msg, at, a, b + (c + (d + f.data)));
    StandsParts(msg, at + 2, b, c + (d + f.data));
    StandsParts(msg, at + 4, c, d + f.data);
    StandsParts(msg, at + 8, d, f.data);
    Octets16Read(f.typ, msg, at);
    Octets32Read(f.ttl, msg, at + 4);
    Octets16Read(|f.data|, msg, at + 8);
  }

  lemma Widths(f: Fields)
    requires FieldsOk(f)
    ensures |Octets16(f.typ)| == |Octets16(f.cls)| == |Octets16(|f.data|)| == 2 && |Octets32(f.ttl)| == 4
  {
  }

  /** An address record: type 1, with four octets of data. */
  predicate IsAddress(f: Fields) {
    f.typ == 1 && |f.data| == 4
  }

  /** The address records among them, in order. */
  function AddressesIn(fs: seq<Fields>): seq<ARecord> {
    if fs == [] then []
    else
      (if IsAddress(fs[0]) then [ARecord(Ipv4At(fs[0].data, 0), fs[0].ttl)] else []) + AddressesIn(fs[1..])
  }

  /** From `off` on stand records with these fields, each behind an owner's name that decodes, up to `end`. */
  predicate RecordsStand(msg: seq<Byte>, off: nat, fs: seq<Fields>, end: nat)
    decreases |fs|
  {
    if fs == [] then off == end
    else
      && NameEnd(msg, off).Some?
      && FieldStands(msg, NameEnd(msg, off).value, fs[0])
      && RecordsStand(msg, NameEnd(msg, off).value + 10 + |fs[0].data|, fs[1..], end)
  }

  predicate FieldStands(msg: seq<Byte>, at: nat, f: Fields) {
    FieldsOk(f) && Stands(msg, at, EncodeFields(f))
  }

  /** Where reading stops: the owner's name does not decode, or the header or the data leave the message. */
  predicate Unreadable(msg: seq<Byte>, off: nat) {
    var e := NameEnd(msg, off);
    e.None? || e.value + 10 > |msg| || e.value + 10 + Be16(msg, e.value + 8) > |msg|
  }

  lemma OneRecord(msg: seq<Byte>, off: nat, f: Fields)
    requires NameEnd(msg, off).Some? && FieldStands(msg, NameEnd(msg, off).value, f)
    ensures !Unreadable(msg, off)
    ensures RecordAt(msg, off) ==
            var next := NameEnd(msg, off).value + 10 + |f.data|;
            if IsAddress(f) then Address(ARecord(Ipv4At(f.data, 0), f.ttl), next) else Other(next)
  {
    hide NameEnd, EncodeFields;
    var e := NameEnd(msg, off).value;
    FieldsRead(msg, e, f);
    if IsAddress(f) {
      SameOctets(msg, e + 10, f.data);
    }
  }

  lemma SameOctets(msg: seq<Byte>, at: nat, data: seq<Byte>)
    requires |data| == 4 && Stands(msg, at, data)
    ensures Ipv4At(msg, at) == Ipv4At(data, 0)
  {
    var o := msg[at..at + 4];
    assert msg[at] == o[0] && msg[at + 1] == o[1] && msg[at + 2] == o[2] && msg[at + 3] == o[3];
  }

  lemma StopsWhereUnreadable(msg: seq<Byte>, off: nat)
    ensures RecordAt(msg, off) == Malformed <==> Unreadable(msg, off)
  {
    hide NameEnd;
  }

  /**
   * Reading `count` records gives the address records among those that stand there, in order: records of another
   * type or length are stepped over, and reading stops only at an unreadable one.
   */
  lemma {:induction false} AnswersExact(msg: seq<Byte>, off: nat, fs: seq<Fields>, end: nat, count: nat)
    requires RecordsStand(msg, off, fs, end)
    requires |fs| == count || (|fs| < count && Unreadable(msg, end))
    ensures Answers(msg, off, count) == AddressesIn(fs)
    decreases |fs|
  {
    hide NameEnd, RecordAt, EncodeFields, Unreadable, IsAddress, Ipv4At, FieldStands;
    if fs == [] {
      if count > 0 {
        StopsWhereUnreadable(msg, off);
      }
    } else {
      OneRecord(msg, off, fs[0]);
      AnswersExact(msg, NameEnd(msg, off).value + 10 + |fs[0].data|, fs[1..], end, count - 1);
    }
  }

  lemma RecordFields(msg: seq<Byte>, at: nat) returns (f: Fields)
    requires at + 10 <= |msg| && at + 10 + Be16(msg, at + 8) <= |msg|
    ensures FieldStands(msg, at, f) && |f.data| == Be16(msg, at + 8)
  {
    var n := Be16(msg, at + 8);
    f := Fields(Be16(msg, at), Be16(msg, at + 2), Be32(msg, at + 4), msg[at + 10..at + 10 + n]);
    Octets16Back(msg[at], msg[at + 1]);
    Octets16Back(msg[at + 2], msg[at + 3]);
    Octets32Back(msg[at + 4], msg[at + 5], msg[at + 6], msg[at + 7]);
    Octets16Back(msg[at + 8], msg[at + 9]);
    hide Octets16, Octets32, Be16, Be32;
    assert EncodeFields(f) == msg[at..at + 10 + n];
  }

  /** Every run of octets is such a sequence of records, complete or up to an unreadable one. */
  lemma {:induction false} AnswersDescribed(msg: seq<Byte>, off: nat, count: nat) returns (fs: seq<Fields>, end: nat)
    ensures RecordsStand(msg, off, fs, end) && (|fs| == count || (|fs| < count && Unreadable(msg, end)))
    decreases count
  {
    hide NameEnd, EncodeFields, Be16, FieldStands;
    if count == 0 || Unreadable(msg, off) {
      fs, end := [], off;
    } else {
      var e := NameEnd(msg, off).value;
      var f := RecordFields(msg, e);
      var rest, last := AnswersDescribed(msg, e + 10 + |f.data|, count - 1);
      fs, end := [f] + rest, last;
      assert fs[1..] == rest;
    }
  }

  // ---- Replies written out ----

  /** The owner's name of a record: a pointer to the first question, or a name of its own. */
  datatype Owner = Question | Written(labels: seq<seq<Byte>>)

  datatype Rr = Rr(owner: Owner, fields: Fields)

  predicate NameOk(labels: seq<seq<Byte>>) {
    LabelsOk(labels) && |EncodeName(labels)| <= 255
  }

  predicate RrOk(r: Rr) {
    FieldsOk(r.fields) && (r.owner.Written? ==> NameOk(r.owner.labels))
  }

  predicate RrsOk(rs: seq<Rr>) {
    forall i :: 0 <= i < |rs| ==> RrOk(rs[i])
  }

  function EncodeOwner(o: Owner): seq<Byte>
    requires o.Written? ==> NameOk(o.labels)
  {
    match o
    case Question => [0xC0, 12]
    case Written(labels) => EncodeName(labels)
  }

  function EncodeRr(r: Rr): seq<Byte>
    requires RrOk(r)
  {
    EncodeOwner(r.owner) + EncodeFields(r.fields)
  }

  function EncodeRrs(rs: seq<Rr>): seq<Byte>
    requires RrsOk(rs)
  {
    if rs == [] then [] else EncodeRr(rs[0]) + EncodeRrs(rs[1..])
  }

  function FieldsOf(rs: seq<Rr>): (fs: seq<Fields>)
    ensures |fs| == |rs|
  {
    if rs == [] then [] else [rs[0].fields] + FieldsOf(rs[1..])
  }

  /** The records in front of the first one that points at the question. */
  function BeforePointer(rs: seq<Rr>): (front: seq<Rr>)
    ensures |front| <= |rs|
  {
    if rs == [] || rs[0].owner.Question? then [] else [rs[0]] + BeforePointer(rs[1..])
  }

  lemma OwnerReads(msg: seq<Byte>, at: nat, o: Owner)
    requires o.Written? ==> NameOk(o.labels)
    requires |msg| > 12 && Stands(msg, at, EncodeOwner(o))
    ensures NameEnd(msg, at) ==
            if o.Question? && DecodeName(msg, 12, MAX_HOPS - 1).None? then None else Some(at + |EncodeOwner(o)|)
  {
    hide DecodeName, EncodeName, LabelsOk;
    match o {
      case Question =>
        var p := msg[at..at + 2];
        assert msg[at] == p[0] && msg[at + 1] == p[1];
        PointerFollows(msg, at, MAX_HOPS);
      case Written(labels) =>
        NameWithinLimitDecodes(msg, at, labels);
    }
  }

  /** Records written out stand in the message: all of them, or those in front of the first pointer at a
      question name that leaves no hop for it. */
  lemma {:induction false} RrsStand(msg: seq<Byte>, at: nat, rs: seq<Rr>) returns (end: nat)
    requires RrsOk(rs) && |msg| > 12 && Stands(msg, at, EncodeRrs(rs))
    ensures DecodeName(msg, 12, MAX_HOPS - 1).Some? ==> RecordsStand(msg, at, FieldsOf(rs), end)
    ensures DecodeName(msg, 12, MAX_HOPS - 1).None? ==>
              && RecordsStand(msg, at, FieldsOf(BeforePointer(rs)), end)
              && (BeforePointer(rs) == rs || Unreadable(msg, end))
    decreases |rs|
  {
    hide DecodeName, NameEnd, EncodeOwner, EncodeFields, NameOk, Stands;
    if rs == [] {
      end := at;
    } else {
      var o, f := EncodeOwner(rs[0].owner), EncodeFields(rs[0].fields);
      StandsParts(msg, at, o + f, EncodeRrs(rs[1..]));
      StandsParts(msg, at, o, f);
      OwnerReads(msg, at, rs[0].owner);
      if rs[0].owner.Question? && DecodeName(msg, 12, MAX_HOPS - 1).None? {
        end := at;
      } else {
        end := RrsStand(msg, at + |o| + |f|, rs[1..]);
        var front := [rs[0]] + BeforePointer(rs[1..]);
        assert FieldsOf(front)[1..] == FieldsOf(front[1..]) && front[1..] == BeforePointer(rs[1..]);
        assert FieldsOf(rs)[1..] == FieldsOf(rs[1..]);
      }
    }
  }

  /** A header: id, flags and the counts of the four sections. */
  function EncodeHeader(id: nat, flags: nat, qd: nat, an: nat, ns: nat, ar: nat): (h: seq<Byte>)
    requires id < 0x1_0000 && flags < 0x1_0000 && qd < 0x1_0000 && an < 0x1_0000 && ns < 0x1_0000 && ar < 0x1_0000
    ensures |h| == 12
  {
    Octets16(id) + Octets16(flags) + Octets16(qd) + Octets16(an) + Octets16(ns) + Octets16(ar)
  }

  lemma HeaderReads(msg: seq<Byte>, id: nat, flags: nat, qd: nat, an: nat, ns: nat, ar: nat)
    requires id < 0x1_0000 && flags < 0x1_0000 && qd < 0x1_0000 && an < 0x1_0000 && ns < 0x1_0000 && ar < 0x1_0000
    requires Stands(msg, 0, EncodeHeader(id, flags, qd, an, ns, ar))
    ensures (msg[2] >= 0x80 <==> flags >= 0x8000) && Be16(msg, 4) == qd
    ensures Be16(msg, 6) == an && Be16(msg, 8) == ns && Be16(msg, 10) == ar
  {
    var h := EncodeHeader(id, flags, qd, an, ns, ar);
    assert forall i :: 0 <= i < 12 ==> msg[i] == msg[0..12][i] == h[i];
  }

  predicate QuestionsOk(qs: seq<seq<seq<Byte>>>) {
    forall i :: 0 <= i < |qs| ==> NameOk(qs[i])
  }

  /** Questions for IPv4 addresses. */
  function EncodeQuestions(qs: seq<seq<seq<Byte>>>): seq<Byte>
    requires QuestionsOk(qs)
  {
    if qs == [] then [] else EncodeName(qs[0]) + [0, 1, 0, 1] + EncodeQuestions(qs[1..])
  }

  lemma {:induction false} QuestionsSkipped(msg: seq<Byte>, at: nat, qs: seq<seq<seq<Byte>>>)
    requires QuestionsOk(qs) && Stands(msg, at, EncodeQuestions(qs))
    ensures SkipQuestions(msg, at, |qs|) == Some(at + |EncodeQuestions(qs)|)
    decreases |qs|
  {
    hide DecodeName, EncodeName, LabelsOk;
    if qs == [] {
    } else {
      var name, rest := EncodeName(qs[0]), EncodeQuestions(qs[1..]);
      assert EncodeQuestions(qs) == name + ([0, 1, 0, 1] + rest);
      StandsParts(msg, at, name, [0, 1, 0, 1] + rest);
      StandsParts(msg, at + |name|, [0, 1, 0, 1], rest);
      NameWithinLimitDecodes(msg, at, qs[0]);
      QuestionsSkipped(msg, at + |name| + 4, qs[1..]);
    }
  }

  /** A whole message: header, questions, and three sections of records. */
  datatype Message = Message(id: nat, flags: nat, questions: seq<seq<seq<Byte>>>,
                             answers: seq<Rr>, authority: seq<Rr>, additional: seq<Rr>)

  predicate MessageOk(m: Message) {
    && m.id < 0x1_0000 && m.flags < 0x1_0000 && 1 <= |m.questions| < 0x1_0000 && QuestionsOk(m.questions)
    && |m.answers| < 0x1_0000 && |m.authority| < 0x1_0000 && |m.additional| < 0x1_0000 && RrsOk(Sections(m))
  }

  function Sections(m: Message): seq<Rr> {
    m.answers + m.authority + m.additional
  }

  function EncodeMessage(m: Message): seq<Byte>
    requires MessageOk(m)
  {
    EncodeHeader(m.id, m.flags, |m.questions|, |m.answers|, |m.authority|, |m.additional|)
    + EncodeQuestions(m.questions) + EncodeRrs(Sections(m))
  }

  function CanonName(labels: seq<seq<Byte>>): string {
    DomainNames.CanonDomain(Join(LowerLabels(labels), '.'))
  }

  /** The records that can be read: all of them, but for a question name of 127 labels, which leaves no hop for
      the pointers at it. */
  function Readable(m: Message): seq<Rr>
    requires m.questions != []
  {
    if |m.questions[0]| <= 126 then Sections(m) else BeforePointer(Sections(m))
  }

  lemma MessageStands(m: Message)
    requires MessageOk(m)
    ensures var msg, q := EncodeMessage(m), EncodeQuestions(m.questions);
            && |msg| >= 12 + |q| && Stands(msg, 12, q) && Stands(msg, 12 + |q|, EncodeRrs(Sections(m)))
            && Stands(msg, 0, EncodeHeader(m.id, m.flags, |m.questions|, |m.answers|, |m.authority|, |m.additional|))
  {
    hide EncodeQuestions, EncodeRrs, EncodeHeader, RrsOk, QuestionsOk;
    var head := EncodeHeader(m.id, m.flags, |m.questions|, |m.answers|, |m.authority|, |m.additional|);
    var q, r := EncodeQuestions(m.questions), EncodeRrs(Sections(m));
    assert EncodeMessage(m) == head + (q + r);
    StandsParts(EncodeMessage(m), 0, head, q + r);
    StandsParts(EncodeMessage(m), 12, q, r);
  }

  lemma FirstQuestion(msg: seq<Byte>, qs: seq<seq<seq<Byte>>>)
    requires qs != [] && QuestionsOk(qs) && Stands(msg, 12, EncodeQuestions(qs))
    ensures QueryName(msg) == CanonName(qs[0]) && |msg| > 12
    ensures DecodeName(msg, 12, MAX_HOPS - 1).Some? <==> |qs[0]| <= 126
  {
    hide DecodeName, EncodeName, LabelsOk, LowerLabels, DomainNames.CanonDomain, Join;
    var name := EncodeName(qs[0]);
    assert EncodeQuestions(qs) == name + ([0, 1, 0, 1] + EncodeQuestions(qs[1..]));
    StandsParts(msg, 12, name, [0, 1, 0, 1] + EncodeQuestions(qs[1..]));
    NameWithinLimitDecodes(msg, 12, qs[0]);
    LabelsWithinLimit(qs[0]);
    if |qs[0]| <= 126 {
      PlainNameDecodes(msg, 12, qs[0], MAX_HOPS - 1);
    } else {
      LongNameFails(msg, 12, qs[0], MAX_HOPS - 1);
    }
  }

  /** The records of a written message are read back. */
  lemma SectionsReadBack(m: Message)
    requires MessageOk(m)
    ensures Answers(EncodeMessage(m), 12 + |EncodeQuestions(m.questions)|, |Sections(m)|)
            == AddressesIn(FieldsOf(Readable(m)))
  {
    hide DecodeName, EncodeMessage, EncodeQuestions, EncodeRrs, RrsOk, QuestionsOk, Stands, EncodeHeader, Unreadable,
      Answers, AddressesIn, RecordsStand;
    var msg, at := EncodeMessage(m), 12 + |EncodeQuestions(m.questions)|;
    MessageStands(m);
    FirstQuestion(msg, m.questions);
    var end := RrsStand(msg, at, Sections(m));
    AnswersExact(msg, at, FieldsOf(Readable(m)), end, |Sections(m)|);
  }

  /**
   * The parser undoes the writing of a whole message with any number of questions and with records of any type in
   * its three sections. A reply gives the name of its first question, and the addresses and the TTL of its address
   * records alone, in the order of the sections; a message that is no reply, has no question name or holds no
   * address is dropped. With a question name of 127 labels, whose pointers cannot be followed, only the records in
   * front of the first such pointer are read.
   */
  lemma ReplyRoundTripIff(m: Message)
    requires MessageOk(m)
    ensures var name, rs := CanonName(m.questions[0]), AddressesIn(FieldsOf(Readable(m)));
            ParseReply(EncodeMessage(m)) ==
            if m.flags < 0x8000 || name == "" || rs == [] then None
            else Some(Reply(name, DistinctIps([], rs), FoldTtl(0, rs)))
  {
    hide EncodeMessage, EncodeQuestions, EncodeRrs, QuestionsOk, RrsOk, SkipQuestions, Answers, QueryName, Stands,
      DistinctIps, FoldTtl, Be16, CanonName, AddressesIn, FieldsOf, Readable, EncodeHeader;
    var msg := EncodeMessage(m);
    MessageStands(m);
    HeaderReads(msg, m.id, m.flags, |m.questions|, |m.answers|, |m.authority|, |m.additional|);
    QuestionsSkipped(msg, 12, m.questions);
    FirstQuestion(msg, m.questions);
    SectionsReadBack(m);
  }

  // ---- One reply ----

  /** An address record for the address. */
  function AddressRr(owner: Owner, ip: Ipv4, ttl: nat): Rr
    requires ttl < 0x1_0000_0000
  {
    Rr(owner, Fields(1, 1, ttl, Octets32(ip)))
  }

  lemma AddressRrRead(owner: Owner, ip: Ipv4, ttl: nat, rest: seq<Fields>)
    requires ttl < 0x1_0000_0000
    ensures AddressesIn([AddressRr(owner, ip, ttl).fields] + rest) == [ARecord(ip, ttl)] + AddressesIn(rest)
  {
    var fs := [AddressRr(owner, ip, ttl).fields] + rest;
    assert fs[1..] == rest && Stands(fs[0].data, 0, Octets32(ip));
    Octets32Read(ip, fs[0].data, 0);
  }

  /** An alias and its address: the alias is stepped over. */
  lemma AliasIsSteppedOver(alias: Rr, ip: Ipv4, ttl: nat)
    requires alias.fields.typ != 1 && ttl < 0x1_0000_0000
    ensures AddressesIn(FieldsOf([alias, AddressRr(Question, ip, ttl)])) == [ARecord(ip, ttl)]
  {
    var a := AddressRr(Question, ip, ttl);
    assert [alias, a][1..] == [a] && [a][1..] == [];
    assert FieldsOf([alias, a])[1..] == FieldsOf([a]) == [a.fields] + [];
    AddressRrRead(Question, ip, ttl, []);
  }
}
