/** The resolver's include files: generated from the entries, and read back line by line. */
module UnboundConf {
  import opened Net
  import opened Text
  import opened Ipv4Text
  import opened UnboundDsl

  // ---- Sorting ----

  function Insert(e: Entry, es: seq<Entry>): (r: seq<Entry>)
    ensures multiset(r) == multiset(es) + multiset{e}
  {
    if es == [] || Less(e.domain, es[0].domain) then
      assert [e] + es == [e] + es;
      [e] + es
    else
      assert es == [es[0]] + es[1..];
      [es[0]] + Insert(e, es[1..])
  }

  function Sorted(es: seq<Entry>): (r: seq<Entry>)
    ensures multiset(r) == multiset(es)
  {
    if es == [] then []
    else
      assert es == es[..|es| - 1] + [es[|es| - 1]];
      Insert(es[|es| - 1], Sorted(es[..|es| - 1]))
  }

  predicate Ordered(es: seq<Entry>) {
    forall i, j :: 0 <= i < j < |es| ==> Less(es[i].domain, es[j].domain)
  }

  /** Sorts a copy. */
  method SortEntries(es: seq<Entry>) returns (out: seq<Entry>)
    ensures out == Sorted(es)
  {
    out := [];
    for i := 0 to |es|
      invariant out == Sorted(es[..i])
    {
      assert es[..i + 1][..i] == es[..i];
      out := InsertEntry(es[i], out);
    }
    assert es[..|es|] == es;
  }

  method InsertEntry(e: Entry, es: seq<Entry>) returns (out: seq<Entry>)
    ensures out == Insert(e, es)
  {
    hide Insert, Less;
    assert es[..0] == [] && es[0..] == es;
    assert [] + Insert(e, es) == Insert(e, es);
    var i := 0;
    while i < |es| && !Less(e.domain, es[i].domain)
      invariant 0 <= i <= |es|
      invariant Insert(e, es) == es[..i] + Insert(e, es[i..])
    {
      InsertSkips(e, es, i);
      i := i + 1;
    }
    InsertStops(e, es, i);
    out := es[..i] + [e] + es[i..];
  }

  lemma InsertSkips(e: Entry, es: seq<Entry>, i: nat)
    requires i < |es| && !Less(e.domain, es[i].domain)
    ensures es[..i] + Insert(e, es[i..]) == es[..i + 1] + Insert(e, es[i + 1..])
  {
    hide Less;
    assert es[i..][0] == es[i] && es[i..][1..] == es[i + 1..];
    assert es[..i] + ([es[i]] + Insert(e, es[i + 1..])) == es[..i + 1] + Insert(e, es[i + 1..]);
  }

  lemma InsertStops(e: Entry, es: seq<Entry>, i: nat)
    requires i <= |es| && (i < |es| ==> Less(e.domain, es[i].domain))
    ensures es[..i] + Insert(e, es[i..]) == es[..i] + [e] + es[i..]
  {
    hide Less;
  }

  lemma SameMembers(es: seq<Entry>, e: Entry)
    ensures e in Sorted(es) <==> e in es
  {
    assert e in Sorted(es) <==> e in multiset(Sorted(es));
  }

  lemma {:induction false} InsertOrders(e: Entry, es: seq<Entry>)
    requires Ordered(es) && !HasDomain(es, e.domain)
    ensures Ordered(Insert(e, es))
  {
    if es == [] {
    } else {
      var d := es[0].domain;
      LessIsStrict(e.domain, d);
      if Less(e.domain, d) {
        forall j | 0 < j < |es|
          ensures Less(e.domain, es[j].domain)
        {
          LessIsTransitive(e.domain, d, es[j].domain);
        }
      } else {
        var r := Insert(e, es[1..]);
        forall k | 0 <= k < |es[1..]|
          ensures es[1..][k].domain != e.domain
        {
          assert es[1..][k] == es[k + 1];
        }
        InsertOrders(e, es[1..]);
        forall j | 0 <= j < |r|
          ensures Less(d, r[j].domain)
        {
          assert r[j] in multiset(r);
          assert r[j] == e || r[j] in es[1..];
        }
      }
    }
  }

  /** Entries with distinct domains come out in strict order. */
  lemma {:induction false} SortedOrders(es: seq<Entry>)
    requires Distinct(es)
    ensures Ordered(Sorted(es))
  {
    if es == [] {
    } else {
      var init, e := es[..|es| - 1], es[|es| - 1];
      SortedOrders(init);
      if HasDomain(Sorted(init), e.domain) {
        var k :| 0 <= k < |Sorted(init)| && Sorted(init)[k].domain == e.domain;
        SameMembers(init, Sorted(init)[k]);
        assert false;
      }
      InsertOrders(e, Sorted(init));
    }
  }

  /** A strictly ordered list is fixed by its members: no iteration order shows in it. */
  lemma {:induction false} OrderIsUnique(a: seq<Entry>, b: seq<Entry>)
    requires Ordered(a) && Ordered(b) && forall e :: e in a <==> e in b
    ensures a == b
    decreases |a|
  {
    if a == [] {
      FirstIsMember(b);
    } else {
      assert a[0] in b && b[0] in a;
      var i :| 0 <= i < |b| && b[i] == a[0];
      var j :| 0 <= j < |a| && a[j] == b[0];
      LessIsStrict(a[0].domain, b[0].domain);
      forall e
        ensures e in a[1..] <==> e in b[1..]
      {
        TailMember(a, e);
        TailMember(b, e);
      }
      OrderIsUnique(a[1..], b[1..]);
    }
  }

  lemma FirstIsMember(a: seq<Entry>)
    ensures a != [] ==> a[0] in a
  {
  }

  lemma TailMember(a: seq<Entry>, e: Entry)
    requires a != [] && Ordered(a)
    ensures e in a[1..] <==> e in a && e != a[0]
  {
    if e in a[1..] {
      var i :| 0 <= i < |a[1..]| && a[1..][i] == e;
      LessIsStrict(a[0].domain, a[i + 1].domain);
    }
    assert a == [a[0]] + a[1..];
  }

  // ---- Generating ----

  const SINKHOLE := "0.0.0.0"

  function ZoneLine(d: string): string {
    "local-zone: " + "\"" + (d + ".") + "\"" + " static"
  }

  function DataLine(d: string, ip: string): string {
    "local-data: " + "\"" + Join([d + ".", "3600", "IN", "A", ip], ' ') + "\""
  }

  function NameLine(d: string): string {
    "name: " + "\"" + d + "\""
  }

  function AddrLine(ip: string): string {
    "forward-addr: " + ip
  }

  const INDENT := "    "

  lemma LastWords(ip: string)
    ensures Join(["3600", "IN", "A", ip], ' ') == "3600 IN A " + ip
  {
    var a, b := ["A", ip], ["IN", "A", ip];
    assert Join([ip], ' ') == ip;
    JoinCons("A", ' ', [ip]);
    assert ["A"] + [ip] == a && Join(a, ' ') == "A " + ip;
    JoinCons("IN", ' ', a);
    assert ["IN"] + a == b && Join(b, ' ') == "IN A " + ip;
    JoinCons("3600", ' ', b);
    assert ["3600"] + b == ["3600", "IN", "A", ip];
  }

  /** An address record of the resolver, word by word. */
  lemma RecordWords(d: string, ip: string)
    ensures Join([d + ".", "3600", "IN", "A", ip], ' ') == d + "." + (" 3600 IN A " + ip)
  {
    hide Join;
    var c := ["3600", "IN", "A", ip];
    LastWords(ip);
    JoinCons(d + ".", ' ', c);
    assert [d + "."] + c == [d + ".", "3600", "IN", "A", ip];
    assert " " + ("3600 IN A " + ip) == " 3600 IN A " + ip;
  }

  function Target(kind: Kind, e: Entry): string {
    if kind.Static? then e.ip else SINKHOLE
  }

  function LocalLines(kind: Kind, es: seq<Entry>): seq<string> {
    if es == [] then []
    else
      [INDENT + ZoneLine(es[0].domain), INDENT + DataLine(es[0].domain, Target(kind, es[0]))]
      + LocalLines(kind, es[1..])
  }

  function AddrLines(ups: seq<string>): seq<string> {
    if ups == [] then [] else [INDENT + AddrLine(ups[0])] + AddrLines(ups[1..])
  }

  function ForwardLines(es: seq<Entry>): seq<string> {
    if es == [] then []
    else ["forward-zone:", INDENT + NameLine(es[0].domain)] + AddrLines(es[0].upstreams) + [""] + ForwardLines(es[1..])
  }

  function ListName(kind: Kind): string {
    match kind
    case Block => "gfc-block.list"
    case Static => "gfc-static.list"
    case Domestic => "gfc-domestic" + "-forward.list"
  }

  function FileComment(kind: Kind): string {
    "# Generated from " + ListName(kind) + (" — do not hand-edit;" + " edit via LuCI DSL")
  }

  function Preamble(kind: Kind): seq<string> {
    if kind.Domestic? then
      [FileComment(kind), "# forward-zone MUST stay" + " outside server:" + " (UNBOUND_ARCHITECTURE)"]
    else [FileComment(kind), "server:"]
  }

  function Body(kind: Kind, es: seq<Entry>): seq<string> {
    if es == [] then (if kind.Domestic? then ["# (empty)"] else ["    # (empty)"])
    else if kind.Domestic? then ForwardLines(es) else LocalLines(kind, es)
  }

  function Conf(kind: Kind, es: seq<Entry>): string {
    Unlines(Preamble(kind) + Body(kind, es))
  }

  // ---- Reading back ----

  function TrimCutLeft(s: string): (r: string)
    ensures |r| <= |s|
  {
    if s != "" && (s[0] == '"' || s[0] == '\'') then TrimCutLeft(s[1..]) else s
  }

  function TrimCutRight(s: string): string {
    if s != "" && (s[|s| - 1] == '"' || s[|s| - 1] == '\'') then TrimCutRight(s[..|s| - 1]) else s
  }

  datatype LocalLine = Zone(domain: string) | Data(domain: string, ip: string) | OtherLocal

  function ReadZone(rest: string): LocalLine {
    var q := IndexOf(rest, '"');
    if q == |rest| then OtherLocal
    else
      var inner := rest[q + 1..];
      var q2 := IndexOf(inner, '"');
      if q2 == |inner| || NormalizeDomain(inner[..q2]).None? then OtherLocal
      else Zone(NormalizeDomain(inner[..q2]).value)
  }

  function ReadData(line: string): LocalLine {
    var q := IndexOf(line, '"');
    if q == |line| then OtherLocal
    else
      var inner := line[q + 1..];
      ReadRecord(Fields(inner[..IndexOf(inner, '"')]))
  }

  function ReadRecord(fields: seq<string>): LocalLine {
    if |fields| < 5 || ToLower(fields[3]) != "a" || NormalizeDomain(fields[0]).None? then OtherLocal
    else Data(NormalizeDomain(fields[0]).value, fields[4])
  }

  function ReadLocal(raw: string): LocalLine {
    var line := TrimSpace(raw);
    if line == "" || line[0] == '#' then OtherLocal
    else if HasPrefix(line, "local-zone:") then ReadZone(TrimSpace(line[11..]))
    else if HasPrefix(line, "local-data:") then ReadData(line)
    else OtherLocal
  }

  /** The zones in order of first appearance, and the address last seen for each name. */
  datatype LocalScan = LocalScan(zones: seq<string>, data: map<string, string>)

  function AddZone(zones: seq<string>, d: string): seq<string> {
    if d in zones then zones else zones + [d]
  }

  function ScanLine(raw: string, s: LocalScan): LocalScan {
    match ReadLocal(raw)
    case Zone(d) => s.(zones := AddZone(s.zones, d))
    case Data(d, ip) => s.(data := s.data[d := ip])
    case OtherLocal => s
  }

  function ScanLocal(lines: seq<string>, s: LocalScan): LocalScan
    decreases |lines|
  {
    if lines == [] then s else ScanLocal(lines[1..], ScanLine(lines[0], s))
  }

  /** The entry a zone stands for: a sinkhole is no static record, and only a sinkhole is a block. */
  function ZoneEntry(kind: Kind, d: string, data: map<string, string>): Option<Entry> {
    if kind.Static? then
      if d !in data || data[d] == "" || data[d] == SINKHOLE then None else Some(Entry(d, data[d], []))
    else if d in data && data[d] != SINKHOLE then None
    else Some(Entry(d, "", []))
  }

  function ZoneEntries(kind: Kind, zones: seq<string>, data: map<string, string>): seq<Entry> {
    if zones == [] then []
    else
      var e := ZoneEntry(kind, zones[0], data);
      (if e.Some? then [e.value] else []) + ZoneEntries(kind, zones[1..], data)
  }

  function ExtractLocal(kind: Kind, conf: string): seq<Entry> {
    var s := ScanLocal(Split(conf, '\n'), LocalScan([], map[]));
    Sorted(ZoneEntries(kind, s.zones, s.data))
  }

  datatype ForwardLine = Start | NameIs(domain: string) | AddrIs(ip: string) | OtherForward

  /** The address before a port or host suffix. */
  function CutSuffix(s: string): string {
    var a, b := IndexOf(s, '@'), IndexOf(s, '#');
    s[..if a < b then a else b]
  }

  /** A port, a host name for TLS, or both, in either order, are cut off an address. */
  lemma SuffixIsCut(address: string, suffix: string)
    requires forall i :: 0 <= i < |address| ==> address[i] != '@' && address[i] != '#'
    requires suffix == "" || suffix[0] == '@' || suffix[0] == '#'
    ensures CutSuffix(address + suffix) == address
  {
    var s := address + suffix;
    assert forall i :: 0 <= i < |address| ==> s[i] == address[i];
    assert suffix != "" ==> s[|address|] == suffix[0];
  }

  function ReadForward(raw: string): ForwardLine {
    var line := TrimSpace(raw);
    if line == "" || line[0] == '#' then OtherForward
    else if HasPrefix(line, "forward-zone:") then Start
    else if HasPrefix(line, "name:") then
      var d := NormalizeDomain(TrimCutRight(TrimCutLeft(TrimSpace(line[5..]))));
      if d.Some? then NameIs(d.value) else OtherForward
    else if HasPrefix(line, "forward-addr:") then
      var ip := CanonIp(CutSuffix(TrimSpace(line[13..])));
      if ip.Some? then AddrIs(ip.value) else OtherForward
    else OtherForward
  }

  function Flush(cur: Option<Entry>, out: seq<Entry>): seq<Entry> {
    if cur.Some? && cur.value.domain != "" && cur.value.upstreams != [] then out + [cur.value] else out
  }

  datatype ForwardScan = ForwardScan(cur: Option<Entry>, out: seq<Entry>)

  function ScanForwardLine(raw: string, s: ForwardScan): ForwardScan {
    match ReadForward(raw)
    case Start => ForwardScan(Some(Entry("", "", [])), Flush(s.cur, s.out))
    case NameIs(d) => if s.cur.None? then s else s.(cur := Some(s.cur.value.(domain := d)))
    case AddrIs(ip) =>
      if s.cur.None? then s
      else s.(cur := Some(s.cur.value.(upstreams := s.cur.value.upstreams + [ip])))
    case OtherForward => s
  }

  function ScanForward(lines: seq<string>, s: ForwardScan): ForwardScan
    decreases |lines|
  {
    if lines == [] then s else ScanForward(lines[1..], ScanForwardLine(lines[0], s))
  }

  function ExtractForward(conf: string): seq<Entry> {
    var s := ScanForward(Split(conf, '\n'), ForwardScan(None, []));
    Sorted(Flush(s.cur, s.out))
  }

  function Extract(kind: Kind, conf: string): seq<Entry> {
    if kind.Domestic? then ExtractForward(conf) else ExtractLocal(kind, conf)
  }
}
