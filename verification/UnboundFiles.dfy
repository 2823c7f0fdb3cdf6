/** The loops that write and read the include files. */
module UnboundFiles {
  import opened Net
  import opened Text
  import opened UnboundDsl
  import opened UnboundConf

  // ---- Writing ----

  lemma {:induction false} LocalLinesGrow(kind: Kind, es: seq<Entry>, e: Entry)
    ensures LocalLines(kind, es + [e]) == LocalLines(kind, es) + LocalLines(kind, [e])
  {
    hide ZoneLine, DataLine;
    if es == [] {
      assert [] + [e] == [e];
    } else {
      assert (es + [e])[1..] == es[1..] + [e];
      LocalLinesGrow(kind, es[1..], e);
    }
  }

  lemma {:induction false} ForwardLinesGrow(es: seq<Entry>, e: Entry)
    ensures ForwardLines(es + [e]) == ForwardLines(es) + ForwardLines([e])
  {
    hide NameLine, AddrLines;
    if es == [] {
      assert [] + [e] == [e];
    } else {
      assert (es + [e])[1..] == es[1..] + [e];
      ForwardLinesGrow(es[1..], e);
    }
  }

  lemma {:induction false} AddrLinesGrow(ups: seq<string>, u: string)
    ensures AddrLines(ups + [u]) == AddrLines(ups) + [INDENT + AddrLine(u)]
  {
    hide AddrLine;
    if ups == [] {
      assert [] + [u] == [u] && [u][1..] == [];
    } else {
      assert (ups + [u])[1..] == ups[1..] + [u];
      AddrLinesGrow(ups[1..], u);
    }
  }

  method PrintZone(e: Entry) returns (out: string)
    ensures out == Unlines(ForwardLines([e]))
  {
    hide NameLine, AddrLine;
    ghost var lines := ["forward-zone:", INDENT + NameLine(e.domain)];
    out := "forward-zone:\n" + INDENT + NameLine(e.domain) + "\n";
    TwoLines("forward-zone:", INDENT + NameLine(e.domain));
    assert lines + AddrLines([]) == lines;
    for i := 0 to |e.upstreams|
      invariant out == Unlines(lines + AddrLines(e.upstreams[..i]))
    {
      assert e.upstreams[..i + 1] == e.upstreams[..i] + [e.upstreams[i]];
      AddrLinesGrow(e.upstreams[..i], e.upstreams[i]);
      assert lines + AddrLines(e.upstreams[..i + 1])
          == (lines + AddrLines(e.upstreams[..i])) + [INDENT + AddrLine(e.upstreams[i])];
      UnlinesGrow(lines + AddrLines(e.upstreams[..i]), INDENT + AddrLine(e.upstreams[i]));
      out := out + (INDENT + AddrLine(e.upstreams[i])) + "\n";
    }
    assert e.upstreams[..|e.upstreams|] == e.upstreams;
    UnlinesGrow(lines + AddrLines(e.upstreams), "");
    out := out + "\n";
    assert [e][1..] == [];
    assert ForwardLines([e]) == lines + AddrLines(e.upstreams) + [""];
  }

  lemma TwoLines(a: string, b: string)
    ensures Unlines([a, b]) == a + "\n" + b + "\n"
  {
    assert [a, b][1..] == [b] && [b][1..] == [];
    assert Unlines([b]) == b + "\n";
    assert a + "\n" + (b + "\n") == a + "\n" + b + "\n";
  }

  method GenerateConf(kind: Kind, es: seq<Entry>) returns (out: string)
    ensures out == Conf(kind, es)
  {
    hide Preamble, ForwardLines, LocalLines, Unlines, ZoneLine, DataLine;
    out := Unlines(Preamble(kind));
    if es == [] {
      var mark := if kind.Domestic? then "# (empty)" else "    # (empty)";
      UnlinesGrow(Preamble(kind), mark);
      return out + mark + "\n";
    }
    ghost var body: seq<string> := [];
    assert Preamble(kind) + body == Preamble(kind);
    NoBody(kind);
    for i := 0 to |es|
      invariant body == if kind.Domestic? then ForwardLines(es[..i]) else LocalLines(kind, es[..i])
      invariant out == Unlines(Preamble(kind) + body)
    {
      var part: string;
      ghost var lines := if kind.Domestic? then ForwardLines([es[i]]) else LocalLines(kind, [es[i]]);
      if kind.Domestic? {
        part := PrintZone(es[i]);
        ForwardLinesGrow(es[..i], es[i]);
      } else {
        part := INDENT + ZoneLine(es[i].domain) + "\n" + (INDENT + DataLine(es[i].domain, Target(kind, es[i]))) + "\n";
        OneRecord(kind, es[i]);
        TwoLines(INDENT + ZoneLine(es[i].domain), INDENT + DataLine(es[i].domain, Target(kind, es[i])));
        LocalLinesGrow(kind, es[..i], es[i]);
      }
      assert es[..i + 1] == es[..i] + [es[i]];
      UnlinesJoins(Preamble(kind) + body, lines);
      assert Preamble(kind) + body + lines == Preamble(kind) + (body + lines);
      out := out + part;
      body := body + lines;
    }
    assert es[..|es|] == es;
  }

  lemma NoBody(kind: Kind)
    ensures ForwardLines([]) == [] && LocalLines(kind, []) == []
  {
  }

  lemma OneRecord(kind: Kind, e: Entry)
    ensures LocalLines(kind, [e]) == [INDENT + ZoneLine(e.domain), INDENT + DataLine(e.domain, Target(kind, e))]
  {
    assert [e][1..] == [];
  }

  // ---- Reading ----

  predicate Unrepeated(zones: seq<string>) {
    forall i, j :: 0 <= i < j < |zones| ==> zones[i] != zones[j]
  }

  lemma {:induction false} ZoneEntriesMember(kind: Kind, zones: seq<string>, data: map<string, string>, e: Entry)
    ensures e in ZoneEntries(kind, zones, data) <==> e.domain in zones && ZoneEntry(kind, e.domain, data) == Some(e)
  {
    if zones == [] {
    } else {
      ZoneEntriesMember(kind, zones[1..], data, e);
      assert zones == [zones[0]] + zones[1..];
    }
  }

  lemma {:induction false} ZoneEntriesDistinct(kind: Kind, zones: seq<string>, data: map<string, string>)
    requires Unrepeated(zones)
    ensures Distinct(ZoneEntries(kind, zones, data))
  {
    if zones == [] {
    } else {
      var rest := ZoneEntries(kind, zones[1..], data);
      ZoneEntriesDistinct(kind, zones[1..], data);
      forall j | 0 <= j < |rest|
        ensures rest[j].domain != zones[0]
      {
        ZoneEntriesMember(kind, zones[1..], data, rest[j]);
      }
    }
  }

  /** The map of zones is walked in any order; sorting hides it. */
  method CollectZones(kind: Kind, zones: set<string>, data: map<string, string>) returns (out: seq<Entry>)
    ensures Distinct(out)
    ensures forall e :: e in out <==> e.domain in zones && ZoneEntry(kind, e.domain, data) == Some(e)
  {
    hide ZoneEntry;
    out := [];
    var left := zones;
    while left != {}
      invariant left <= zones && Distinct(out)
      invariant forall e :: e in out <==> e.domain in zones - left && ZoneEntry(kind, e.domain, data) == Some(e)
      decreases left
    {
      var d :| d in left;
      left := left - {d};
      var e := ZoneEntry(kind, d, data);
      ZoneEntryDomain(kind, d, data);
      if e.Some? {
        forall i | 0 <= i < |out|
          ensures out[i].domain != d
        {
          assert out[i] in out;
        }
        out := out + [e.value];
      }
    }
  }

  lemma ZoneEntryDomain(kind: Kind, d: string, data: map<string, string>)
    ensures var e := ZoneEntry(kind, d, data); e.Some? ==> e.value.domain == d
  {
  }

  lemma SameSort(a: seq<Entry>, b: seq<Entry>)
    requires Distinct(a) && Distinct(b) && forall e :: e in a <==> e in b
    ensures Sorted(a) == Sorted(b)
  {
    SortedOrders(a);
    SortedOrders(b);
    forall e
      ensures e in Sorted(a) <==> e in Sorted(b)
    {
      SameMembers(a, e);
      SameMembers(b, e);
    }
    OrderIsUnique(Sorted(a), Sorted(b));
  }

  method ExtractLocalEntries(kind: Kind, conf: string) returns (out: seq<Entry>)
    ensures out == ExtractLocal(kind, conf)
  {
    hide ReadLocal, Sorted;
    var lines := Split(conf, '\n');
    var zones: set<string>, data: map<string, string> := {}, map[];
    ghost var s := LocalScan([], map[]);
    for i := 0 to |lines|
      invariant data == s.data && Unrepeated(s.zones) && forall d :: d in zones <==> d in s.zones
      invariant ScanLocal(lines, LocalScan([], map[])) == ScanLocal(lines[i..], s)
    {
      assert lines[i..][0] == lines[i] && lines[i..][1..] == lines[i + 1..];
      s := ScanLine(lines[i], s);
      match ReadLocal(lines[i]) {
        case Zone(d) => zones := zones + {d};
        case Data(d, ip) => data := data[d := ip];
        case OtherLocal =>
      }
    }
    var found := CollectZones(kind, zones, data);
    ZoneEntriesDistinct(kind, s.zones, s.data);
    forall e
      ensures e in found <==> e in ZoneEntries(kind, s.zones, s.data)
    {
      ZoneEntriesMember(kind, s.zones, s.data, e);
    }
    SameSort(found, ZoneEntries(kind, s.zones, s.data));
    out := SortEntries(found);
  }

  method ExtractForwardEntries(conf: string) returns (out: seq<Entry>)
    ensures out == ExtractForward(conf)
  {
    hide ReadForward, Sorted;
    var lines := Split(conf, '\n');
    var found: seq<Entry>, cur: Option<Entry> := [], None;
    for i := 0 to |lines|
      invariant ScanForward(lines, ForwardScan(None, [])) == ScanForward(lines[i..], ForwardScan(cur, found))
    {
      assert lines[i..][0] == lines[i] && lines[i..][1..] == lines[i + 1..];
      match ReadForward(lines[i]) {
        case Start =>
          found := Flush(cur, found);
          cur := Some(Entry("", "", []));
        case NameIs(d) =>
          if cur.Some? {
            cur := Some(cur.value.(domain := d));
          }
        case AddrIs(ip) =>
          if cur.Some? {
            cur := Some(cur.value.(upstreams := cur.value.upstreams + [ip]));
          }
        case OtherForward =>
      }
    }
    out := SortEntries(Flush(cur, found));
  }

  method ExtractEntries(kind: Kind, conf: string) returns (out: seq<Entry>)
    ensures out == Extract(kind, conf)
  {
    if kind.Domestic? {
      out := ExtractForwardEntries(conf);
    } else {
      out := ExtractLocalEntries(kind, conf);
    }
  }
}
