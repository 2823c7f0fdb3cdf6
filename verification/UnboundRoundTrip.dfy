/** Reading a generated include file gives back the sorted entries. */
module UnboundRoundTrip {
  import opened Net
  import opened Text
  import opened Ipv4Text
  import opened UnboundDsl
  import opened UnboundConf

  // ---- The generated lines, one by one ----

  lemma QuoteFound(before: string, quoted: string, after: string)
    requires '"' !in before && '"' !in quoted
    ensures var s := before + "\"" + quoted + "\"" + after;
            && IndexOf(s, '"') == |before| && s[|before| + 1..] == quoted + "\"" + after
            && IndexOf(s[|before| + 1..], '"') == |quoted| && s[|before| + 1..][..|quoted|] == quoted
  {
    var s := before + "\"" + quoted + "\"" + after;
    assert forall j :: 0 <= j < |before| ==> s[j] == before[j];
    IndexOfIs(s, '"', |before|);
    var t := quoted + "\"" + after;
    assert s[|before| + 1..] == t;
    assert forall j :: 0 <= j < |quoted| ==> t[j] == quoted[j];
    IndexOfIs(t, '"', |quoted|);
  }

  lemma FqdnIsWord(d: string)
    requires DomainText(d)
    ensures IsWord(d + ".") && '"' !in d + "." && '\n' !in d + "."
  {
    DomainIsWord(d);
  }

  /** A line that starts and ends visibly reads the same with its indentation. */
  lemma IndentedTrims(s: string)
    requires s != "" && !IsSpace(s[0]) && !IsSpace(s[|s| - 1])
    ensures TrimSpace(INDENT + s) == s && TrimSpace(s) == s
  {
    IndentTrims(s);
  }

  lemma BlankSkipped(s: string)
    requires s != "" && !IsSpace(s[0]) && !IsSpace(s[|s| - 1])
    ensures TrimSpace(" " + s) == s
  {
    BlankTrims(s);
    TrimSpaceFixes(s);
  }

  lemma ZoneLineReads(d: string)
    requires DomainText(d)
    ensures ReadLocal(INDENT + ZoneLine(d)) == Zone(d)
  {
    hide NormalizeDomain, DomainText, IndexOf, TrimSpace, ReadData, IsWord;
    FqdnIsWord(d);
    NormalizeFqdn(d);
    var line := ZoneLine(d);
    IndentedTrims(line);
    var rest := "" + "\"" + (d + ".") + "\"" + " static";
    assert line[11..] == " " + rest;
    assert HasPrefix(line, "local-zone:");
    BlankSkipped(rest);
    QuoteFound("", d + ".", " static");
  }

  lemma RecordFields(d: string, ip: string)
    requires DomainText(d) && QuadText(ip)
    ensures var fields := [d + ".", "3600", "IN", "A", ip];
            && (forall w :: w in fields ==> IsWord(w)) && '"' !in Join(fields, ' ')
            && Fields(Join(fields, ' ')) == fields && ReadRecord(fields) == Data(d, ip)
  {
    hide NormalizeDomain, DomainText, Fields, Join, IsWord;
    FqdnIsWord(d);
    ConstantWords();
    QuadIsWord(ip);
    var fields := [d + ".", "3600", "IN", "A", ip];
    FieldsJoin(fields);
    JoinFree(fields, '"');
    NormalizeFqdn(d);
  }

  lemma ConstantWords()
    ensures IsWord("3600") && IsWord("IN") && IsWord("A") && ToLower("A") == "a"
    ensures '"' !in "3600" && '"' !in "IN" && '"' !in "A"
  {
  }

  lemma QuadIsWord(ip: string)
    requires QuadText(ip)
    ensures IsWord(ip) && '"' !in ip
  {
    assert forall i :: 0 <= i < |ip| ==> QuadChar(ip[i]) && !IsSpace(ip[i]);
  }

  lemma {:induction false} JoinFree(words: seq<string>, c: char)
    requires c != ' ' && forall w :: w in words ==> c !in w
    ensures c !in Join(words, ' ')
  {
    if words == [] {
    } else {
      assert words[0] in words;
      JoinFree(words[1..], c);
    }
  }

  lemma DataLineReads(d: string, ip: string)
    requires DomainText(d) && QuadText(ip)
    ensures ReadLocal(INDENT + DataLine(d, ip)) == Data(d, ip)
  {
    hide NormalizeDomain, DomainText, IndexOf, Fields, ReadRecord, Join;
    var inner := Join([d + ".", "3600", "IN", "A", ip], ' ');
    RecordFields(d, ip);
    var line := DataLine(d, ip);
    assert line == "local-data: " + "\"" + inner + "\"" + "";
    IndentedTrims(line);
    assert HasPrefix(line, "local-data:");
    assert !HasPrefix(line, "local-zone:") by {
      assert line[6] == 'd';
    }
    QuoteFound("local-data: ", inner, "");
  }

  lemma NameLineReads(d: string)
    requires DomainText(d)
    ensures ReadForward(INDENT + NameLine(d)) == NameIs(Undotted(d))
  {
    hide NormalizeDomain, CanonIp, TrimSpace, TrimCutLeft, TrimCutRight, Undotted;
    DomainIsWord(d);
    NormalizeUndots(d);
    var line := NameLine(d);
    IndentedTrims(line);
    var quoted := "\"" + d + "\"";
    assert HasPrefix(line, "name:") && !HasPrefix(line, "forward-zone:") by {
      assert line[0] == 'n';
    }
    assert line[5..] == " " + quoted;
    BlankSkipped(quoted);
    CutQuotes(d);
  }

  lemma CutQuotes(d: string)
    requires DomainText(d)
    ensures TrimCutRight(TrimCutLeft("\"" + d + "\"")) == d
  {
    var q := "\"" + d + "\"";
    assert DomainChar(d[0]) && DomainChar(d[|d| - 1]);
    assert q[1..] == d + "\"" && (d + "\"")[0] == d[0];
    assert TrimCutLeft(q) == d + "\"";
    assert (d + "\"")[..|d|] == d;
  }

  lemma AddrLineReads(ip: string)
    requires Canonical(ip)
    ensures ReadForward(INDENT + AddrLine(ip)) == AddrIs(ip)
  {
    hide NormalizeDomain, CanonIp, TrimSpace, TrimCutLeft, TrimCutRight, IndexOf;
    CanonicalIsWord(ip);
    var line := AddrLine(ip);
    IndentedTrims(line);
    assert HasPrefix(line, "forward-addr:") && !HasPrefix(line, "forward-zone:") && !HasPrefix(line, "name:") by {
      assert line[0] == 'f' && line[8] == 'a';
    }
    assert line[13..] == " " + ip;
    BlankSkipped(ip);
    assert forall i :: 0 <= i < |ip| ==> QuadChar(ip[i]);
    IndexOfIs(ip, '@', |ip|);
    IndexOfIs(ip, '#', |ip|);
    assert ip[..|ip|] == ip;
  }

  lemma FixedLinesRead()
    ensures ReadForward("forward-zone:") == Start && ReadForward("") == OtherForward
    ensures ReadLocal("server:") == OtherLocal && ReadLocal("") == OtherLocal
  {
    TrimSpaceFixes("forward-zone:");
    TrimSpaceFixes("server:");
    assert HasPrefix("forward-zone:", "forward-zone:");
    assert !HasPrefix("server:", "local-zone:") && !HasPrefix("server:", "local-data:");
  }

  lemma CommentReads(l: string)
    requires l != "" && l[0] == '#'
    ensures ReadLocal(l) == OtherLocal && ReadForward(l) == OtherForward
  {
    CommentStays(l);
  }

  lemma EmptyMarkReads()
    ensures ReadLocal("    # (empty)") == OtherLocal && ReadForward("# (empty)") == OtherForward
  {
    IndentTrims("# (empty)");
    assert "    " + "# (empty)" == "    # (empty)";
  }

  // ---- block and static ----

  function DomainsOf(es: seq<Entry>): seq<string> {
    if es == [] then [] else DomainsOf(es[..|es| - 1]) + [es[|es| - 1].domain]
  }

  function DataOf(kind: Kind, es: seq<Entry>): map<string, string> {
    if es == [] then map[] else DataOf(kind, es[..|es| - 1])[es[|es| - 1].domain := Target(kind, es[|es| - 1])]
  }

  /** The entries a generated file can still show. */
  function Kept(kind: Kind, es: seq<Entry>): seq<Entry> {
    if es == [] then []
    else (if kind.Static? && es[0].ip == SINKHOLE then [] else [es[0]]) + Kept(kind, es[1..])
  }

  lemma {:induction false} DomainsMember(es: seq<Entry>, d: string)
    ensures d in DomainsOf(es) <==> HasDomain(es, d)
  {
    if es == [] {
    } else {
      DomainsMember(es[..|es| - 1], d);
      DomainsGrow(es[..|es| - 1], es[|es| - 1]);
      assert es == es[..|es| - 1] + [es[|es| - 1]];
    }
  }

  lemma EntryScans(kind: Kind, e: Entry, done: seq<Entry>)
    requires !kind.Domestic? && EntryOk(kind, e) && !HasDomain(done, e.domain)
    ensures ScanLine(INDENT + DataLine(e.domain, Target(kind, e)),
                     ScanLine(INDENT + ZoneLine(e.domain), LocalScan(DomainsOf(done), DataOf(kind, done))))
            == LocalScan(DomainsOf(done + [e]), DataOf(kind, done + [e]))
  {
    hide ReadLocal, DataLine, ZoneLine, Canonical, DomainText;
    ZoneLineReads(e.domain);
    if kind.Static? {
      CanonicalIsWord(e.ip);
    }
    DataLineReads(e.domain, Target(kind, e));
    DomainsMember(done, e.domain);
    assert (done + [e])[..|done|] == done;
  }

  lemma {:induction false} EntriesScan(kind: Kind, es: seq<Entry>, done: seq<Entry>)
    requires !kind.Domestic? && ListOk(kind, done + es)
    ensures ScanLocal(LocalLines(kind, es) + [""], LocalScan(DomainsOf(done), DataOf(kind, done)))
            == LocalScan(DomainsOf(done + es), DataOf(kind, done + es))
    decreases |es|
  {
    hide ScanLine, EntryOk, DomainsOf, DataOf, ZoneLine, DataLine;
    if es == [] {
      assert done + es == done && [] + [""] == [""];
      BlankScans(LocalScan(DomainsOf(done), DataOf(kind, done)));
    } else {
      var e := es[0];
      assert (done + es)[|done|] == e;
      forall i | 0 <= i < |done|
        ensures done[i].domain != e.domain
      {
        assert (done + es)[i] == done[i];
      }
      EntryScans(kind, e, done);
      assert done + es == (done + [e]) + es[1..];
      EntriesScan(kind, es[1..], done + [e]);
      var zone, data := INDENT + ZoneLine(e.domain), INDENT + DataLine(e.domain, Target(kind, e));
      var rest := LocalLines(kind, es[1..]) + [""];
      assert LocalLines(kind, es) + [""] == [zone, data] + rest;
      ScanTwo(zone, data, rest, LocalScan(DomainsOf(done), DataOf(kind, done)));
    }
  }

  lemma ScanTwo(a: string, b: string, rest: seq<string>, s: LocalScan)
    ensures ScanLocal([a, b] + rest, s) == ScanLocal(rest, ScanLine(b, ScanLine(a, s)))
  {
    hide ScanLine;
    assert ([a, b] + rest)[1..] == [b] + rest && ([b] + rest)[1..] == rest;
  }

  lemma BlankScans(s: LocalScan)
    ensures ScanLocal([""], s) == s
  {
    hide ReadLocal;
    FixedLinesRead();
    assert [""][1..] == [];
  }

  lemma {:induction false} DataRecalls(kind: Kind, es: seq<Entry>, k: nat)
    requires k < |es| && Distinct(es)
    ensures es[k].domain in DataOf(kind, es) && DataOf(kind, es)[es[k].domain] == Target(kind, es[k])
    decreases |es|
  {
    if k == |es| - 1 {
    } else {
      DataRecalls(kind, es[..|es| - 1], k);
    }
  }

  lemma {:induction false} ZonesShow(kind: Kind, es: seq<Entry>, data: map<string, string>)
    requires !kind.Domestic?
    requires forall i :: 0 <= i < |es| ==> EntryOk(kind, es[i])
    requires forall i :: 0 <= i < |es| ==> es[i].domain in data && data[es[i].domain] == Target(kind, es[i])
    ensures ZoneEntries(kind, DomainsOf(es), data) == Kept(kind, es)
    decreases |es|
  {
    hide EntryOk, ZoneEntry, Target, DomainsOf;
    if es == [] {
      NoDomains();
    } else {
      DomainsFront(es);
      OkEntryShows(kind, es[0], data);
      ZonesShow(kind, es[1..], data);
    }
  }

  lemma NoDomains()
    ensures DomainsOf([]) == []
  {
  }

  lemma OkEntryShows(kind: Kind, e: Entry, data: map<string, string>)
    requires !kind.Domestic? && EntryOk(kind, e) && e.domain in data && data[e.domain] == Target(kind, e)
    ensures ZoneEntry(kind, e.domain, data) == if kind.Static? && e.ip == SINKHOLE then None else Some(e)
  {
    hide Canonical, DomainText;
    if kind.Static? {
      CanonicalIsWord(e.ip);
    }
  }

  lemma {:induction false} DomainsFront(es: seq<Entry>)
    requires es != []
    ensures DomainsOf(es) == [es[0].domain] + DomainsOf(es[1..])
    decreases |es|
  {
    if |es| == 1 {
      assert es[..0] == [] && es[1..] == [];
    } else {
      var n := |es| - 1;
      DomainsFront(es[..n]);
      assert es[..n][1..] == es[1..][..n - 1] && es[1..][n - 1] == es[n];
    }
  }

  lemma {:induction false} LocalOneLine(kind: Kind, es: seq<Entry>)
    requires !kind.Domestic? && forall i :: 0 <= i < |es| ==> EntryOk(kind, es[i])
    ensures forall l :: l in LocalLines(kind, es) ==> OneLine(l)
  {
    hide EntryOk, ZoneLine, DataLine, OneLine;
    if es == [] {
    } else {
      EntryLinesClean(kind, es[0]);
      LocalOneLine(kind, es[1..]);
    }
  }

  lemma EntryLinesClean(kind: Kind, e: Entry)
    requires !kind.Domestic? && EntryOk(kind, e)
    ensures OneLine(INDENT + ZoneLine(e.domain)) && OneLine(INDENT + DataLine(e.domain, Target(kind, e)))
  {
    hide Canonical, DomainText;
    FqdnIsWord(e.domain);
    if kind.Static? {
      CanonicalIsWord(e.ip);
    }
    var fields := [e.domain + ".", "3600", "IN", "A", Target(kind, e)];
    JoinFree(fields, '\n');
    assert forall i :: 0 <= i < |Join(fields, ' ')| ==> Join(fields, ' ')[i] in Join(fields, ' ');
    assert forall i :: 0 <= i < |e.domain + "."| ==> (e.domain + ".")[i] in e.domain + ".";
  }

  // ---- Preambles ----

  lemma PreambleReads(kind: Kind, s: LocalScan, f: ForwardScan, rest: seq<string>)
    ensures forall l :: l in Preamble(kind) ==> OneLine(l)
    ensures !kind.Domestic? ==> ScanLocal(Preamble(kind) + rest, s) == ScanLocal(rest, s)
    ensures kind.Domestic? ==> ScanForward(Preamble(kind) + rest, f) == ScanForward(rest, f)
  {
    hide ReadLocal, ReadForward, OneLine, FileComment;
    FileCommentClean(kind);
    FixedLinesRead();
    CommentReads(FileComment(kind));
    if kind.Domestic? {
      var second := "# forward-zone MUST stay" + " outside server:" + " (UNBOUND_ARCHITECTURE)";
      ArchitectureClean();
      CommentReads(second);
      ScanTwoForward(FileComment(kind), second, rest, f);
    } else {
      ServerClean();
      ScanTwo(FileComment(kind), "server:", rest, s);
    }
  }

  lemma ServerClean()
    ensures OneLine("server:") && OneLine("forward-zone:") && OneLine("") && OneLine("    # (empty)")
              && OneLine("# (empty)")
  {
  }

  lemma ArchitectureClean()
    ensures OneLine("# forward-zone MUST stay" + " outside server:" + " (UNBOUND_ARCHITECTURE)")
  {
    OneLineJoins("# forward-zone MUST stay", " outside server:");
    OneLineJoins("# forward-zone MUST stay" + " outside server:", " (UNBOUND_ARCHITECTURE)");
  }

  lemma FileCommentClean(kind: Kind)
    ensures OneLine(FileComment(kind)) && FileComment(kind) != "" && FileComment(kind)[0] == '#'
  {
    ListNameClean(kind);
    AdviceClean();
    hide ListName, OneLine;
    OneLineJoins("# Generated from ", ListName(kind));
    OneLineJoins("# Generated from " + ListName(kind), " — do not hand-edit;" + " edit via LuCI DSL");
  }

  lemma ListNameClean(kind: Kind)
    ensures OneLine(ListName(kind))
  {
    match kind {
      case Block =>
      case Static =>
      case Domestic => OneLineJoins("gfc-domestic", "-forward.list");
    }
  }

  lemma AdviceClean()
    ensures OneLine("# Generated from ") && OneLine(" — do not hand-edit;" + " edit via LuCI DSL")
  {
    OneLineJoins(" — do not hand-edit;", " edit via LuCI DSL");
  }

  lemma ScanTwoForward(a: string, b: string, rest: seq<string>, s: ForwardScan)
    ensures ScanForward([a, b] + rest, s) == ScanForward(rest, ScanForwardLine(b, ScanForwardLine(a, s)))
  {
    hide ScanForwardLine;
    assert ([a, b] + rest)[1..] == [b] + rest && ([b] + rest)[1..] == rest;
  }

  // ---- domestic ----

  /** Entries that carry no domain yet or no upstream are dropped at the next zone. */
  function Closed(s: ForwardScan): seq<Entry> {
    Flush(s.cur, s.out)
  }

  lemma {:induction false} AddrsScan(ups: seq<string>, rest: seq<string>, e: Entry, out: seq<Entry>)
    requires forall i :: 0 <= i < |ups| ==> Canonical(ups[i])
    ensures ScanForward(AddrLines(ups) + rest, ForwardScan(Some(e), out))
            == ScanForward(rest, ForwardScan(Some(e.(upstreams := e.upstreams + ups)), out))
  {
    hide ReadForward, Canonical, AddrLine;
    if ups == [] {
      assert AddrLines(ups) + rest == rest && e.upstreams + ups == e.upstreams;
    } else {
      AddrLineReads(ups[0]);
      assert (AddrLines(ups) + rest)[1..] == AddrLines(ups[1..]) + rest;
      AddrsScan(ups[1..], rest, e.(upstreams := e.upstreams + [ups[0]]), out);
      assert e.upstreams + [ups[0]] + ups[1..] == e.upstreams + ups;
    }
  }

  lemma ForwardEntryScans(e: Entry, rest: seq<string>, s: ForwardScan)
    requires EntryOk(Domestic, e)
    ensures ScanForward(["forward-zone:", INDENT + NameLine(e.domain)] + AddrLines(e.upstreams) + [""] + rest, s)
            == ScanForward(rest, ForwardScan(Some(Undot(e)), Closed(s)))
  {
    hide ReadForward, Canonical, NameLine, AddrLine, Undotted, Flush, DomainText;
    FixedLinesRead();
    NameLineReads(e.domain);
    var tail := [""] + rest;
    assert ["forward-zone:", INDENT + NameLine(e.domain)] + AddrLines(e.upstreams) + [""] + rest
        == ["forward-zone:", INDENT + NameLine(e.domain)] + (AddrLines(e.upstreams) + tail);
    ScanTwoForward("forward-zone:", INDENT + NameLine(e.domain), AddrLines(e.upstreams) + tail, s);
    var named := Entry(Undotted(e.domain), "", []);
    AddrsScan(e.upstreams, tail, named, Closed(s));
    assert [] + e.upstreams == e.upstreams && tail[1..] == rest;
  }

  lemma {:induction false} ForwardScans(es: seq<Entry>, s: ForwardScan)
    requires forall i :: 0 <= i < |es| ==> EntryOk(Domestic, es[i])
    ensures Closed(ScanForward(ForwardLines(es) + [""], s)) == Closed(s) + Undots(es)
    decreases |es|
  {
    if es == [] {
      hide ScanForward, Flush;
      BlankScansForward(s);
      assert [] + [""] == [""];
      assert Closed(s) + [] == Closed(s);
    } else {
      ForwardScanFirst(es, s);
      hide *;
      ForwardScans(es[1..], ForwardScan(Some(Undot(es[0])), Closed(s)));
      UndotsJoin(es, Closed(s));
    }
  }

  lemma UndotsJoin(es: seq<Entry>, out: seq<Entry>)
    requires es != []
    ensures out + [Undot(es[0])] + Undots(es[1..]) == out + Undots(es)
  {
    hide Undotted;
  }

  lemma ForwardScanFirst(es: seq<Entry>, s: ForwardScan)
    requires es != [] && EntryOk(Domestic, es[0])
    ensures ScanForward(ForwardLines(es) + [""], s)
            == ScanForward(ForwardLines(es[1..]) + [""], ForwardScan(Some(Undot(es[0])), Closed(s)))
    ensures Closed(ForwardScan(Some(Undot(es[0])), Closed(s))) == Closed(s) + [Undot(es[0])]
  {
    hide ScanForward, AddrLines, NameLine, Undotted, EntryOk, DomainText, EndsInDot;
    var e, rest := es[0], ForwardLines(es[1..]) + [""];
    OkHasDomainText(Domestic, e);
    NormalizeUndots(e.domain);
    UndottedNotEmpty(e.domain);
    OkHasUpstreams(e);
    assert ForwardLines(es) + [""]
        == ["forward-zone:", INDENT + NameLine(e.domain)] + AddrLines(e.upstreams) + [""] + rest;
    ForwardEntryScans(e, rest, s);
  }

  lemma BlankScansForward(s: ForwardScan)
    ensures ScanForward([""], s) == s
  {
    hide ReadForward;
    FixedLinesRead();
    assert [""][1..] == [];
  }

  lemma UndottedNotEmpty(d: string)
    requires DomainText(Undotted(d))
    ensures Undotted(d) != ""
  {
  }

  lemma OkHasUpstreams(e: Entry)
    requires EntryOk(Domestic, e)
    ensures e.upstreams != []
  {
  }

  lemma {:induction false} AddrOneLine(ups: seq<string>)
    requires forall i :: 0 <= i < |ups| ==> Canonical(ups[i])
    ensures forall l :: l in AddrLines(ups) ==> OneLine(l)
  {
    hide Canonical;
    if ups == [] {
    } else {
      CanonicalIsWord(ups[0]);
      assert forall i :: 0 <= i < |ups[0]| ==> ups[0][i] in ups[0];
      OneLineJoins(INDENT, "forward-addr: ");
      OneLineJoins("forward-addr: ", ups[0]);
      OneLineJoins(INDENT, AddrLine(ups[0]));
      AddrOneLine(ups[1..]);
    }
  }

  lemma NameOneLine(d: string)
    requires DomainText(d)
    ensures OneLine(INDENT + NameLine(d))
  {
    hide DomainText;
    DomainIsWord(d);
    assert forall i :: 0 <= i < |d| ==> d[i] in d;
  }

  lemma {:induction false} ForwardOneLine(es: seq<Entry>)
    requires forall i :: 0 <= i < |es| ==> EntryOk(Domestic, es[i])
    ensures forall l :: l in ForwardLines(es) ==> OneLine(l)
  {
    hide OneLine, DomainText, Canonical, NameLine, AddrLine;
    if es == [] {
    } else {
      ServerClean();
      NameOneLine(es[0].domain);
      AddrOneLine(es[0].upstreams);
      ForwardOneLine(es[1..]);
    }
  }

  // ---- Whole files ----

  lemma {:induction false} KeptIsAllIff(kind: Kind, es: seq<Entry>)
    ensures |Kept(kind, es)| <= |es|
    ensures Kept(kind, es) == es <==> !kind.Static? || forall i :: 0 <= i < |es| ==> es[i].ip != SINKHOLE
    ensures |Kept(kind, es)| == |es| <==> Kept(kind, es) == es
  {
    if es == [] {
    } else {
      KeptIsAllIff(kind, es[1..]);
      assert es == [es[0]] + es[1..];
      if Kept(kind, es) == es && kind.Static? {
        assert es[0].ip != SINKHOLE;
      }
    }
  }

  lemma SortedLength(es: seq<Entry>)
    ensures |Sorted(es)| == |es|
  {
    assert |multiset(Sorted(es))| == |multiset(es)|;
  }

  lemma ConfSplits(kind: Kind, es: seq<Entry>)
    requires forall i :: 0 <= i < |es| ==> EntryOk(kind, es[i])
    ensures Split(Conf(kind, es), '\n') == Preamble(kind) + (Body(kind, es) + [""])
  {
    hide Split, Unlines, EntryOk, OneLine, Preamble;
    PreambleReads(kind, LocalScan([], map[]), ForwardScan(None, []), []);
    ServerClean();
    if kind.Domestic? {
      ForwardOneLine(es);
    } else {
      LocalOneLine(kind, es);
    }
    SplitUnlines(Preamble(kind) + Body(kind, es));
    assert Preamble(kind) + Body(kind, es) + [""] == Preamble(kind) + (Body(kind, es) + [""]);
  }

  lemma LocalBodyScans(kind: Kind, es: seq<Entry>)
    requires !kind.Domestic? && ListOk(kind, es)
    ensures ScanLocal(Body(kind, es) + [""], LocalScan([], map[])) == LocalScan(DomainsOf(es), DataOf(kind, es))
  {
    hide ListOk, ScanLine;
    assert [] + es == es;
    if es == [] {
      EmptyMarkScans();
    } else {
      EntriesScan(kind, es, []);
    }
  }

  lemma EmptyMarkScans()
    ensures ScanLocal(["    # (empty)"] + [""], LocalScan([], map[])) == LocalScan([], map[])
    ensures ScanForward(["# (empty)"] + [""], ForwardScan(None, [])) == ForwardScan(None, [])
  {
    hide ReadLocal, ReadForward;
    EmptyMarkReads();
    FixedLinesRead();
    assert ["    # (empty)"] + [""] == ["    # (empty)", ""] + [] && ["# (empty)"] + [""] == ["# (empty)", ""] + [];
    ScanTwo("    # (empty)", "", [], LocalScan([], map[]));
    ScanTwoForward("# (empty)", "", [], ForwardScan(None, []));
  }

  lemma LocalExtracts(kind: Kind, es: seq<Entry>)
    requires !kind.Domestic? && ListOk(kind, es)
    ensures Extract(kind, Conf(kind, es)) == Sorted(Kept(kind, es))
  {
    hide EntryOk, ScanLocal, Split, Conf, Body, Preamble, DomainsOf, DataOf, ZoneEntries, Kept, Sorted;
    ConfSplits(kind, es);
    PreambleReads(kind, LocalScan([], map[]), ForwardScan(None, []), Body(kind, es) + [""]);
    LocalBodyScans(kind, es);
    forall i | 0 <= i < |es|
      ensures es[i].domain in DataOf(kind, es) && DataOf(kind, es)[es[i].domain] == Target(kind, es[i])
    {
      DataRecalls(kind, es, i);
    }
    ZonesShow(kind, es, DataOf(kind, es));
  }

  lemma ForwardExtracts(es: seq<Entry>)
    requires ListOk(Domestic, es)
    ensures Extract(Domestic, Conf(Domestic, es)) == Sorted(Undots(es))
  {
    hide EntryOk, ScanForward, Split, Conf, Preamble, Sorted;
    ConfSplits(Domestic, es);
    var start := ForwardScan(None, []);
    PreambleReads(Domestic, LocalScan([], map[]), start, Body(Domestic, es) + [""]);
    if es == [] {
      EmptyMarkScans();
    } else {
      ForwardScans(es, start);
      assert [] + Undots(es) == Undots(es);
    }
  }

  lemma UndotsMember(es: seq<Entry>, e: Entry)
    requires forall i :: 0 <= i < |es| ==> DomainText(es[i].domain)
    ensures e in Undots(es) ==> !EndsInDot(e.domain)
  {
    hide NormalizeDomain, DomainText, EndsInDot;
    if e in Undots(es) {
      var i :| 0 <= i < |es| && Undots(es)[i] == e;
      NormalizeUndots(es[i].domain);
    }
  }

  /** What a list must avoid to survive its include file: a static sinkhole, a forwarded domain ending in a dot. */
  predicate Readable(kind: Kind, es: seq<Entry>) {
    match kind
    case Block => true
    case Static => forall i :: 0 <= i < |es| ==> es[i].ip != SINKHOLE
    case Domestic => NoDotAtEnd(es)
  }

  /** Extracting a generated file gives the sorted entries, exactly for the readable lists. */
  lemma ExtractUndoesGenerateIff(kind: Kind, es: seq<Entry>)
    requires ListOk(kind, es)
    ensures Extract(kind, Conf(kind, es)) == Sorted(es) <==> Readable(kind, es)
  {
    hide Extract, Conf, Sorted, Kept, EntryOk, EndsInDot, DomainText;
    if kind.Domestic? {
      ForwardExtracts(es);
      forall i | 0 <= i < |es|
        ensures DomainText(es[i].domain)
      {
        OkHasDomainText(kind, es[i]);
      }
      UndotsFixesIff(es);
      if !NoDotAtEnd(es) {
        var k :| 0 <= k < |es| && EndsInDot(es[k].domain);
        UndotsMember(es, es[k]);
        SameMembers(es, es[k]);
        SameMembers(Undots(es), es[k]);
      }
    } else {
      LocalExtracts(kind, es);
      KeptIsAllIff(kind, es);
      SortedLength(es);
      SortedLength(Kept(kind, es));
    }
  }
}
