/** The operator's list format: one entry a line, parsed and printed. */
module UnboundDsl {
  import opened Net
  import opened Text
  import opened Ipv4Text

  datatype Kind = Block | Static | Domestic

  datatype Entry = Entry(domain: string, ip: string, upstreams: seq<string>)

  // ---- Domains ----

  predicate DomainChar(c: char) {
    'a' <= c <= 'z' || '0' <= c <= '9' || c == '-' || c == '.' || c == '_'
  }

  /** Letters in lower case, digits, dashes, dots and underscores. */
  lemma DomainCharExamples()
    ensures forall c :: c in "az09-._" ==> DomainChar(c)
    ensures forall c :: c in "AZ`{/:,+ *\"" ==> !DomainChar(c)
  {
  }

  predicate DoubleDot(s: string) {
    exists i :: 0 <= i < |s| - 1 && s[i] == '.' && s[i + 1] == '.'
  }

  predicate DomainText(s: string) {
    s != "" && s != "." && !DoubleDot(s) && forall i :: 0 <= i < |s| ==> DomainChar(s[i])
  }

  predicate EndsInDot(s: string) {
    s != "" && s[|s| - 1] == '.'
  }

  /** Trimmed, lower case, one trailing dot removed; only one, so `"a.."` is accepted as `"a."`. */
  function NormalizeDomain(raw: string): Option<string> {
    var s := TrimSuffix(TrimSpace(ToLower(raw)), ".");
    if DomainText(s) then Some(s) else None
  }

  lemma DomainIsWord(d: string)
    requires DomainText(d)
    ensures IsWord(d) && Trimmed(d) && TrimSpace(ToLower(d)) == d && '"' !in d && '\n' !in d
  {
    assert forall i :: 0 <= i < |d| ==> LowerChar(d[i]) == d[i] && !IsSpace(d[i]);
    assert ToLower(d) == d;
    TrimSpaceFixes(d);
  }

  function Undotted(d: string): string {
    if EndsInDot(d) then d[..|d| - 1] else d
  }

  /** An accepted domain reads back without its trailing dot, if it has one. */
  lemma NormalizeUndots(d: string)
    requires DomainText(d)
    ensures NormalizeDomain(d) == Some(Undotted(d)) && DomainText(Undotted(d)) && !EndsInDot(Undotted(d))
  {
    DomainIsWord(d);
    if EndsInDot(d) {
      var t := Undotted(d);
      assert HasSuffix(d, ".") && |d| >= 2 && d[|d| - 2] != '.';
      assert t[|t| - 1] == d[|d| - 2];
    }
  }

  /** The fully qualified spelling reads back as the domain. */
  lemma NormalizeFqdn(d: string)
    requires DomainText(d)
    ensures NormalizeDomain(d + ".") == Some(d)
  {
    var f := d + ".";
    forall i | 0 <= i < |f|
      ensures LowerChar(f[i]) == f[i] && !IsSpace(f[i])
    {
      assert i < |d| ==> DomainChar(d[i]);
    }
    assert ToLower(f) == f;
    TrimSpaceFixes(f);
    assert f[..|d|] == d && f[|d|..] == ".";
  }

  // ---- One line ----

  datatype Line = Blank | Malformed | Good(entry: Entry)

  function CanonAll(words: seq<string>): (r: Option<seq<string>>)
    ensures r.Some? ==> |r.value| == |words|
  {
    if words == [] then Some([])
    else
      var first, rest := CanonIp(words[0]), CanonAll(words[1..]);
      if first.None? || rest.None? then None else Some([first.value] + rest.value)
  }

  function ParseWords(kind: Kind, words: seq<string>): Line {
    if words == [] then Blank
    else
      var dom := NormalizeDomain(words[0]);
      if dom.None? then Malformed
      else
        match kind
        case Block => if |words| == 1 then Good(Entry(dom.value, "", [])) else Malformed
        case Static =>
          if |words| != 2 || CanonIp(words[1]).None? then Malformed
          else Good(Entry(dom.value, CanonIp(words[1]).value, []))
        case Domestic =>
          var ups := CanonAll(words[1..]);
          if |words| < 2 || ups.None? then Malformed else Good(Entry(dom.value, "", ups.value))
  }

  function ParseLine(kind: Kind, raw: string): Line {
    var line := TrimSpace(raw);
    if line == "" || line[0] == '#' then Blank else ParseWords(kind, Fields(line))
  }

  // ---- The list ----

  predicate HasDomain(es: seq<Entry>, d: string) {
    exists i :: 0 <= i < |es| && es[i].domain == d
  }

  function ParseLines(kind: Kind, lines: seq<string>, done: seq<Entry>): Option<seq<Entry>>
    decreases |lines|
  {
    if lines == [] then Some(done)
    else
      match ParseLine(kind, lines[0])
      case Blank => ParseLines(kind, lines[1..], done)
      case Malformed => None
      case Good(e) =>
        if HasDomain(done, e.domain) then None else ParseLines(kind, lines[1..], done + [e])
  }

  function Parse(kind: Kind, content: string): Option<seq<Entry>> {
    ParseLines(kind, Split(content, '\n'), [])
  }

  /** The parser loop, with the set of domains it has seen. */
  method ParseDsl(kind: Kind, content: string) returns (r: Option<seq<Entry>>)
    ensures r == Parse(kind, content)
  {
    hide ParseLine;
    var out: seq<Entry>, seen: set<string> := [], {};
    var lines := Split(content, '\n');
    for i := 0 to |lines|
      invariant forall d :: d in seen <==> HasDomain(out, d)
      invariant Parse(kind, content) == ParseLines(kind, lines[i..], out)
    {
      assert lines[i..][0] == lines[i] && lines[i..][1..] == lines[i + 1..];
      match ParseLine(kind, lines[i]) {
        case Blank =>
        case Malformed => return None;
        case Good(e) =>
          if e.domain in seen {
            return None;
          }
          DomainsGrow(out, e);
          seen := seen + {e.domain};
          out := out + [e];
      }
    }
    return Some(out);
  }

  lemma DomainsGrow(es: seq<Entry>, e: Entry)
    ensures forall d :: HasDomain(es + [e], d) <==> HasDomain(es, d) || d == e.domain
  {
    forall d
      ensures HasDomain(es + [e], d) <==> HasDomain(es, d) || d == e.domain
    {
      if HasDomain(es, d) {
        var i :| 0 <= i < |es| && es[i].domain == d;
        assert (es + [e])[i].domain == d;
      }
      assert (es + [e])[|es|] == e;
    }
  }

  // ---- Printing ----

  function HeaderFormat(kind: Kind): string {
    match kind
    case Block => "# 格式：每行一个域名"
    case Static => "# 格式：域名 IPv4"
    case Domestic => "# 格式：域名 上游DNS" + " [上游DNS...]"
  }

  function HeaderExample(kind: Kind): string {
    match kind
    case Block => "# 例：ads.example.com"
    case Static => "# 例：mmo.example.com" + " 203.0.113.10"
    case Domestic => "# 例：special.example.com" + " 223.5.5.5 119.29.29.29"
  }

  function Header(kind: Kind): seq<string> {
    [HeaderFormat(kind), HeaderExample(kind)]
  }

  function Words(kind: Kind, e: Entry): (w: seq<string>)
    ensures w != [] && w[0] == e.domain
  {
    match kind
    case Block => [e.domain]
    case Static => [e.domain, e.ip]
    case Domestic => [e.domain] + e.upstreams
  }

  function EntryLine(kind: Kind, e: Entry): string {
    Join(Words(kind, e), ' ')
  }

  function EntryLines(kind: Kind, es: seq<Entry>): seq<string> {
    if es == [] then [] else [EntryLine(kind, es[0])] + EntryLines(kind, es[1..])
  }

  function Format(kind: Kind, es: seq<Entry>): string {
    Unlines(Header(kind) + EntryLines(kind, es))
  }

  lemma {:induction false} UnlinesJoins(a: seq<string>, b: seq<string>)
    ensures Unlines(a + b) == Unlines(a) + Unlines(b)
  {
    if a == [] {
      assert a + b == b;
    } else {
      assert (a + b)[1..] == a[1..] + b;
      UnlinesJoins(a[1..], b);
    }
  }

  lemma UnlinesGrow(a: seq<string>, line: string)
    ensures Unlines(a + [line]) == Unlines(a) + line + "\n"
  {
    UnlinesJoins(a, [line]);
    assert [line][1..] == [];
    assert Unlines([line]) == line + "\n";
    assert Unlines(a) + (line + "\n") == Unlines(a) + line + "\n";
  }

  lemma {:induction false} EntryLinesGrow(kind: Kind, es: seq<Entry>, e: Entry)
    ensures EntryLines(kind, es + [e]) == EntryLines(kind, es) + [EntryLine(kind, e)]
  {
    if es == [] {
      assert [e][1..] == [];
    } else {
      assert (es + [e])[1..] == es[1..] + [e];
      EntryLinesGrow(kind, es[1..], e);
    }
  }

  lemma {:induction false} JoinGrows(ws: seq<string>, w: string)
    requires ws != []
    ensures Join(ws + [w], ' ') == Join(ws, ' ') + " " + w
  {
    if |ws| == 1 {
      assert (ws + [w])[1..] == [w];
    } else {
      assert (ws + [w])[1..] == ws[1..] + [w];
      JoinGrows(ws[1..], w);
    }
  }

  lemma NoEntryLines(kind: Kind)
    ensures EntryLines(kind, []) == []
  {
  }

  /** The printer loop writes the words of each entry one after the other. */
  method FormatDsl(kind: Kind, es: seq<Entry>) returns (out: string)
    ensures out == Format(kind, es)
  {
    hide Header, EntryLine, EntryLines;
    out := Unlines(Header(kind));
    assert EntryLines(kind, []) == [] by {
      NoEntryLines(kind);
    }
    assert Header(kind) + [] == Header(kind);
    for i := 0 to |es|
      invariant out == Unlines(Header(kind) + EntryLines(kind, es[..i]))
    {
      var line := PrintEntry(kind, es[i]);
      ghost var before := Header(kind) + EntryLines(kind, es[..i]);
      assert es[..i + 1] == es[..i] + [es[i]];
      EntryLinesGrow(kind, es[..i], es[i]);
      assert Header(kind) + EntryLines(kind, es[..i + 1]) == before + [line];
      UnlinesGrow(before, line);
      out := out + line + "\n";
    }
    assert es[..|es|] == es;
  }

  method PrintEntry(kind: Kind, e: Entry) returns (line: string)
    ensures line == EntryLine(kind, e)
  {
    line := e.domain;
    match kind {
      case Block =>
      case Static =>
        line := line + " " + e.ip;
        JoinGrows([e.domain], e.ip);
      case Domestic =>
        for i := 0 to |e.upstreams|
          invariant line == Join([e.domain] + e.upstreams[..i], ' ')
        {
          assert [e.domain] + e.upstreams[..i + 1] == ([e.domain] + e.upstreams[..i]) + [e.upstreams[i]];
          JoinGrows([e.domain] + e.upstreams[..i], e.upstreams[i]);
          line := line + " " + e.upstreams[i];
        }
        assert e.upstreams[..|e.upstreams|] == e.upstreams;
    }
  }

  // ---- Well-formed lists ----

  /** The fields an entry of the kind has, in canonical form. */
  predicate EntryOk(kind: Kind, e: Entry) {
    && DomainText(e.domain)
    && match kind
       case Block => e.ip == "" && e.upstreams == []
       case Static => Canonical(e.ip) && e.upstreams == []
       case Domestic =>
         e.ip == "" && e.upstreams != [] && forall i :: 0 <= i < |e.upstreams| ==> Canonical(e.upstreams[i])
  }

  predicate Distinct(es: seq<Entry>) {
    forall i, j :: 0 <= i < j < |es| ==> es[i].domain != es[j].domain
  }

  predicate ListOk(kind: Kind, es: seq<Entry>) {
    Distinct(es) && forall i :: 0 <= i < |es| ==> EntryOk(kind, es[i])
  }

  predicate NoDotAtEnd(es: seq<Entry>) {
    forall i :: 0 <= i < |es| ==> !EndsInDot(es[i].domain)
  }

  lemma {:induction false} CanonAllCanonical(words: seq<string>)
    ensures CanonAll(words).Some? ==> forall i :: 0 <= i < |words| ==> Canonical(CanonAll(words).value[i])
  {
    hide CanonIp;
    if words == [] || CanonAll(words).None? {
    } else {
      CanonIpIsCanonical(words[0]);
      CanonAllCanonical(words[1..]);
    }
  }

  lemma ParsedWordsOk(kind: Kind, words: seq<string>)
    ensures ParseWords(kind, words).Good? ==> EntryOk(kind, ParseWords(kind, words).entry)
  {
    hide CanonIp;
    if |words| > 1 {
      CanonIpIsCanonical(words[1]);
      CanonAllCanonical(words[1..]);
    }
  }

  lemma OkGrows(kind: Kind, es: seq<Entry>, e: Entry)
    requires ListOk(kind, es) && EntryOk(kind, e) && !HasDomain(es, e.domain)
    ensures ListOk(kind, es + [e])
  {
  }

  lemma {:induction false} ParseLinesOk(kind: Kind, lines: seq<string>, done: seq<Entry>)
    requires ListOk(kind, done)
    ensures ParseLines(kind, lines, done).Some? ==> ListOk(kind, ParseLines(kind, lines, done).value)
    decreases |lines|
  {
    hide ListOk, ParseLine;
    if lines == [] {
    } else {
      match ParseLine(kind, lines[0]) {
        case Blank => ParseLinesOk(kind, lines[1..], done);
        case Malformed =>
        case Good(e) =>
          GoodLineOk(kind, lines[0]);
          if !HasDomain(done, e.domain) {
            OkGrows(kind, done, e);
            ParseLinesOk(kind, lines[1..], done + [e]);
          }
      }
    }
  }

  lemma GoodLineOk(kind: Kind, line: string)
    requires ParseLine(kind, line).Good?
    ensures EntryOk(kind, ParseLine(kind, line).entry)
  {
    hide ParseWords;
    ParsedWordsOk(kind, Fields(TrimSpace(line)));
  }

  /** Every accepted list is well formed: distinct domains, canonical addresses, the fields of its kind. */
  lemma ParsedIsOk(kind: Kind, content: string)
    requires Parse(kind, content).Some?
    ensures ListOk(kind, Parse(kind, content).value)
  {
    ParseLinesOk(kind, Split(content, '\n'), []);
  }

  // ---- Printing and parsing ----

  lemma CanonicalIsWord(ip: string)
    requires Canonical(ip)
    ensures IsWord(ip) && '\n' !in ip && '"' !in ip && QuadText(ip)
  {
    CanonIpIsCanonical(ip);
    assert forall i :: 0 <= i < |ip| ==> QuadChar(ip[i]) && !IsSpace(ip[i]);
  }

  lemma {:induction false} CanonAllFixes(words: seq<string>)
    requires forall i :: 0 <= i < |words| ==> Canonical(words[i])
    ensures CanonAll(words) == Some(words)
  {
    hide CanonIp;
    if words == [] {
    } else {
      CanonAllFixes(words[1..]);
      assert Canonical(words[0]);
      assert words == [words[0]] + words[1..];
    }
  }

  lemma EntryWords(kind: Kind, e: Entry)
    requires EntryOk(kind, e)
    ensures forall w :: w in Words(kind, e) ==> IsWord(w) && '\n' !in w
    ensures e.domain != "" && e.domain[0] != '#'
  {
    hide CanonIp, IsWord;
    DomainIsWord(e.domain);
    if kind.Static? {
      CanonicalIsWord(e.ip);
    }
    forall i | 0 <= i < |e.upstreams|
      ensures IsWord(e.upstreams[i]) && '\n' !in e.upstreams[i]
    {
      CanonicalIsWord(e.upstreams[i]);
    }
  }

  /** The entry as it reads back from its own line. */
  function Undot(e: Entry): Entry {
    e.(domain := Undotted(e.domain))
  }

  function Undots(es: seq<Entry>): (r: seq<Entry>)
    ensures |r| == |es|
    ensures forall i :: 0 <= i < |es| ==> r[i] == Undot(es[i])
  {
    if es == [] then [] else [Undot(es[0])] + Undots(es[1..])
  }

  lemma WordsParse(kind: Kind, e: Entry)
    requires EntryOk(kind, e)
    ensures ParseWords(kind, Words(kind, e)) ==
            Good(Undot(e))
  {
    hide CanonIp, NormalizeDomain, DomainText, Undotted;
    OkHasDomainText(kind, e);
    NormalizeUndots(e.domain);
    if kind.Domestic? {
      CanonAllFixes(e.upstreams);
      assert Words(kind, e)[1..] == e.upstreams;
    }
  }

  lemma EntryLineParses(kind: Kind, e: Entry)
    requires EntryOk(kind, e)
    ensures ParseLine(kind, EntryLine(kind, e)) ==
            Good(Undot(e))
  {
    hide Fields, Join, NormalizeDomain, EntryOk, ParseWords, IsWord, Words, Trimmed;
    var words := Words(kind, e);
    EntryWords(kind, e);
    JoinTrimmed(words);
    FieldsJoin(words);
    TrimSpaceFixes(EntryLine(kind, e));
    LineStarts(words);
    WordsParse(kind, e);
  }

  lemma LineStarts(words: seq<string>)
    requires words != [] && words[0] != ""
    ensures Join(words, ' ') != "" && Join(words, ' ')[0] == words[0][0]
  {
  }

  lemma {:induction false} JoinOneLine(words: seq<string>)
    requires forall w :: w in words ==> '\n' !in w
    ensures OneLine(Join(words, ' '))
  {
    if words == [] {
    } else {
      assert words[0] in words;
      JoinOneLine(words[1..]);
    }
  }

  lemma {:induction false} EntryLinesOneLine(kind: Kind, es: seq<Entry>)
    requires forall i :: 0 <= i < |es| ==> EntryOk(kind, es[i])
    ensures forall l :: l in EntryLines(kind, es) ==> OneLine(l)
  {
    hide EntryOk, Words, Join, OneLine;
    if es == [] {
    } else {
      EntryWords(kind, es[0]);
      JoinOneLine(Words(kind, es[0]));
      EntryLinesOneLine(kind, es[1..]);
    }
  }

  predicate CommentLine(l: string) {
    OneLine(l) && l != "" && l[0] == '#'
  }

  lemma HeaderLines(kind: Kind)
    ensures CommentLine(HeaderFormat(kind)) && CommentLine(HeaderExample(kind))
  {
    FormatLine(kind);
    ExampleLine(kind);
  }

  lemma FormatLine(kind: Kind)
    ensures CommentLine(HeaderFormat(kind))
  {
    if kind.Domestic? {
      OneLineJoins("# 格式：域名 上游DNS", " [上游DNS...]");
    }
  }

  lemma ExampleLine(kind: Kind)
    ensures CommentLine(HeaderExample(kind))
  {
    match kind {
      case Block =>
      case Static =>
        OneLineJoins("# 例：mmo.example.com", " 203.0.113.10");
      case Domestic =>
        OneLineJoins("# 例：special.example.com", " 223.5.5.5 119.29.29.29");
    }
  }

  lemma {:induction false} CommentsSkipped(kind: Kind, comments: seq<string>, lines: seq<string>, done: seq<Entry>)
    requires forall i :: 0 <= i < |comments| ==> comments[i] != "" && comments[i][0] == '#'
    ensures ParseLines(kind, comments + lines, done) == ParseLines(kind, lines, done)
  {
    if comments == [] {
      assert comments + lines == lines;
    } else {
      CommentStays(comments[0]);
      assert ParseLine(kind, comments[0]) == Blank;
      assert (comments + lines)[1..] == comments[1..] + lines;
      CommentsSkipped(kind, comments[1..], lines, done);
    }
  }

  lemma FormatSplits(kind: Kind, es: seq<Entry>)
    requires forall i :: 0 <= i < |es| ==> EntryOk(kind, es[i])
    ensures Parse(kind, Format(kind, es)) == ParseLines(kind, EntryLines(kind, es) + [""], [])
  {
    hide HeaderFormat, HeaderExample, EntryOk, Split, Unlines, ParseLines, OneLine;
    HeaderLines(kind);
    EntryLinesOneLine(kind, es);
    SplitUnlines(Header(kind) + EntryLines(kind, es));
    assert Header(kind) + EntryLines(kind, es) + [""] == Header(kind) + (EntryLines(kind, es) + [""]);
    CommentsSkipped(kind, Header(kind), EntryLines(kind, es) + [""], []);
  }

  lemma {:induction false} EntriesParse(kind: Kind, es: seq<Entry>, done: seq<Entry>)
    requires Distinct(done) && forall i :: 0 <= i < |es| ==> EntryOk(kind, es[i])
    ensures ParseLines(kind, EntryLines(kind, es) + [""], done) ==
            if Distinct(done + Undots(es)) then Some(done + Undots(es)) else None
    decreases |es|
  {
    hide EntryOk, Undotted, EntryLine, ParseLine;
    if es == [] {
      BlankLine(kind);
      assert [] + [""] == [""] && done + [] == done;
      assert ParseLines(kind, [""][1..], done) == Some(done);
    } else {
      var e := Undot(es[0]);
      EntryLineParses(kind, es[0]);
      assert (EntryLines(kind, es) + [""])[1..] == EntryLines(kind, es[1..]) + [""];
      assert done + Undots(es) == (done + [e]) + Undots(es[1..]);
      if HasDomain(done, e.domain) {
        var i :| 0 <= i < |done| && done[i].domain == e.domain;
        assert (done + Undots(es))[i] == done[i] && (done + Undots(es))[|done|] == e;
      } else {
        EntriesParse(kind, es[1..], done + [e]);
      }
    }
  }

  lemma OkHasDomainText(kind: Kind, e: Entry)
    requires EntryOk(kind, e)
    ensures DomainText(e.domain)
  {
  }

  lemma BlankLine(kind: Kind)
    ensures ParseLine(kind, "") == Blank
  {
  }

  /** Reading back what was printed drops the trailing dots, and fails when two names then coincide. */
  lemma ReparseExact(kind: Kind, es: seq<Entry>)
    requires ListOk(kind, es)
    ensures Parse(kind, Format(kind, es)) == if Distinct(Undots(es)) then Some(Undots(es)) else None
  {
    hide Parse, Format, EntryOk;
    FormatSplits(kind, es);
    EntriesParse(kind, es, []);
    assert [] + Undots(es) == Undots(es);
  }

  lemma {:induction false} UndotsFixesIff(es: seq<Entry>)
    ensures Undots(es) == es <==> NoDotAtEnd(es)
  {
    if !NoDotAtEnd(es) {
      var k :| 0 <= k < |es| && EndsInDot(es[k].domain);
      assert |Undots(es)[k].domain| < |es[k].domain|;
    }
  }

  /** Printing and parsing are inverse exactly on the well-formed lists without a domain that ends in a dot. */
  lemma FormatParsesIff(kind: Kind, es: seq<Entry>)
    requires ListOk(kind, es)
    ensures Parse(kind, Format(kind, es)) == Some(es) <==> NoDotAtEnd(es)
  {
    hide Parse, Format, EndsInDot, EntryOk;
    ReparseExact(kind, es);
    UndotsFixesIff(es);
  }
}
