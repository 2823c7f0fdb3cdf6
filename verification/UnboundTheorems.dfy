/** What the lists keep over every sequence of writes. */
module UnboundTheorems {
  import opened Net
  import opened Text
  import opened Ipv4Text
  import opened UnboundDsl
  import opened UnboundConf
  import opened UnboundRoundTrip
  import opened UnboundStore

  // ---- What a write leaves to be loaded ----

  lemma SortedIsOk(kind: Kind, es: seq<Entry>)
    requires ListOk(kind, es)
    ensures ListOk(kind, Sorted(es)) && DomainsIn(Sorted(es)) == DomainsIn(es)
    ensures NoDotAtEnd(es) ==> NoDotAtEnd(Sorted(es))
  {
    hide EntryOk, Sorted, EndsInDot;
    var t := Sorted(es);
    SortedOrders(es);
    forall i, j | 0 <= i < j < |t|
      ensures t[i].domain != t[j].domain
    {
      LessIsStrict(t[i].domain, t[j].domain);
    }
    forall i | 0 <= i < |t|
      ensures EntryOk(kind, t[i]) && t[i].domain in DomainsIn(es) && (NoDotAtEnd(es) ==> !EndsInDot(t[i].domain))
    {
      SameMembers(es, t[i]);
      var k :| 0 <= k < |es| && es[k] == t[i];
    }
    forall i | 0 <= i < |es|
      ensures es[i].domain in DomainsIn(t)
    {
      SameMembers(es, es[i]);
      var k :| 0 <= k < |t| && t[k] == es[i];
    }
  }

  /** Loading what was written drops trailing dots, and fails when two names then coincide. */
  lemma WrittenLoads(kind: Kind, es: seq<Entry>)
    requires ListOk(kind, es)
    ensures LoadedFrom(kind, Written(kind, es)) == if Distinct(Undots(es)) then Some(Undots(es)) else None
  {
    hide Parse, Format, Extract, Conf, ListOk;
    ReparseExact(kind, es);
    if es == [] {
      EmptyLoads(kind);
    }
  }

  lemma EmptyLoads(kind: Kind)
    ensures Extract(kind, Conf(kind, [])) == [] && Extract(kind, "") == []
  {
    hide Extract, Conf;
    ExtractUndoesGenerateIff(kind, []);
    EmptyTextLoads(kind);
  }

  lemma EmptyTextLoads(kind: Kind)
    ensures Extract(kind, "") == []
  {
    hide ReadLocal, ReadForward, Split;
    FixedLinesRead();
    SplitEmpty('\n');
    assert [""][1..] == [];
  }

  /** A failed write changes no list as it loads, even where it creates empty files. */
  lemma FailedWriteLoadsTheSame(kind: Kind, sn: Snippet, x: Fault)
    ensures LoadedFrom(kind, PutBack(sn, x)) == LoadedFrom(kind, sn)
  {
    hide Extract, Conf, Parse;
    EmptyLoads(kind);
    EmptyTextParses(kind);
  }

  lemma EmptyTextParses(kind: Kind)
    ensures Parse(kind, "") == Some([])
  {
    hide ParseLine, Split;
    SplitEmpty('\n');
    BlankLine(kind);
    assert [""][1..] == [];
  }

  /** Exactly what every write leaves to be loaded. */
  lemma PutLoads(s: Store, kind: Kind, content: string, x: Fault, k: Kind)
    ensures var (t, o) := Put(s, kind, content, x);
            Loaded(t, k) ==
            if o.Accepted? && k == kind then
              var es := Sorted(Parse(kind, content).value);
              (if Distinct(Undots(es)) then Some(Undots(es)) else None)
            else Loaded(s, k)
  {
    hide Parse, LoadedFrom, Written, Sorted, Clashes, ListOk, PutBack, Undots, Distinct, NoDotAtEnd, DomainsIn;
    FailedWriteLoadsTheSame(kind, Get(s, kind), x);
    if Parse(kind, content).Some? {
      var es := Parse(kind, content).value;
      ParsedIsOk(kind, content);
      SortedIsOk(kind, es);
      WrittenLoads(kind, Sorted(es));
    }
  }

  // ---- Exclusion ----

  /** No domain is in two readable lists. */
  predicate Exclusive(s: Store) {
    && Names(s, Block) * Names(s, Static) == {}
    && Names(s, Block) * Names(s, Domestic) == {}
    && Names(s, Static) * Names(s, Domestic) == {}
  }

  /** The names that reading the list back will show. */
  function ReadBackNames(es: seq<Entry>): set<string> {
    set i | 0 <= i < |es| :: Undotted(es[i].domain)
  }

  predicate NamesCoincide(es: seq<Entry>) {
    exists i, j :: 0 <= i < j < |es| && Undotted(es[i].domain) == Undotted(es[j].domain)
  }

  lemma ReadBackOfSorted(kind: Kind, es: seq<Entry>)
    requires ListOk(kind, es)
    ensures ReadBackNames(Sorted(es)) == ReadBackNames(es) == DomainsIn(Undots(Sorted(es)))
    ensures Distinct(Undots(Sorted(es))) <==> !NamesCoincide(es)
  {
    hide *;
    var t := Sorted(es);
    SortedIsOk(kind, es);
    OkIsDistinct(kind, es);
    OkIsDistinct(kind, t);
    forall e
      ensures e in t <==> e in es
    {
      SameMembers(es, e);
    }
    NamesFollowMembers(es, t);
    NamesFollowMembers(t, es);
    CoincideMoves(es, t);
    CoincideMoves(t, es);
    UndotsShow(t);
  }

  lemma OkIsDistinct(kind: Kind, es: seq<Entry>)
    requires ListOk(kind, es)
    ensures Distinct(es)
  {
  }

  lemma NamesFollowMembers(a: seq<Entry>, b: seq<Entry>)
    requires forall e :: e in a ==> e in b
    ensures ReadBackNames(a) <= ReadBackNames(b)
  {
    hide Undotted;
    forall i | 0 <= i < |a|
      ensures Undotted(a[i].domain) in ReadBackNames(b)
    {
      assert a[i] in b;
      var k :| 0 <= k < |b| && b[k] == a[i];
    }
  }

  lemma UndotsShow(t: seq<Entry>)
    ensures ReadBackNames(t) == DomainsIn(Undots(t))
    ensures Distinct(Undots(t)) <==> !NamesCoincide(t)
  {
    hide Undotted;
    assert forall i :: 0 <= i < |t| ==> Undots(t)[i].domain == Undotted(t[i].domain);
  }

  lemma CoincideMoves(a: seq<Entry>, b: seq<Entry>)
    requires Distinct(a) && Distinct(b) && forall e :: e in a ==> e in b
    ensures NamesCoincide(a) ==> NamesCoincide(b)
  {
    hide Undotted;
    if NamesCoincide(a) {
      var i, j :| 0 <= i < j < |a| && Undotted(a[i].domain) == Undotted(a[j].domain);
      assert a[i] in b && a[j] in b;
      var k :| 0 <= k < |b| && b[k] == a[i];
      var l :| 0 <= l < |b| && b[l] == a[j];
      if k < l {
        assert NamesCoincide(b);
      } else {
        assert l < k && Undotted(b[l].domain) == Undotted(b[k].domain);
      }
    }
  }

  /** What an accepted write leaves under its own name. */
  lemma PutNames(s: Store, kind: Kind, content: string)
    requires Put(s, kind, content, Fine).1.Accepted?
    ensures var t, es := Put(s, kind, content, Fine).0, Parse(kind, content).value;
            && Names(t, kind) == (if NamesCoincide(es) then {} else ReadBackNames(es))
            && forall k :: k != kind ==> Names(t, k) == Names(s, k)
  {
    hide Loaded, Sorted, Undots, NamesCoincide, ReadBackNames, DomainsIn, Parse, Clashes, Written, ListOk, Distinct;
    var es := Parse(kind, content).value;
    ParsedIsOk(kind, content);
    ReadBackOfSorted(kind, es);
    PutLoads(s, kind, content, Fine, kind);
    forall k | k != kind
      ensures Names(Put(s, kind, content, Fine).0, k) == Names(s, k)
    {
      PutLoads(s, kind, content, Fine, k);
    }
  }

  /**
   * Exactly when an accepted write keeps the lists exclusive: its names, read back without their trailing
   * dots, are free in the other lists (or coincide among themselves, which makes the list unreadable).
   */
  lemma ExclusionKeptIff(s: Store, kind: Kind, content: string)
    requires Exclusive(s) && Put(s, kind, content, Fine).1.Accepted?
    ensures var es := Parse(kind, content).value;
            Exclusive(Put(s, kind, content, Fine).0) <==> NamesCoincide(es) || ReadBackNames(es) * Taken(s, kind) == {}
  {
    hide Names, NamesCoincide, ReadBackNames, Parse, Put;
    PutNames(s, kind, content);
  }

  /** Without trailing dots every accepted write keeps the lists exclusive. */
  lemma ExclusionKept(s: Store, kind: Kind, content: string, x: Fault)
    requires Exclusive(s)
    requires Parse(kind, content).Some? ==> NoDotAtEnd(Parse(kind, content).value)
    ensures Exclusive(Put(s, kind, content, x).0)
  {
    hide Parse, NamesCoincide, ReadBackNames, Sorted, Written, ListOk, NoDotAtEnd, LoadedFrom, PutBack;
    var (t, o) := Put(s, kind, content, x);
    if o.Accepted? {
      var es := Parse(kind, content).value;
      ParsedIsOk(kind, content);
      SortedIsOk(kind, es);
      PlainNamesReadBack(es);
      ExclusionKeptIff(s, kind, content);
    } else {
      forall k
        ensures Names(t, k) == Names(s, k)
      {
        PutLoads(s, kind, content, x, k);
      }
    }
  }

  lemma PlainNamesReadBack(es: seq<Entry>)
    requires NoDotAtEnd(es)
    ensures ReadBackNames(es) == DomainsIn(es)
  {
    hide EndsInDot;
    assert forall i :: 0 <= i < |es| ==> !EndsInDot(es[i].domain) && Undotted(es[i].domain) == es[i].domain;
  }

  /** One name with two trailing dots parses as the name with one. */
  lemma DoubleDotParses(d: string)
    requires DomainText(d) && !EndsInDot(d)
    ensures DomainText(d + ".") && Parse(Block, d + "..") == Some([Entry(d + ".", "", [])])
  {
    DotAppended(d);
    hide DomainText, NormalizeDomain, Parse, EndsInDot;
    var dotted, line := d + ".", d + "..";
    assert line == dotted + ".";
    FqdnIsWord(dotted);
    NormalizeFqdn(dotted);
    DoubleDotLine(line, dotted);
  }

  lemma DotAppended(d: string)
    requires DomainText(d) && !EndsInDot(d)
    ensures DomainText(d + ".") && d[0] != '#'
  {
    var dotted := d + ".";
    assert dotted[..|d|] == d && dotted[|d|] == '.';
    forall i | 0 <= i < |dotted|
      ensures DomainChar(dotted[i]) && !(i < |dotted| - 1 && dotted[i] == '.' && dotted[i + 1] == '.')
    {
    }
  }

  lemma DoubleDotLine(line: string, dotted: string)
    requires IsWord(line) && '\n' !in line && line[0] != '#' && NormalizeDomain(line) == Some(dotted)
    ensures Parse(Block, line) == Some([Entry(dotted, "", [])])
  {
    hide NormalizeDomain, Fields, Split;
    IndexOfIs(line, '\n', |line|);
    SplitUnfolds(line, '\n');
    TrimSpaceFixes(line);
    FieldsJoin([line]);
    assert [line][1..] == [] && [] + [Entry(dotted, "", [])] == [Entry(dotted, "", [])];
    assert ParseLines(Block, [], [Entry(dotted, "", [])]) == Some([Entry(dotted, "", [])]);
  }

  /** The failing family: blocking `d..` is accepted while `d` is a static name, and then `d` is in both lists. */
  lemma DoubleDotBreaksExclusion(s: Store, d: string)
    requires DomainText(d) && !EndsInDot(d) && Exclusive(s)
    requires d in Names(s, Static) && d + "." !in Taken(s, Block)
    ensures Put(s, Block, d + "..", Fine).1.Accepted? && !Exclusive(Put(s, Block, d + "..", Fine).0)
  {
    hide Names, Parse, Exclusive, DomainText, EndsInDot;
    DoubleDotParses(d);
    var es := [Entry(d + ".", "", [])];
    assert Sorted(es) == es && DomainsIn(es) == {d + "."};
    DotDropped(d);
    assert ReadBackNames(es) == {d};
    ExclusionKeptIff(s, Block, d + "..");
    assert d in ReadBackNames(es) * Taken(s, Block);
  }

  lemma DotDropped(d: string)
    ensures Undotted(d + ".") == d
  {
  }

  const NOTHING: Store := Store(Snippet(None, None), Snippet(None, None), Snippet(None, None))

  /** From empty lists, naming `d` statically and then blocking `d..` ends with `d` in both lists. */
  lemma DoubleDotFromScratch(d: string, ip: Ipv4)
    requires DomainText(d) && !EndsInDot(d)
    ensures Exclusive(NOTHING)
    ensures var (s, o) := Put(NOTHING, Static, Format(Static, [Entry(d, FormatIpv4(ip), [])]), Fine);
            && o.Accepted? && Exclusive(s)
            && Put(s, Block, d + "..", Fine).1.Accepted? && !Exclusive(Put(s, Block, d + "..", Fine).0)
  {
    hide Parse, Format, Extract, Conf, DomainText, EndsInDot, Canonical, CanonIp, FormatIpv4;
    var es := [Entry(d, FormatIpv4(ip), [])];
    NothingHeld();
    FormatIsCanonical(ip);
    assert ListOk(Static, es) && NoDotAtEnd(es);
    FormatParsesIff(Static, es);
    assert Sorted(es) == es && DomainsIn(es) == {d};
    PlainNamesReadBack(es);
    PutNames(NOTHING, Static, Format(Static, es));
    var s := Put(NOTHING, Static, Format(Static, es), Fine).0;
    assert Names(s, Static) == {d} && Names(s, Block) == {} && Names(s, Domestic) == {};
    DoubleDotBreaksExclusion(s, d);
  }

  lemma NothingHeld()
    ensures forall k :: Names(NOTHING, k) == {}
  {
    hide Extract, Conf;
    forall k: Kind
      ensures Names(NOTHING, k) == {}
    {
      EmptyLoads(k);
    }
  }

  lemma FormatIsCanonical(ip: Ipv4)
    ensures Canonical(FormatIpv4(ip))
  {
    hide ParseIpv4, FormatIpv4;
    FormatIsQuadText(ip);
    Ipv4RoundTrip(ip);
    var s := FormatIpv4(ip);
    assert QuadChar(s[0]) && QuadChar(s[|s| - 1]);
    TrimSpaceFixes(s);
  }

  // ---- Runs ----

  datatype Write = Write(kind: Kind, content: string, x: Fault)

  function After(s: Store, ws: seq<Write>, n: nat): Store
    requires n <= |ws|
  {
    if n == 0 then s else Put(After(s, ws, n - 1), ws[n - 1].kind, ws[n - 1].content, ws[n - 1].x).0
  }

  /** No operator line spells a domain that still ends in a dot once parsed. */
  predicate PlainWrites(ws: seq<Write>) {
    forall i :: 0 <= i < |ws| ==> PlainWrite(ws[i])
  }

  predicate PlainWrite(w: Write) {
    Parse(w.kind, w.content).Some? ==> NoDotAtEnd(Parse(w.kind, w.content).value)
  }

  /** What the last accepted write of a list asked for, or what was loaded at first. */
  function LastAccepted(s: Store, ws: seq<Write>, n: nat, k: Kind): Option<seq<Entry>>
    requires n <= |ws|
  {
    if n == 0 then Loaded(s, k)
    else
      var w, before := ws[n - 1], After(s, ws, n - 1);
      if w.kind == k && Put(before, k, w.content, w.x).1.Accepted? then Some(Sorted(Parse(k, w.content).value))
      else LastAccepted(s, ws, n - 1, k)
  }

  /** Over any sequence of plain writes, starting exclusive, no domain is ever in two lists. */
  lemma {:induction false} AlwaysExclusive(s: Store, ws: seq<Write>, n: nat)
    requires n <= |ws| && PlainWrites(ws) && Exclusive(s)
    ensures Exclusive(After(s, ws, n))
  {
    hide Exclusive, Put, Parse, NoDotAtEnd;
    if n == 0 {
    } else {
      AlwaysExclusive(s, ws, n - 1);
      var w := ws[n - 1];
      assert PlainWrite(w);
      ExclusionKept(After(s, ws, n - 1), w.kind, w.content, w.x);
    }
  }

  /** Loading a list returns exactly the entries last accepted for it, an emptied list included. */
  lemma {:induction false} LoadedIsLastAccepted(s: Store, ws: seq<Write>, n: nat, k: Kind)
    requires n <= |ws| && PlainWrites(ws)
    ensures Loaded(After(s, ws, n), k) == LastAccepted(s, ws, n, k)
  {
    hide Loaded, Put, Parse, Sorted, NoDotAtEnd, Distinct, Undots;
    if n == 0 {
    } else {
      LoadedIsLastAccepted(s, ws, n - 1, k);
      var w, before := ws[n - 1], After(s, ws, n - 1);
      assert PlainWrite(w);
      PutLoads(before, w.kind, w.content, w.x, k);
      if w.kind == k && Put(before, k, w.content, w.x).1.Accepted? {
        AcceptedParses(before, w.kind, w.content, w.x);
        var es := Parse(k, w.content).value;
        ParsedIsOk(k, w.content);
        SortedIsOk(k, es);
        OkIsDistinct(k, Sorted(es));
        UndotsFixesIff(Sorted(es));
      }
    }
  }

  lemma AcceptedParses(s: Store, kind: Kind, content: string, x: Fault)
    requires Put(s, kind, content, x).1.Accepted?
    ensures Parse(kind, content).Some?
  {
    hide Parse;
  }
}
