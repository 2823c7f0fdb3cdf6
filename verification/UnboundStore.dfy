/** The three operator lists on disk, the cross-list audit, and a write. */
module UnboundStore {
  import opened Net
  import opened UnboundDsl
  import opened UnboundConf
  import opened UnboundFiles
  import opened ZoneIndex

  /** A list file and its generated include file; a missing file is `None`. */
  datatype Snippet = Snippet(list: Option<string>, conf: Option<string>)

  datatype Store = Store(block: Snippet, statics: Snippet, domestic: Snippet)

  const KINDS: set<Kind> := {Block, Static, Domestic}

  function Get(s: Store, k: Kind): Snippet {
    match k
    case Block => s.block
    case Static => s.statics
    case Domestic => s.domestic
  }

  function With(s: Store, k: Kind, sn: Snippet): Store {
    match k
    case Block => s.(block := sn)
    case Static => s.(statics := sn)
    case Domestic => s.(domestic := sn)
  }

  function ConfText(k: Kind, sn: Snippet): string {
    if sn.conf.Some? then sn.conf.value else Conf(k, [])
  }

  /** The entries of a list: its own, or those of the include file when it has none. Unreadable is `None`. */
  function LoadedFrom(k: Kind, sn: Snippet): Option<seq<Entry>> {
    if sn.list.Some? && Parse(k, sn.list.value) != Some([]) then Parse(k, sn.list.value)
    else Some(Extract(k, ConfText(k, sn)))
  }

  function Loaded(s: Store, k: Kind): Option<seq<Entry>> {
    LoadedFrom(k, Get(s, k))
  }

  method LoadOperatorEntries(k: Kind, sn: Snippet) returns (r: Option<seq<Entry>>)
    ensures r == LoadedFrom(k, sn)
  {
    hide Parse, Extract, Conf;
    if sn.list.Some? {
      var es := ParseDsl(k, sn.list.value);
      if es.None? || es.value != [] {
        return es;
      }
    }
    var conf: string;
    if sn.conf.Some? {
      conf := sn.conf.value;
    } else {
      conf := GenerateConf(k, []);
    }
    var found := ExtractEntries(k, conf);
    return Some(found);
  }

  // ---- Audit ----

  function DomainsIn(es: seq<Entry>): set<string> {
    set i | 0 <= i < |es| :: es[i].domain
  }

  /** The domains of a readable list; an unreadable one holds none the audit could see. */
  function Names(s: Store, k: Kind): set<string> {
    var es := Loaded(s, k);
    if es.None? then {} else DomainsIn(es.value)
  }

  function Taken(s: Store, k: Kind): set<string> {
    match k
    case Block => Names(s, Static) + Names(s, Domestic)
    case Static => Names(s, Block) + Names(s, Domestic)
    case Domestic => Names(s, Block) + Names(s, Static)
  }

  datatype Source = Operator(kind: Kind) | Cn

  datatype Level = Deny | Warn | Info

  datatype Report = Report(source: Source, domain: string, relation: Relation, level: Level)

  function OperatorReports(k: Kind, query: string, names: set<string>): set<Report> {
    set n | n in names && DomainRelation(query, n) != Unrelated ::
      Report(Operator(k), n, DomainRelation(query, n), if query == n then Deny else Warn)
  }

  function CnReports(kind: Kind, query: string, zones: set<string>): set<Report> {
    set z | z in zones && ScanReports(query, zones, Hit(z, DomainRelation(query, z))) ::
      Report(Cn, z, DomainRelation(query, z), if kind.Domestic? then Info else Warn)
  }

  /** What the lists of the given kinds and the zones have to say about one domain. */
  function ListReports(s: Store, kinds: set<Kind>, query: string): set<Report> {
    (if Block in kinds then OperatorReports(Block, query, Names(s, Block)) else {})
    + (if Static in kinds then OperatorReports(Static, query, Names(s, Static)) else {})
    + (if Domestic in kinds then OperatorReports(Domestic, query, Names(s, Domestic)) else {})
  }

  function EntryReports(s: Store, zones: set<string>, kind: Kind, query: string): set<Report> {
    ListReports(s, KINDS - {kind}, query) + CnReports(kind, query, zones)
  }

  function AllReports(s: Store, zones: set<string>, kind: Kind, es: seq<Entry>): set<Report> {
    if es == [] then {}
    else AllReports(s, zones, kind, es[..|es| - 1]) + EntryReports(s, zones, kind, es[|es| - 1].domain)
  }

  /** Some entry is already in another list. */
  predicate Clashes(s: Store, kind: Kind, es: seq<Entry>) {
    DomainsIn(es) * Taken(s, kind) != {}
  }

  method CompareWith(k: Kind, query: string, others: seq<Entry>) returns (hits: set<Report>, denied: bool)
    ensures hits == OperatorReports(k, query, DomainsIn(others))
    ensures denied <==> query in DomainsIn(others)
  {
    hits, denied := {}, false;
    for i := 0 to |others|
      invariant hits == OperatorReports(k, query, DomainsIn(others[..i]))
      invariant denied <==> query in DomainsIn(others[..i])
    {
      var name := others[i].domain;
      assert DomainsIn(others[..i + 1]) == DomainsIn(others[..i]) + {name};
      var relation := DomainRelation(query, name);
      if relation != Unrelated {
        hits := hits + {Report(Operator(k), name, relation, if relation.Exact? then Deny else Warn)};
      }
      denied := denied || relation.Exact?;
    }
    assert others[..|others|] == others;
  }

  /** One entry against the other lists, in any order, and the zones. */
  method AuditEntry(s: Store, zones: set<string>, kind: Kind, query: string) returns (hits: set<Report>, denied: bool)
    ensures hits == EntryReports(s, zones, kind, query)
    ensures denied <==> query in Taken(s, kind)
  {
    hide LoadedFrom, OperatorReports, ScanReports;
    hits, denied := {}, false;
    ghost var seen: set<Kind> := {};
    var left := KINDS - {kind};
    while left != {}
      invariant left !! seen && left + seen == KINDS - {kind}
      invariant hits == ListReports(s, seen, query)
      invariant denied <==> exists k :: k in seen && query in Names(s, k)
      decreases left
    {
      var k :| k in left;
      left, seen := left - {k}, seen + {k};
      var others := LoadOperatorEntries(k, Get(s, k));
      if others.Some? {
        var more, clash := CompareWith(k, query, others.value);
        hits, denied := hits + more, denied || clash;
      } else {
        assert OperatorReports(k, query, Names(s, k)) == {} by {
          NothingToReport(k, query);
        }
      }
    }
    var found := CnContains(query, zones);
    var cn: set<Report> := {};
    for i := 0 to |found|
      invariant cn == set h | h in found[..i] :: Report(Cn, h.zone, h.relation, if kind.Domestic? then Info else Warn)
    {
      assert found[..i + 1] == found[..i] + [found[i]];
      cn := cn + {Report(Cn, found[i].zone, found[i].relation, if kind.Domestic? then Info else Warn)};
    }
    assert found[..|found|] == found;
    FoundIsReported(kind, query, zones, found);
    hits := hits + cn;
  }

  lemma NothingToReport(k: Kind, query: string)
    ensures OperatorReports(k, query, {}) == {}
  {
  }

  lemma FoundIsReported(kind: Kind, query: string, zones: set<string>, found: seq<Hit>)
    requires forall h :: h in found <==> ScanReports(query, zones, h)
    ensures CnReports(kind, query, zones) ==
            set h | h in found :: Report(Cn, h.zone, h.relation, if kind.Domestic? then Info else Warn)
  {
    hide DomainRelation;
    var level := if kind.Domestic? then Info else Warn;
    forall h | h in found
      ensures Report(Cn, h.zone, h.relation, level) in CnReports(kind, query, zones)
    {
      assert h == Hit(h.zone, DomainRelation(query, h.zone));
    }
    forall z | z in zones && ScanReports(query, zones, Hit(z, DomainRelation(query, z)))
      ensures Hit(z, DomainRelation(query, z)) in found
    {
    }
  }

  /** The write is denied exactly when some entry is already in another readable list. */
  method AuditWrite(s: Store, zones: set<string>, kind: Kind, es: seq<Entry>) returns (hits: set<Report>, denied: bool)
    ensures hits == AllReports(s, zones, kind, es)
    ensures denied <==> Clashes(s, kind, es)
  {
    hide EntryReports, Taken;
    hits, denied := {}, false;
    for i := 0 to |es|
      invariant hits == AllReports(s, zones, kind, es[..i])
      invariant denied <==> Clashes(s, kind, es[..i])
    {
      var more, clash := AuditEntry(s, zones, kind, es[i].domain);
      assert es[..i + 1][..i] == es[..i];
      assert DomainsIn(es[..i + 1]) == DomainsIn(es[..i]) + {es[i].domain};
      OneMoreClash(DomainsIn(es[..i]), es[i].domain, Taken(s, kind));
      hits, denied := hits + more, denied || clash;
    }
    assert es[..|es|] == es;
  }

  lemma OneMoreClash(names: set<string>, n: string, taken: set<string>)
    ensures (names + {n}) * taken != {} <==> names * taken != {} || n in taken
  {
    if names * taken != {} {
      var m :| m in names * taken;
      assert m in (names + {n}) * taken;
    }
    if n in taken {
      assert n in (names + {n}) * taken;
    }
  }

  // ---- What is reported ----

  /** The report is due for an entry: another list holds the same name or one above or below it, which denies the
      write in the first case and warns in the others; or the CN zones hold the name or one above it, which warns,
      or informs when the entry is itself a forwarded one. */
  predicate Due(s: Store, zones: set<string>, kind: Kind, query: string, r: Report) {
    match r.source
    case Operator(k) =>
      && k != kind && r.domain in Names(s, k)
      && (match r.relation
          case Exact => query == r.domain && r.level == Deny
          case Parent => LiesBelow(query, r.domain) && r.level == Warn
          case Child => LiesBelow(r.domain, query) && r.level == Warn
          case Unrelated => false)
    case Cn =>
      && r.domain in zones && (r.level == if kind.Domestic? then Info else Warn)
      && (match r.relation
          case Exact => query == r.domain
          case Parent => LiesBelow(query, r.domain) && r.domain != ""
          case _ => false)
  }

  lemma EntryReportsIff(s: Store, zones: set<string>, kind: Kind, query: string, r: Report)
    ensures r in EntryReports(s, zones, kind, query) <==> Due(s, zones, kind, query, r)
  {
    hide LiesBelow, DomainRelation, Names;
    RelationIff(query, r.domain);
    NotBelowItself(query);
    match r.source {
      case Operator(k) =>
        OperatorReported(s, kind, query, r);
      case Cn =>
    }
  }

  lemma NotBelowItself(n: string)
    ensures !LiesBelow(n, n)
  {
    hide LiesBelow;
    if LiesBelow(n, n) {
      BelowIsLonger(n, n);
    }
  }

  lemma OperatorReported(s: Store, kind: Kind, query: string, r: Report)
    requires r.source.Operator?
    ensures var k := r.source.kind;
            r in ListReports(s, KINDS - {kind}, query) <==> k != kind && r in OperatorReports(k, query, Names(s, k))
  {
    hide DomainRelation, Names;
  }

  /** The audit reports exactly what is due for some entry of the write. */
  lemma {:induction false} ReportsIff(s: Store, zones: set<string>, kind: Kind, es: seq<Entry>, r: Report)
    ensures r in AllReports(s, zones, kind, es) <==>
            exists i :: 0 <= i < |es| && Due(s, zones, kind, es[i].domain, r)
    decreases |es|
  {
    hide Due, EntryReports;
    if es == [] {
    } else {
      var front, last := es[..|es| - 1], |es| - 1;
      ReportsIff(s, zones, kind, front, r);
      EntryReportsIff(s, zones, kind, es[last].domain, r);
      if i :| 0 <= i < |front| && Due(s, zones, kind, front[i].domain, r) {
        assert front[i] == es[i];
      }
      if i :| 0 <= i < |es| && Due(s, zones, kind, es[i].domain, r) {
        assert i == last || front[i] == es[i];
      }
    }
  }

  /** A write is denied exactly when one of its reports says so. */
  lemma DeniedIffReported(s: Store, zones: set<string>, kind: Kind, es: seq<Entry>)
    ensures Clashes(s, kind, es) <==> exists r :: r in AllReports(s, zones, kind, es) && r.level == Deny
  {
    hide AllReports, Names, LiesBelow;
    if Clashes(s, kind, es) {
      var n :| n in DomainsIn(es) * Taken(s, kind);
      var i :| 0 <= i < |es| && es[i].domain == n;
      var k := ListWith(s, kind, n);
      var r := Report(Operator(k), n, Exact, Deny);
      assert Due(s, zones, kind, es[i].domain, r);
      ReportsIff(s, zones, kind, es, r);
    }
    if r :| r in AllReports(s, zones, kind, es) && r.level == Deny {
      ReportsIff(s, zones, kind, es, r);
      var i :| 0 <= i < |es| && Due(s, zones, kind, es[i].domain, r);
      assert r.domain in DomainsIn(es) * Taken(s, kind);
    }
  }

  lemma ListWith(s: Store, kind: Kind, n: string) returns (k: Kind)
    requires n in Taken(s, kind)
    ensures k != kind && n in Names(s, k)
  {
    hide Names;
    k := if kind != Block && n in Names(s, Block) then Block
         else if kind != Static && n in Names(s, Static) then Static else Domestic;
  }

  // ---- Writing ----

  datatype Fault = Fine | NotWritten | ConfNotRenamed | CheckFails

  datatype Outcome = BadList | Denied | Failed | Accepted

  function Text0(o: Option<string>): string {
    if o.Some? then o.value else ""
  }

  /** A failed step puts the old texts back; a file that was missing becomes an empty one. */
  function PutBack(sn: Snippet, x: Fault): Snippet {
    match x
    case ConfNotRenamed => sn.(list := Some(Text0(sn.list)))
    case CheckFails => Snippet(Some(Text0(sn.list)), Some(Text0(sn.conf)))
    case _ => sn
  }

  function Written(k: Kind, es: seq<Entry>): Snippet {
    Snippet(Some(Format(k, es)), Some(Conf(k, es)))
  }

  function Put(s: Store, kind: Kind, content: string, x: Fault): (Store, Outcome) {
    var parsed := Parse(kind, content);
    if parsed.None? then (s, BadList)
    else
      var es := Sorted(parsed.value);
      if Clashes(s, kind, es) then (s, Denied)
      else if x.Fine? then (With(s, kind, Written(kind, es)), Accepted)
      else (With(s, kind, PutBack(Get(s, kind), x)), Failed)
  }

  class Manager {
    var files: Store
    var zones: set<string>

    method PutSnippet(kind: Kind, content: string, x: Fault) returns (o: Outcome, hits: set<Report>)
      modifies this`files
      ensures (files, o) == Put(old(files), kind, content, x)
      ensures o.Denied? || o.Accepted? ==>
                && Parse(kind, content).Some?
                && hits == AllReports(old(files), zones, kind, Sorted(Parse(kind, content).value))
    {
      hide Parse, Sorted, Clashes, AllReports, Format, Conf;
      var parsed := ParseDsl(kind, content);
      if parsed.None? {
        return BadList, {};
      }
      var es := SortEntries(parsed.value);
      var denied: bool;
      hits, denied := AuditWrite(files, zones, kind, es);
      if denied {
        return Denied, hits;
      }
      var conf := GenerateConf(kind, es);
      var dsl := FormatDsl(kind, es);
      var orig := Get(files, kind);
      if x.NotWritten? {
        SameSnippet(files, kind);
        return Failed, hits;
      }
      files := With(files, kind, orig.(list := Some(dsl)));
      if x.ConfNotRenamed? {
        files := With(files, kind, Get(files, kind).(list := Some(Text0(orig.list))));
        return Failed, hits;
      }
      files := With(files, kind, Get(files, kind).(conf := Some(conf)));
      if x.CheckFails? {
        files := With(files, kind, Snippet(Some(Text0(orig.list)), Some(Text0(orig.conf))));
        return Failed, hits;
      }
      return Accepted, hits;
    }
  }

  lemma SameSnippet(s: Store, k: Kind)
    ensures With(s, k, Get(s, k)) == s
  {
  }
}
