/** Looking a domain up in a set of zones: by its suffixes, or by comparing it with every zone. */
module ZoneIndex {
  import opened Text

  datatype Relation = Exact | Parent | Child | Unrelated

  /** `Parent` says that the candidate is a zone the query lies in. */
  function DomainRelation(query: string, candidate: string): Relation {
    if query == candidate then Exact
    else if HasSuffix(query, "." + candidate) then Parent
    else if HasSuffix(candidate, "." + query) then Child
    else Unrelated
  }

  datatype Hit = Hit(zone: string, relation: Relation)

  // ---- Suffixes at a dot are joins of trailing labels ----

  lemma {:induction false} LaterLabelsAreSuffixes(parts: seq<string>, i: nat)
    requires 1 <= i < |parts|
    ensures HasSuffix(Join(parts, '.'), "." + Join(parts[i..], '.'))
    decreases i
  {
    var rest := Join(parts[1..], '.');
    assert parts == [parts[0]] + parts[1..];
    JoinCons(parts[0], '.', parts[1..]);
    var whole := Join(parts, '.');
    if i == 1 {
      assert whole[|parts[0]|..] == "." + rest;
    } else {
      LaterLabelsAreSuffixes(parts[1..], i - 1);
      assert parts[1..][i - 1..] == parts[i..];
      var tail := "." + Join(parts[i..], '.');
      assert whole[|whole| - |tail|..] == rest[|rest| - |tail|..];
    }
  }

  /** The index of the label that starts right after the dot at `at`. */
  lemma {:induction false} SuffixIsLaterLabels(s: string, at: nat) returns (i: nat)
    requires at < |s| && s[at] == '.'
    ensures 1 <= i < |Split(s, '.')| && Join(Split(s, '.')[i..], '.') == s[at + 1..]
    decreases |s|
  {
    hide Split, IndexOf;
    SplitUnfolds(s, '.');
    var d := IndexOf(s, '.');
    var rest := s[d + 1..];
    var parts := Split(s, '.');
    assert parts[1..] == Split(rest, '.');
    if d == at {
      JoinSplit(rest, '.');
      i := 1;
    } else {
      assert rest[at - d - 1] == s[at];
      var k := SuffixIsLaterLabels(rest, at - d - 1);
      i := k + 1;
      assert parts[1..][k..] == parts[i..];
      assert rest[at - d..] == s[at + 1..];
    }
  }

  /** One name lies below the other: the other is made of its labels from some later one on. */
  predicate LiesBelow(name: string, zone: string) {
    exists i :: 1 <= i < |Split(name, '.')| && zone == Join(Split(name, '.')[i..], '.')
  }

  /** A zone other than the domain is one of its later suffixes exactly when it relates as a parent. */
  lemma SuffixIff(domain: string, z: string)
    ensures HasSuffix(domain, "." + z) <==> LiesBelow(domain, z)
  {
    var parts := Split(domain, '.');
    JoinSplit(domain, '.');
    if HasSuffix(domain, "." + z) {
      var at := |domain| - |z| - 1;
      assert domain[at..][0] == '.' && domain[at..][1..] == z;
      var i := SuffixIsLaterLabels(domain, at);
      assert domain[at + 1..] == z;
    }
    forall i | 1 <= i < |parts|
      ensures HasSuffix(domain, "." + Join(parts[i..], '.'))
    {
      LaterLabelsAreSuffixes(parts, i);
    }
  }

  lemma LaterIsShorter(domain: string, i: nat)
    requires 1 <= i < |Split(domain, '.')|
    ensures |Join(Split(domain, '.')[i..], '.')| < |domain|
  {
    JoinSplit(domain, '.');
    LaterLabelsAreSuffixes(Split(domain, '.'), i);
  }

  lemma BelowIsLonger(name: string, zone: string)
    requires LiesBelow(name, zone)
    ensures |zone| < |name|
  {
    SuffixIff(name, zone);
  }

  /** The relation of two names, label by label: equal, one below the other, or neither. */
  lemma RelationIff(query: string, candidate: string)
    ensures match DomainRelation(query, candidate)
            case Exact => query == candidate
            case Parent => query != candidate && LiesBelow(query, candidate)
            case Child => query != candidate && LiesBelow(candidate, query)
            case Unrelated => query != candidate && !LiesBelow(query, candidate) && !LiesBelow(candidate, query)
    ensures !(LiesBelow(query, candidate) && LiesBelow(candidate, query))
  {
    hide Split, Join, HasSuffix, LiesBelow;
    SuffixIff(query, candidate);
    SuffixIff(candidate, query);
    if LiesBelow(query, candidate) {
      BelowIsLonger(query, candidate);
    }
    if LiesBelow(candidate, query) {
      BelowIsLonger(candidate, query);
    }
  }

  /** What a scan over all the zones reports: the exact match and the named parent zones. */
  predicate ScanReports(domain: string, zones: set<string>, h: Hit) {
    && h.zone in zones && h.relation == DomainRelation(domain, h.zone)
    && (h.relation.Exact? || (h.relation.Parent? && h.zone != ""))
  }

  /** The names made of the labels from `lo` on, for each `lo` from 1 up to `hi`. */
  function Suffixes(parts: seq<string>, hi: nat): set<string>
    requires hi <= |parts|
  {
    set k | 1 <= k < hi :: Join(parts[k..], '.')
  }

  predicate LongestFirst(hits: seq<Hit>) {
    forall i, j :: 0 <= i < j < |hits| ==> |hits[i].zone| > |hits[j].zone|
  }

  /** The suffix lookup reports exactly what the scan over all zones does, longest zone first. */
  method CnContains(domain: string, zones: set<string>) returns (hits: seq<Hit>)
    ensures forall h :: h in hits <==> ScanReports(domain, zones, h)
    ensures LongestFirst(hits)
  {
    hide Split, Join, HasSuffix, DomainRelation, LongestFirst, Suffixes;
    var parts := Split(domain, '.');
    OneOrNoneOrdered([]);
    OneOrNoneOrdered([Hit(domain, Exact)]);
    NoSuffixYet(parts);
    hits := [];
    if domain in zones {
      hits := [Hit(domain, Exact)];
    }
    ghost var exact := hits;
    FirstIsLonger(domain);
    for i := 1 to |parts|
      invariant forall h :: h in hits <==>
                h in exact || (h.relation.Parent? && h.zone != "" && h.zone in zones && h.zone in Suffixes(parts, i))
      invariant LongestFirst(hits)
      invariant i < |parts| && hits != [] ==> |hits[|hits| - 1].zone| > |Join(parts[i..], '.')|
    {
      var parent := Join(parts[i..], '.');
      NextSuffix(parts, i);
      if i + 1 < |parts| {
        LaterLabelsShrink(parts, i, i + 1);
      }
      if parent != "" && parent in zones {
        ShorterKeepsOrder(hits, Hit(parent, Parent));
        hits := hits + [Hit(parent, Parent)];
      }
    }
    SuffixesAreParents(domain);
  }

  lemma OneOrNoneOrdered(hits: seq<Hit>)
    requires |hits| <= 1
    ensures LongestFirst(hits)
  {
  }

  lemma NoSuffixYet(parts: seq<string>)
    requires parts != []
    ensures Suffixes(parts, 1) == {}
  {
  }

  lemma NextSuffix(parts: seq<string>, i: nat)
    requires 1 <= i < |parts|
    ensures Suffixes(parts, i + 1) == Suffixes(parts, i) + {Join(parts[i..], '.')}
  {
    hide Join;
  }

  lemma ShorterKeepsOrder(hits: seq<Hit>, h: Hit)
    requires LongestFirst(hits) && (hits != [] ==> |hits[|hits| - 1].zone| > |h.zone|)
    ensures LongestFirst(hits + [h])
  {
    forall i | 0 <= i < |hits|
      ensures |hits[i].zone| > |h.zone|
    {
      assert i == |hits| - 1 || |hits[i].zone| > |hits[|hits| - 1].zone|;
    }
  }

  lemma FirstIsLonger(domain: string)
    ensures |Split(domain, '.')| > 1 ==> |domain| > |Join(Split(domain, '.')[1..], '.')|
  {
    if |Split(domain, '.')| > 1 {
      LaterIsShorter(domain, 1);
    }
  }

  lemma SuffixesAreParents(domain: string)
    ensures forall z :: z in Suffixes(Split(domain, '.'), |Split(domain, '.')|) <==> DomainRelation(domain, z) == Parent
    ensures forall z :: DomainRelation(domain, z) == Exact <==> z == domain
  {
    hide Split, Join, HasSuffix;
    forall z
      ensures z in Suffixes(Split(domain, '.'), |Split(domain, '.')|) <==> DomainRelation(domain, z) == Parent
    {
      SuffixIff(domain, z);
      NotItsOwnSuffix(domain, z);
    }
  }

  lemma NotItsOwnSuffix(a: string, b: string)
    ensures HasSuffix(a, "." + b) ==> a != b
  {
  }

  lemma LaterLabelsShrink(parts: seq<string>, i: nat, l: nat)
    requires i < l < |parts|
    ensures |Join(parts[l..], '.')| < |Join(parts[i..], '.')|
  {
    LaterLabelsAreSuffixes(parts[i..], l - i);
    assert parts[i..][l - i..] == parts[l..];
  }
}
