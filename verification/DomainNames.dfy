/** Domain-group members: exact names and one-label wildcards, and when two members can meet. */
module DomainNames {
  import opened Text

  function CanonDomain(token: string): string {
    TrimSpace(ToLower(TrimSuffix(token, ".")))
  }

  predicate IsWildcard(token: string) {
    HasPrefix(CanonDomain(token), "*.")
  }

  function WildcardSuffix(member: string): string {
    var m := CanonDomain(member);
    if HasPrefix(m, "*.") then m[2..] else ""
  }

  /** An exact member is equal to the name; `*.s` covers exactly one label before `s`. */
  predicate QNameMatches(qname: string, member: string) {
    CanonMatches(CanonDomain(qname), CanonDomain(member))
  }

  predicate CanonMatches(q: string, m: string) {
    if q == "" || m == "" then false
    else if IsWildcard(m) then
      var suffix := WildcardSuffix(m);
      if suffix == "" || q == suffix || !HasSuffix(q, "." + suffix) then false
      else
        var prefix := TrimSuffix(q, "." + suffix);
        prefix != "" && '.' !in prefix
    else q == m
  }

  predicate MembersMayMeet(a0: string, b0: string) {
    var a, b := CanonDomain(a0), CanonDomain(b0);
    if a == "" || b == "" then false
    else if a == b then true
    else if IsWildcard(a) && !IsWildcard(b) then QNameMatches(b, a)
    else if IsWildcard(b) && !IsWildcard(a) then QNameMatches(a, b)
    else false
  }

  predicate DomainMatches(qname: string, members: seq<string>) {
    exists i :: 0 <= i < |members| && QNameMatches(qname, members[i])
  }

  /** What normalisation leaves in a group: a non-empty canonical name. */
  predicate Canonical(m: string) {
    m != "" && CanonDomain(m) == m
  }

  // ---- When two members share a name ----

  lemma LowerFixed(s: string)
    ensures ToLower(s) == s <==> forall i :: 0 <= i < |s| ==> LowerChar(s[i]) == s[i]
  {
  }

  /** A name is canonical when it is trimmed, lower-case and does not end in a dot. */
  lemma CanonicalIff(s: string)
    ensures CanonDomain(s) == s <==> Trimmed(s) && ToLower(s) == s && !HasSuffix(s, ".")
  {
    TrimSpaceFixes(s);
    var t := TrimSuffix(s, ".");
    if CanonDomain(s) == s {
      assert |TrimSpace(ToLower(t))| <= |t|;
      assert t == s;
      assert |TrimLeft(ToLower(s))| == |s|;
    }
  }

  /** What a canonical member covers, on canonical names. */
  predicate Covers(m: string, q: string) {
    if HasPrefix(m, "*.") then
      var dotted := m[1..];
      |dotted| > 1 && |q| > |dotted| && q[|q| - |dotted|..] == dotted && '.' !in q[..|q| - |dotted|]
    else q == m
  }

  lemma MatchesCovers(q: string, m: string)
    requires Canonical(m)
    ensures QNameMatches(q, m) <==> CanonDomain(q) != "" && Covers(m, CanonDomain(q))
  {
    CanonMatchesCovers(CanonDomain(q), m);
  }

  lemma CanonMatchesCovers(n: string, m: string)
    requires Canonical(m)
    ensures CanonMatches(n, m) <==> n != "" && Covers(m, n)
  {
    if HasPrefix(m, "*.") {
      var dotted, k := m[1..], |n| - |m[1..]|;
      assert dotted == "." + m[2..] && WildcardSuffix(m) == m[2..];
      if k >= 0 && n[k..] == dotted {
        assert TrimSuffix(n, dotted) == n[..k];
      }
    }
  }

  /** A name is in a group exactly when some member covers it. */
  lemma GroupCovers(q: string, members: seq<string>)
    requires forall i :: 0 <= i < |members| ==> Canonical(members[i])
    ensures DomainMatches(q, members) <==> CanonDomain(q) != "" && exists m :: m in members && Covers(m, CanonDomain(q))
  {
    hide QNameMatches, Covers, CanonDomain, Canonical;
    forall i | 0 <= i < |members|
      ensures QNameMatches(q, members[i]) <==> CanonDomain(q) != "" && Covers(members[i], CanonDomain(q))
    {
      MatchesCovers(q, members[i]);
    }
    if m :| m in members && Covers(m, CanonDomain(q)) {
      var i :| 0 <= i < |members| && members[i] == m;
    }
  }

  /** A member without a name meets nothing. */
  lemma NothingMeetsNobody(a: string, b: string)
    requires CanonDomain(a) == "" || CanonDomain(b) == ""
    ensures !MembersMayMeet(a, b)
  {
  }

  /** Any wildcard covers some name. */
  lemma WildcardWitness(a: string)
    requires Canonical(a) && HasPrefix(a, "*.")
    ensures Canonical("x" + a[1..]) && Covers(a, "x" + a[1..])
  {
    hide Canonical, CanonDomain, Trimmed, ToLower, HasSuffix, Covers;
    CanonicalParts(a);
    StarReplaced(a, "x" + a[1..]);
    CanonicalIff("x" + a[1..]);
    StarCovers(a);
    TextIsCanonical("x" + a[1..]);
  }

  lemma CanonicalParts(a: string)
    requires Canonical(a)
    ensures Trimmed(a) && ToLower(a) == a && !HasSuffix(a, ".")
  {
    hide Trimmed, ToLower, HasSuffix, CanonDomain;
    CanonicalIff(a);
  }

  lemma TextIsCanonical(q: string)
    requires CanonDomain(q) == q && q != ""
    ensures Canonical(q)
  {
  }

  /** One label in the place of the star is what the wildcard covers. */
  lemma StarCovers(a: string)
    requires HasPrefix(a, "*.") && !HasSuffix(a, ".")
    ensures Covers(a, "x" + a[1..]) && "x" + a[1..] != ""
  {
    var q := "x" + a[1..];
    assert a[|a| - 1..] == [a[|a| - 1]];
    assert q[1..] == a[1..] && q[..1] == "x";
  }

  lemma StarReplaced(a: string, q: string)
    requires HasPrefix(a, "*.") && Trimmed(a) && ToLower(a) == a && !HasSuffix(a, ".") && q == "x" + a[1..]
    ensures Trimmed(q) && ToLower(q) == q && !HasSuffix(q, ".")
  {
    assert a[|a| - 1..] == [a[|a| - 1]];
    assert |a| != 2;
    assert q[|q| - 1] == a[|a| - 1];
    assert forall i :: 1 <= i < |q| ==> q[i] == a[i];
    LowerFixed(a);
    LowerFixed(q);
  }

  /** A wildcard splits a name it covers at the name's first dot. */
  lemma WildcardSplits(q: string, a: string)
    requires HasPrefix(a, "*.") && Covers(a, q)
    ensures q[IndexOf(q, '.')..] == a[1..]
  {
    var k := |q| - |a[1..]|;
    assert q[k] == q[k..][0] == '.';
    forall j | 0 <= j < k ensures q[j] != '.' {
      assert q[j] == q[..k][j];
    }
    IndexOfIs(q, '.', k);
  }

  /** A wildcard and an exact member that cover a common name may meet, in either order. */
  lemma WildcardMeetsExact(a: string, b: string)
    requires Canonical(a) && Canonical(b) && HasPrefix(a, "*.") && !HasPrefix(b, "*.") && Covers(a, b)
    ensures MembersMayMeet(a, b) && MembersMayMeet(b, a)
  {
    CanonMatchesCovers(b, a);
  }

  /** Two canonical members that cover a common name may meet. */
  lemma CoversMeet(a: string, b: string, q: string)
    requires Canonical(a) && Canonical(b) && Covers(a, q) && Covers(b, q)
    ensures MembersMayMeet(a, b)
  {
    hide CanonDomain, WildcardSuffix, CanonMatches, TrimSuffix, ToLower;
    if HasPrefix(a, "*.") && HasPrefix(b, "*.") {
      WildcardSplits(q, a);
      WildcardSplits(q, b);
      hide CanonMatches, WildcardSuffix, IsWildcard, Covers, IndexOf;
      assert a == ['*'] + a[1..] && b == ['*'] + b[1..];
    } else if HasPrefix(a, "*.") {
      WildcardMeetsExact(a, b);
    } else if HasPrefix(b, "*.") {
      WildcardMeetsExact(b, a);
    }
  }

  /** Two normalised members may meet exactly when some name matches both. */
  lemma MembersMeetIff(a: string, b: string)
    requires Canonical(a) && Canonical(b)
    ensures MembersMayMeet(a, b) <==> exists q :: QNameMatches(q, a) && QNameMatches(q, b)
  {
    if MembersMayMeet(a, b) {
      var q := if !HasPrefix(a, "*.") then a else if !HasPrefix(b, "*.") then b else "x" + a[1..];
      if HasPrefix(a, "*.") {
        WildcardWitness(a);
      }
      MatchesCovers(q, a);
      MatchesCovers(q, b);
      MatchesCovers(b, a);
      MatchesCovers(a, b);
      assert QNameMatches(q, a) && QNameMatches(q, b);
    }
    forall q | QNameMatches(q, a) && QNameMatches(q, b)
      ensures MembersMayMeet(a, b)
    {
      MatchesCovers(q, a);
      MatchesCovers(q, b);
      CoversMeet(a, b, CanonDomain(q));
    }
  }
}
