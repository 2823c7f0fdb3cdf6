/** IPv4 prefixes: membership, overlap and list intersection. */
module Cidrs {
  import opened Net

  type PrefixLength = n: nat | n <= 32

  /** An address with a prefix length; a plain address has length 32. */
  datatype Cidr = Cidr(ip: Ipv4, len: PrefixLength)

  function Pow2(n: nat): (p: nat)
    ensures p > 0
  {
    if n == 0 then 1 else 2 * Pow2(n - 1)
  }

  function Size(c: Cidr): nat
  {
    Pow2(32 - c.len)
  }

  /** The address with its host bits cleared. */
  function Masked(ip: Ipv4, c: Cidr): Ipv4
  {
    RemainderWithin(ip, Size(c));
    ip - ip % Size(c)
  }

  lemma RemainderWithin(x: nat, size: nat)
    requires size > 0
    ensures 0 <= x % size <= x
  {
    assert x == size * (x / size) + x % size;
    MulMonotone(size, x / size);
  }

  lemma MulMonotone(size: int, k: int)
    requires size > 0
    ensures k >= 1 ==> size * k >= size
    ensures k == 0 ==> size * k == 0
    ensures k <= -1 ==> size * k <= -size
  {
    if k >= 1 {
      assert size * k == size + size * (k - 1);
      assert size * (k - 1) >= 0;
    } else if k <= -1 {
      assert size * k == -size + size * (k + 1);
      assert size * (-k - 1) >= 0;
    }
  }

  /** Quotient and remainder are unique. */
  lemma RemainderIs(x: int, q: int, r: int, size: int)
    requires size > 0 && x == size * q + r && 0 <= r < size
    ensures x % size == r
  {
    var k := x / size - q;
    assert x == size * (x / size) + x % size;
    assert size * k == size * (x / size) - size * q;
    MulMonotone(size, k);
  }

  predicate Contains(c: Cidr, ip: Ipv4)
  {
    Masked(ip, c) == Masked(c.ip, c)
  }

  /** Some entry of the list contains the address. */
  predicate InList(ip: Ipv4, cs: seq<Cidr>)
  {
    exists i :: 0 <= i < |cs| && Contains(cs[i], ip)
  }

  predicate Overlap(a: Cidr, b: Cidr)
  {
    Contains(a, Masked(b.ip, b)) || Contains(b, Masked(a.ip, a))
  }

  // ---- A prefix is an interval ----

  lemma BlockIsInterval(ip: int, base: int, q: int, size: int)
    requires size > 0 && base == size * q
    ensures ip - ip % size == base <==> base <= ip < base + size
  {
    if base <= ip < base + size {
      RemainderIs(ip, q, ip - base, size);
    }
  }

  lemma ContainsIsInterval(c: Cidr, ip: Ipv4)
    ensures Contains(c, ip) <==> Masked(c.ip, c) <= ip < Masked(c.ip, c) + Size(c)
  {
    BlockIsInterval(ip, Masked(c.ip, c), c.ip / Size(c), Size(c));
  }

  lemma ContainsOwn(c: Cidr)
    ensures Contains(c, c.ip) && Contains(c, Masked(c.ip, c))
  {
    ContainsIsInterval(c, Masked(c.ip, c));
  }

  /** Two prefixes overlap exactly when they share an address. */
  lemma OverlapIff(a: Cidr, b: Cidr)
    ensures Overlap(a, b) <==> exists ip: Ipv4 :: Contains(a, ip) && Contains(b, ip)
  {
    ContainsOwn(a);
    ContainsOwn(b);
    forall ip: Ipv4 | Contains(a, ip) && Contains(b, ip)
      ensures Overlap(a, b)
    {
      ContainsIsInterval(a, ip);
      ContainsIsInterval(b, ip);
      ContainsIsInterval(a, Masked(b.ip, b));
      ContainsIsInterval(b, Masked(a.ip, a));
    }
  }

  // ---- Lists ----

  predicate ListsMeet(a: seq<Cidr>, b: seq<Cidr>)
  {
    exists ip: Ipv4 :: InList(ip, a) && InList(ip, b)
  }

  /** The search loop over one list. */
  method IpInList(ip: Ipv4, cs: seq<Cidr>) returns (found: bool)
    ensures found <==> InList(ip, cs)
  {
    for i := 0 to |cs|
      invariant forall j :: 0 <= j < i ==> !Contains(cs[j], ip)
    {
      if Contains(cs[i], ip) {
        return true;
      }
    }
    return false;
  }

  lemma MeetAt(a: seq<Cidr>, b: seq<Cidr>, i: nat, j: nat)
    requires i < |a| && j < |b| && Overlap(a[i], b[j])
    ensures ListsMeet(a, b)
  {
    OverlapIff(a[i], b[j]);
    var ip: Ipv4 :| Contains(a[i], ip) && Contains(b[j], ip);
    assert InList(ip, a) && InList(ip, b);
  }

  /** The nested search finds an overlap exactly when the lists share an address. */
  method ListsIntersect(a: seq<Cidr>, b: seq<Cidr>) returns (meet: bool)
    ensures meet <==> ListsMeet(a, b)
  {
    for i := 0 to |a|
      invariant forall k, l :: 0 <= k < i && 0 <= l < |b| ==> !Overlap(a[k], b[l])
    {
      var own := IpInList(a[i].ip, b);
      if own {
        ContainsOwn(a[i]);
        assert InList(a[i].ip, a);
        return true;
      }
      for j := 0 to |b|
        invariant forall l :: 0 <= l < j ==> !Overlap(a[i], b[l])
      {
        if Overlap(a[i], b[j]) {
          MeetAt(a, b, i, j);
          return true;
        }
      }
    }
    forall ip: Ipv4 | InList(ip, a) && InList(ip, b)
      ensures false
    {
      var k :| 0 <= k < |a| && Contains(a[k], ip);
      var l :| 0 <= l < |b| && Contains(b[l], ip);
      OverlapIff(a[k], b[l]);
    }
    return false;
  }
}
