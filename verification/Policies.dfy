/** User policies: the probe that evaluates them one by one, validation, and the shadowing analysis. */
module Policies {
  import opened Net
  import opened Cidrs
  import opened DomainNames

  datatype Kind = SrcCidr | DstCidr | DomainKind

  /** A group holds prefixes or domain members, depending on its kind. */
  datatype Group = Group(id: string, kind: Kind, nets: seq<Cidr>, domains: seq<string>)

  type Groups = map<string, Group>

  datatype Action = Direct | Proxy

  datatype Status = Unknown | Active | Shadowed

  datatype Policy = Policy(
    id: string, enabled: bool, rank: nat,
    src: Option<string>, dst: Option<string>, dom: Option<string>,
    action: Action, ack: bool, status: Status)

  /** What normalising groups leaves: valid prefixes, canonical names, nobody empty. */
  predicate GroupsOk(gm: Groups) {
    forall id :: id in gm ==>
      && (forall m :: m in gm[id].domains ==> Canonical(m))
      && (if gm[id].kind.DomainKind? then gm[id].domains != [] else gm[id].nets != [])
  }

  /** A policy names at least one group, not both a prefix and a domain destination, all of the right kind. */
  predicate PolicyOk(p: Policy, gm: Groups) {
    && (p.src.Some? || p.dst.Some? || p.dom.Some?)
    && !(p.dst.Some? && p.dom.Some?)
    && (p.src.Some? ==> p.src.value in gm && gm[p.src.value].kind.SrcCidr?)
    && (p.dst.Some? ==> p.dst.value in gm && gm[p.dst.value].kind.DstCidr?)
    && (p.dom.Some? ==> p.dom.value in gm && gm[p.dom.value].kind.DomainKind?)
  }

  // ---- The probe ----

  /** Where a probe goes: an address, or a name with the addresses it resolved to. */
  datatype Target = ToAddress(ip: Ipv4) | ToName(name: string, resolved: seq<Cidr>)

  datatype Request = Request(src: Option<Ipv4>, target: Target)

  datatype Snapshot = Snapshot(bypass: seq<Cidr>, toCn: seq<Cidr>, extConst: seq<Cidr>, ext: seq<Cidr>)

  const PRIVATE_NETS: seq<Cidr> := [
    Cidr(0x0A00_0000, 8), Cidr(0x7F00_0000, 8), Cidr(0xAC10_0000, 12), Cidr(0xC0A8_0000, 16)]

  lemma BlockSizes()
    ensures Pow2(24) == 0x100_0000 && Pow2(20) == 0x10_0000 && Pow2(16) == 0x1_0000
  {
    assert Pow2(8) == 256;
    assert Pow2(16) == 0x1_0000;
    assert Pow2(20) == 0x10_0000;
    assert Pow2(24) == 0x100_0000;
  }

  /** A private network as an interval of addresses. */
  lemma PrivateNet(i: nat, ip: Ipv4)
    requires i < |PRIVATE_NETS|
    ensures Contains(PRIVATE_NETS[i], ip) <==>
            match i
            case 0 => 0x0A00_0000 <= ip < 0x0B00_0000
            case 1 => 0x7F00_0000 <= ip < 0x8000_0000
            case 2 => 0xAC10_0000 <= ip < 0xAC20_0000
            case _ => 0xC0A8_0000 <= ip < 0xC0A9_0000
  {
    var c := PRIVATE_NETS[i];
    ContainsIsInterval(c, ip);
    BlockSizes();
    assert Masked(c.ip, c) == c.ip;
  }

  /** The private networks, octet by octet. */
  lemma PrivateIff(ip: Ipv4)
    ensures InList(ip, PRIVATE_NETS) <==>
            || Octet0(ip) == 10 || Octet0(ip) == 127
            || (Octet0(ip) == 172 && 16 <= Octet1(ip) <= 31)
            || (Octet0(ip) == 192 && Octet1(ip) == 168)
  {
    hide Contains;
    PrivateNet(0, ip);
    PrivateNet(1, ip);
    PrivateNet(2, ip);
    PrivateNet(3, ip);
    assert InList(ip, PRIVATE_NETS) <==>
           || Contains(PRIVATE_NETS[0], ip) || Contains(PRIVATE_NETS[1], ip)
           || Contains(PRIVATE_NETS[2], ip) || Contains(PRIVATE_NETS[3], ip);
  }

  function DstOf(t: Target): Option<Ipv4> {
    match t
    case ToAddress(ip) => Some(ip)
    case ToName(_, resolved) => if resolved == [] then None else Some(resolved[0].ip)
  }

  predicate SrcMatches(p: Policy, src: Option<Ipv4>, gm: Groups)
    requires GroupsOk(gm)
  {
    p.src.Some? ==> p.src.value in gm && src.Some? && InList(src.value, gm[p.src.value].nets)
  }

  predicate DestMatches(p: Policy, t: Target, gm: Groups)
    requires GroupsOk(gm)
  {
    && (p.dst.Some? ==> p.dst.value in gm && DstOf(t).Some? && InList(DstOf(t).value, gm[p.dst.value].nets))
    && (p.dom.Some? ==> p.dom.value in gm && t.ToName? && DomainMatches(t.name, gm[p.dom.value].domains))
  }

  predicate PolicyMatches(p: Policy, req: Request, gm: Groups)
    requires GroupsOk(gm)
  {
    SrcMatches(p, req.src, gm) && DestMatches(p, req.target, gm)
  }

  datatype Layer = SafetyRail | UserOverride | SystemDefault

  datatype Verdict = Verdict(layer: Layer, id: string, action: Action)

  /** The safety rail, checked before any user policy. */
  function Rail(dst: Option<Ipv4>, snap: Snapshot): Option<Verdict>
  {
    if dst.None? then None
    else if InList(dst.value, snap.bypass) then Some(Verdict(SafetyRail, "bypass_ip", Direct))
    else if InList(dst.value, PRIVATE_NETS) then Some(Verdict(SafetyRail, "rfc1918", Direct))
    else None
  }

  /** The first enabled policy from position `i` on that matches, or the length. */
  function FirstMatch(policies: seq<Policy>, i: nat, req: Request, gm: Groups): (w: nat)
    requires GroupsOk(gm) && i <= |policies|
    ensures i <= w <= |policies|
    ensures forall j :: i <= j < w ==> !(policies[j].enabled && PolicyMatches(policies[j], req, gm))
    ensures w < |policies| ==> policies[w].enabled && PolicyMatches(policies[w], req, gm)
    decreases |policies| - i
  {
    if i == |policies| || (policies[i].enabled && PolicyMatches(policies[i], req, gm)) then i
    else FirstMatch(policies, i + 1, req, gm)
  }

  function DefaultVerdict(dst: Option<Ipv4>, snap: Snapshot, global: bool): Verdict
  {
    if dst.Some? && InList(dst.value, snap.extConst) then Verdict(SystemDefault, "ext_const", Proxy)
    else if dst.Some? && InList(dst.value, snap.ext) then Verdict(SystemDefault, "ext", Proxy)
    else if !global && dst.Some? && InList(dst.value, snap.toCn) then Verdict(SystemDefault, "TO_CN", Direct)
    else Verdict(SystemDefault, "catch_all", Proxy)
  }

  function ProbeVerdict(req: Request, policies: seq<Policy>, gm: Groups, snap: Snapshot, global: bool): Verdict
    requires GroupsOk(gm)
  {
    var dst := DstOf(req.target);
    if Rail(dst, snap).Some? then Rail(dst, snap).value
    else
      var w := FirstMatch(policies, 0, req, gm);
      if w < |policies| then Verdict(UserOverride, policies[w].id, policies[w].action)
      else DefaultVerdict(dst, snap, global)
  }

  /** The probe itself: safety rail, then the policies in order, then the system default. */
  method Probe(req: Request, policies: seq<Policy>, gm: Groups, snap: Snapshot, global: bool) returns (out: Verdict)
    requires GroupsOk(gm)
    ensures out == ProbeVerdict(req, policies, gm, snap, global)
  {
    var dst := DstOf(req.target);
    var rail := Rail(dst, snap);
    if rail.Some? {
      return rail.value;
    }
    for i := 0 to |policies|
      invariant FirstMatch(policies, 0, req, gm) == FirstMatch(policies, i, req, gm)
    {
      if policies[i].enabled && PolicyMatches(policies[i], req, gm) {
        return Verdict(UserOverride, policies[i].id, policies[i].action);
      }
    }
    return DefaultVerdict(dst, snap, global);
  }

  // ---- Shadowing analysis ----

  predicate SrcCompatible(a: Policy, b: Policy, gm: Groups)
    requires GroupsOk(gm)
  {
    || a.src.None? || b.src.None? || a.src == b.src
    || (a.src.value in gm && b.src.value in gm && ListsMeet(gm[a.src.value].nets, gm[b.src.value].nets))
  }

  predicate MeetsSome(m: string, others: seq<string>) {
    exists j :: 0 <= j < |others| && MembersMayMeet(m, others[j])
  }

  predicate DomainsMeet(a: seq<string>, b: seq<string>) {
    exists i :: 0 <= i < |a| && MeetsSome(a[i], b)
  }

  predicate DestCompatible(a: Policy, b: Policy, gm: Groups)
    requires GroupsOk(gm)
  {
    || (a.dst.None? && a.dom.None?)
    || (b.dst.None? && b.dom.None?)
    || (a.dst.Some? && b.dst.Some? &&
        (a.dst == b.dst ||
         (a.dst.value in gm && b.dst.value in gm && ListsMeet(gm[a.dst.value].nets, gm[b.dst.value].nets))))
    || (!(a.dst.Some? && b.dst.Some?) && a.dom.Some? && b.dom.Some? &&
        (a.dom == b.dom ||
         (a.dom.value in gm && b.dom.value in gm && DomainsMeet(gm[a.dom.value].domains, gm[b.dom.value].domains))))
  }

  predicate MayConflict(a: Policy, b: Policy, gm: Groups)
    requires GroupsOk(gm)
  {
    SrcCompatible(a, b, gm) && DestCompatible(a, b, gm)
  }

  method MeetsAny(m: string, others: seq<string>) returns (meet: bool)
    ensures meet == MeetsSome(m, others)
  {
    hide MembersMayMeet;
    for j := 0 to |others|
      invariant forall l :: 0 <= l < j ==> !MembersMayMeet(m, others[l])
    {
      if MembersMayMeet(m, others[j]) {
        return true;
      }
    }
    return false;
  }

  method AnyDomainsMeet(a: seq<string>, b: seq<string>) returns (meet: bool)
    ensures meet == DomainsMeet(a, b)
  {
    hide MeetsSome;
    for i := 0 to |a|
      invariant forall k :: 0 <= k < i ==> !MeetsSome(a[k], b)
    {
      var here := MeetsAny(a[i], b);
      if here {
        return true;
      }
    }
    return false;
  }

  method PoliciesMayConflict(a: Policy, b: Policy, gm: Groups) returns (r: bool)
    requires GroupsOk(gm)
    ensures r == MayConflict(a, b, gm)
  {
    if a.src.Some? && b.src.Some? && a.src != b.src {
      if a.src.value !in gm || b.src.value !in gm {
        return false;
      }
      var meet := ListsIntersect(gm[a.src.value].nets, gm[b.src.value].nets);
      if !meet {
        return false;
      }
    }
    if (a.dst.None? && a.dom.None?) || (b.dst.None? && b.dom.None?) {
      return true;
    }
    if a.dst.Some? && b.dst.Some? {
      if a.dst == b.dst {
        return true;
      }
      if a.dst.value !in gm || b.dst.value !in gm {
        return false;
      }
      r := ListsIntersect(gm[a.dst.value].nets, gm[b.dst.value].nets);
      return;
    }
    if a.dom.Some? && b.dom.Some? {
      if a.dom == b.dom {
        return true;
      }
      if a.dom.value !in gm || b.dom.value !in gm {
        return false;
      }
      r := AnyDomainsMeet(gm[a.dom.value].domains, gm[b.dom.value].domains);
      return;
    }
    return false;
  }

  /** Some enabled policy before position `i` may conflict with the one at `i`. */
  predicate ShadowedAt(ps: seq<Policy>, i: nat, gm: Groups)
    requires GroupsOk(gm) && i < |ps|
  {
    exists j :: 0 <= j < i && ps[j].enabled && MayConflict(ps[j], ps[i], gm)
  }

  function StatusAt(ps: seq<Policy>, i: nat, gm: Groups): Status
    requires GroupsOk(gm) && i < |ps|
  {
    if !ps[i].enabled || ShadowedAt(ps, i, gm) then Shadowed else Active
  }

  predicate SameMatch(a: Policy, b: Policy) {
    a.src == b.src && a.dst == b.dst && a.dom == b.dom
  }

  /** The status field does not matter to conflicts. */
  lemma StatusIrrelevant(ps: seq<Policy>, qs: seq<Policy>, i: nat, gm: Groups)
    requires GroupsOk(gm) && |ps| == |qs| && i < |ps|
    requires forall j :: 0 <= j < |ps| ==> qs[j].enabled == ps[j].enabled && SameMatch(qs[j], ps[j])
    ensures ShadowedAt(ps, i, gm) == ShadowedAt(qs, i, gm) && StatusAt(ps, i, gm) == StatusAt(qs, i, gm)
  {
    if ShadowedAt(ps, i, gm) {
      var j :| 0 <= j < i && ps[j].enabled && MayConflict(ps[j], ps[i], gm);
      assert MayConflict(qs[j], qs[i], gm);
    }
    if ShadowedAt(qs, i, gm) {
      var j :| 0 <= j < i && qs[j].enabled && MayConflict(qs[j], qs[i], gm);
      assert MayConflict(ps[j], ps[i], gm);
    }
  }

  /** The inner loop: the first earlier policy that may conflict decides. */
  method FindShadow(policies: array<Policy>, i: nat, gm: Groups) returns (shadowed: bool)
    requires GroupsOk(gm) && i < policies.Length
    ensures shadowed == ShadowedAt(policies[..], i, gm)
  {
    for j := 0 to i
      invariant forall k :: 0 <= k < j ==> !(policies[k].enabled && MayConflict(policies[k], policies[i], gm))
    {
      if policies[j].enabled {
        var conflict := PoliciesMayConflict(policies[j], policies[i], gm);
        if conflict {
          assert policies[..][j].enabled && MayConflict(policies[..][j], policies[..][i], gm);
          return true;
        }
      }
    }
    return false;
  }

  /** Statuses are written in place, each from the policies before it. */
  method AnnotateStatuses(policies: array<Policy>, gm: Groups)
    requires GroupsOk(gm)
    modifies policies
    ensures forall i :: 0 <= i < policies.Length ==>
              policies[i] == old(policies[i]).(status := StatusAt(old(policies[..]), i, gm))
  {
    ghost var was := policies[..];
    for i := 0 to policies.Length
      invariant forall k :: 0 <= k < i ==> policies[k] == was[k].(status := StatusAt(was, k, gm))
      invariant forall k :: i <= k < policies.Length ==> policies[k] == was[k]
    {
      StatusIrrelevant(was, policies[..], i, gm);
      if !policies[i].enabled {
        policies[i] := policies[i].(status := Shadowed);
      } else {
        var shadowed := FindShadow(policies, i, gm);
        policies[i] := policies[i].(status := if shadowed then Shadowed else Active);
      }
    }
  }

  // ---- Validation ----

  /** The danger of a policy was accepted now, or earlier for the same match and action. */
  predicate Acknowledged(p: Policy, existing: map<string, Policy>) {
    || p.ack
    || (p.id in existing && existing[p.id].ack && SameMatch(existing[p.id], p) && existing[p.id].action == p.action)
  }

  predicate Acceptable(p: Policy, gm: Groups, existing: map<string, Policy>) {
    PolicyOk(p, gm) && Acknowledged(p, existing)
  }

  /** An acknowledgement sticks to a policy exactly as long as it matches the same and does the same; a policy that was
      never acknowledged needs one. */
  lemma AcknowledgementSticks(p: Policy, gm: Groups, existing: map<string, Policy>)
    ensures !PolicyOk(p, gm) ==> !Acceptable(p, gm, existing)
    ensures PolicyOk(p, gm) && p.ack ==> Acceptable(p, gm, existing)
    ensures !p.ack && (p.id in existing ==> !existing[p.id].ack) ==> !Acceptable(p, gm, existing)
    ensures PolicyOk(p, gm) && !p.ack && p.id in existing && existing[p.id].ack ==>
              var was := existing[p.id];
              (Acceptable(p, gm, existing) <==>
               p.src == was.src && p.dst == was.dst && p.dom == was.dom && p.action == was.action)
  {
  }

  predicate DistinctIds(ps: seq<Policy>) {
    forall i, j :: 0 <= i < j < |ps| ==> ps[i].id != ps[j].id
  }

  /** One policy: both kinds of danger cover every well-formed policy, so each needs an acknowledgement. */
  method CheckPolicy(p: Policy, gm: Groups, existing: map<string, Policy>) returns (acceptable: bool, ack: bool)
    requires GroupsOk(gm)
    ensures acceptable == Acceptable(p, gm, existing)
    ensures acceptable ==> ack
  {
    if !PolicyOk(p, gm) {
      return false, false;
    }
    var hasDest := p.dst.Some? || p.dom.Some?;
    var srcOnly, overrides := p.src.Some? && !hasDest, hasDest && (p.action == Proxy || p.action == Direct);
    var needAck := srcOnly || overrides;
    return !needAck || Acknowledged(p, existing), needAck;
  }

  /** The validation loop: ranks follow the order of the list; the first bad policy aborts. */
  method RankPolicies(policies: seq<Policy>, gm: Groups, existing: map<string, Policy>) returns (r: Option<seq<Policy>>)
    requires GroupsOk(gm)
    ensures r.Some? <==>
              (forall i :: 0 <= i < |policies| ==> Acceptable(policies[i], gm, existing)) && DistinctIds(policies)
    ensures r.Some? ==> |r.value| == |policies|
    ensures r.Some? ==> forall i :: 0 <= i < |policies| ==> r.value[i] == policies[i].(rank := i, ack := true)
  {
    hide Acceptable;
    var seen: set<string>, out: seq<Policy> := {}, [];
    for i := 0 to |policies|
      invariant forall k :: 0 <= k < i ==> Acceptable(policies[k], gm, existing)
      invariant seen == set k | 0 <= k < i :: policies[k].id
      invariant forall j, k :: 0 <= j < k < i ==> policies[j].id != policies[k].id
      invariant |out| == i && forall k :: 0 <= k < i ==> out[k] == policies[k].(rank := k, ack := true)
    {
      var acceptable, ack := CheckPolicy(policies[i], gm, existing);
      if !acceptable || policies[i].id in seen {
        return None;
      }
      seen := seen + {policies[i].id};
      out := out + [policies[i].(rank := i, ack := ack)];
    }
    return Some(out);
  }

  /** Validation accepts a list exactly when every policy is well formed and acknowledged and ids are
      distinct; it then ranks by position and annotates. */
  method ValidatePolicies(policies: seq<Policy>, gm: Groups, existing: map<string, Policy>)
    returns (r: Option<seq<Policy>>)
    requires GroupsOk(gm)
    ensures r.Some? <==>
              (forall i :: 0 <= i < |policies| ==> Acceptable(policies[i], gm, existing)) && DistinctIds(policies)
    ensures r.Some? ==> |r.value| == |policies|
    ensures r.Some? ==> forall i :: 0 <= i < |policies| ==>
              r.value[i] == policies[i].(rank := i, ack := true, status := StatusAt(policies, i, gm))
  {
    hide Acceptable;
    hide StatusAt;
    var ranked := RankPolicies(policies, gm, existing);
    if ranked.None? {
      return None;
    }
    var a := new Policy[|policies|](i requires 0 <= i < |policies| => ranked.value[i]);
    assert a[..] == ranked.value;
    AnnotateStatuses(a, gm);
    forall i | 0 <= i < |policies|
      ensures StatusAt(ranked.value, i, gm) == StatusAt(policies, i, gm)
    {
      StatusIrrelevant(policies, ranked.value, i, gm);
    }
    return Some(a[..]);
  }
}

/** The shadowing analysis is sound, and exactly where it is not. */
module PolicyShadowing {
  import opened Net
  import opened Cidrs
  import opened DomainNames
  import opened Policies

  ghost predicate PoliciesOk(ps: seq<Policy>, gm: Groups) {
    GroupsOk(gm) && forall p :: p in ps ==> PolicyOk(p, gm)
  }

  /** One policy names a prefix destination, the other a domain destination. */
  predicate Mixed(a: Policy, b: Policy) {
    (a.dst.Some? && b.dom.Some?) || (a.dom.Some? && b.dst.Some?)
  }

  /** Two policies that match one request may conflict, unless their destinations are of mixed kinds. */
  lemma BothMatchConflict(a: Policy, b: Policy, req: Request, gm: Groups)
    requires GroupsOk(gm) && PolicyOk(a, gm) && PolicyOk(b, gm) && !Mixed(a, b)
    requires PolicyMatches(a, req, gm) && PolicyMatches(b, req, gm)
    ensures MayConflict(a, b, gm)
  {
    if a.src.Some? && b.src.Some? {
      assert InList(req.src.value, gm[a.src.value].nets) && InList(req.src.value, gm[b.src.value].nets);
    }
    if a.dst.Some? && b.dst.Some? {
      var ip := DstOf(req.target).value;
      assert InList(ip, gm[a.dst.value].nets) && InList(ip, gm[b.dst.value].nets);
    }
    if a.dom.Some? && b.dom.Some? {
      var as_, bs, q := gm[a.dom.value].domains, gm[b.dom.value].domains, req.target.name;
      var i :| 0 <= i < |as_| && QNameMatches(q, as_[i]);
      var j :| 0 <= j < |bs| && QNameMatches(q, bs[j]);
      MembersMeetIff(as_[i], bs[j]);
    }
  }

  lemma ActiveMeansClear(ps: seq<Policy>, j: nat, i: nat, gm: Groups)
    requires GroupsOk(gm) && j < i < |ps| && StatusAt(ps, i, gm) == Active && ps[j].enabled
    ensures !MayConflict(ps[j], ps[i], gm)
  {
  }

  /** A policy annotated active wins every request it matches past the safety rail, as long as no earlier
      enabled policy has a destination of the other kind. */
  lemma ActiveWins(ps: seq<Policy>, i: nat, req: Request, gm: Groups, snap: Snapshot, global: bool)
    requires PoliciesOk(ps, gm) && i < |ps| && StatusAt(ps, i, gm) == Active
    requires forall j :: 0 <= j < i && ps[j].enabled ==> !Mixed(ps[j], ps[i])
    requires Rail(DstOf(req.target), snap).None? && PolicyMatches(ps[i], req, gm)
    ensures ProbeVerdict(req, ps, gm, snap, global) == Verdict(UserOverride, ps[i].id, ps[i].action)
  {
    var w := FirstMatch(ps, 0, req, gm);
    if w < i {
      ActiveMeansClear(ps, w, i, gm);
      BothMatchConflict(ps[w], ps[i], req, gm);
    }
  }

  /** The request is matched by policy `i`, past the safety rail, and an earlier policy takes it. */
  predicate PreemptedBy(ps: seq<Policy>, i: nat, req: Request, gm: Groups, snap: Snapshot)
    requires GroupsOk(gm) && i < |ps|
  {
    Rail(DstOf(req.target), snap).None? && PolicyMatches(ps[i], req, gm) && FirstMatch(ps, 0, req, gm) < i
  }

  /** The prefix destination of a mixed pair. */
  function MixedNets(a: Policy, b: Policy, gm: Groups): seq<Cidr>
    requires PolicyOk(a, gm) && PolicyOk(b, gm) && Mixed(a, b)
  {
    if a.dst.Some? then gm[a.dst.value].nets else gm[b.dst.value].nets
  }

  /** An address of the list that the safety rail lets through. */
  predicate ReachesPastRail(nets: seq<Cidr>, snap: Snapshot)
  {
    exists ip: Ipv4 :: InList(ip, nets) && Rail(Some(ip), snap).None?
  }

  /** A mixed pair the analysis cannot see: sources that meet, and a destination past the rail. */
  predicate BlindPair(a: Policy, b: Policy, gm: Groups, snap: Snapshot)
    requires GroupsOk(gm) && PolicyOk(a, gm) && PolicyOk(b, gm)
  {
    Mixed(a, b) && SrcCompatible(a, b, gm) && ReachesPastRail(MixedNets(a, b, gm), snap)
  }

  lemma NamedMember(members: seq<string>) returns (q: string)
    requires members != [] && forall m :: m in members ==> Canonical(m)
    ensures DomainMatches(q, members)
  {
    var m := members[0];
    assert m in members;
    q := m;
    if IsWildcard(m) {
      q := "x" + m[1..];
      WildcardWitness(m);
    }
    MatchesCovers(q, m);
    assert QNameMatches(q, members[0]);
  }

  /** A source both policies accept. */
  lemma CommonSource(a: Policy, b: Policy, gm: Groups) returns (src: Option<Ipv4>)
    requires GroupsOk(gm) && PolicyOk(a, gm) && PolicyOk(b, gm) && SrcCompatible(a, b, gm)
    ensures SrcMatches(a, src, gm) && SrcMatches(b, src, gm)
  {
    if a.src.None? && b.src.None? {
      return None;
    }
    var nets := if a.src.Some? then gm[a.src.value].nets else gm[b.src.value].nets;
    if a.src.Some? && b.src.Some? && a.src != b.src {
      var ip: Ipv4 :| InList(ip, nets) && InList(ip, gm[b.src.value].nets);
      return Some(ip);
    }
    ContainsOwn(nets[0]);
    assert InList(nets[0].ip, nets);
    return Some(nets[0].ip);
  }

  /** A destination both policies accept. */
  lemma CommonTarget(a: Policy, b: Policy, gm: Groups) returns (t: Target)
    requires GroupsOk(gm) && PolicyOk(a, gm) && PolicyOk(b, gm) && DestCompatible(a, b, gm)
    ensures DestMatches(a, t, gm) && DestMatches(b, t, gm)
  {
    hide Contains, CanonDomain, MembersMayMeet;
    if a.dst.Some? && b.dst.Some? && a.dst != b.dst {
      var ip: Ipv4 :| InList(ip, gm[a.dst.value].nets) && InList(ip, gm[b.dst.value].nets);
      t := ToAddress(ip);
    } else if a.dst.Some? || b.dst.Some? {
      var nets := gm[if a.dst.Some? then a.dst.value else b.dst.value].nets;
      ContainsOwn(nets[0]);
      t := ToAddress(nets[0].ip);
    } else if a.dom.Some? && b.dom.Some? && a.dom != b.dom {
      var q := CommonName(gm[a.dom.value].domains, gm[b.dom.value].domains);
      t := ToName(q, []);
    } else if a.dom.Some? || b.dom.Some? {
      var q := NamedMember(gm[if a.dom.Some? then a.dom.value else b.dom.value].domains);
      t := ToName(q, []);
    } else {
      t := ToAddress(0);
    }
  }

  lemma CommonName(as_: seq<string>, bs: seq<string>) returns (q: string)
    requires DomainsMeet(as_, bs)
    requires (forall m :: m in as_ ==> Canonical(m)) && (forall m :: m in bs ==> Canonical(m))
    ensures DomainMatches(q, as_) && DomainMatches(q, bs)
  {
    hide QNameMatches, MembersMayMeet, Canonical;
    var i :| 0 <= i < |as_| && MeetsSome(as_[i], bs);
    var j :| 0 <= j < |bs| && MembersMayMeet(as_[i], bs[j]);
    MembersMeetIff(as_[i], bs[j]);
    q :| QNameMatches(q, as_[i]) && QNameMatches(q, bs[j]);
  }

  /** Two policies are taken to conflict exactly when some request matches both, but for the mixed pairs, which the
      analysis cannot see. */
  lemma ConflictIff(a: Policy, b: Policy, gm: Groups)
    requires GroupsOk(gm) && PolicyOk(a, gm) && PolicyOk(b, gm)
    ensures MayConflict(a, b, gm) <==>
            !Mixed(a, b) && exists req :: PolicyMatches(a, req, gm) && PolicyMatches(b, req, gm)
  {
    hide SrcCompatible, DestCompatible, SrcMatches, DestMatches;
    if MayConflict(a, b, gm) {
      MixedIsUnseen(a, b, gm);
      var src := CommonSource(a, b, gm);
      var t := CommonTarget(a, b, gm);
      assert PolicyMatches(a, Request(src, t), gm) && PolicyMatches(b, Request(src, t), gm);
    }
    if !Mixed(a, b) {
      forall req | PolicyMatches(a, req, gm) && PolicyMatches(b, req, gm)
        ensures MayConflict(a, b, gm)
      {
        BothMatchConflict(a, b, req, gm);
      }
    }
  }

  lemma MixedIsUnseen(a: Policy, b: Policy, gm: Groups)
    requires GroupsOk(gm) && PolicyOk(a, gm) && PolicyOk(b, gm) && DestCompatible(a, b, gm)
    ensures !Mixed(a, b)
  {
  }

  /** A blind pair has a request both policies match. */
  lemma BlindPairPreempts(ps: seq<Policy>, j: nat, i: nat, gm: Groups, snap: Snapshot)
    requires PoliciesOk(ps, gm) && j < i < |ps| && ps[j].enabled
    requires BlindPair(ps[j], ps[i], gm, snap)
    ensures exists req :: PreemptedBy(ps, i, req, gm, snap)
  {
    var a, b := ps[j], ps[i];
    var src := CommonSource(a, b, gm);
    var ip: Ipv4 :| InList(ip, MixedNets(a, b, gm)) && Rail(Some(ip), snap).None?;
    var q := NamedMember(if a.dom.Some? then gm[a.dom.value].domains else gm[b.dom.value].domains);
    var req := Request(src, ToName(q, [Cidr(ip, 32)]));
    assert PolicyMatches(a, req, gm) && PolicyMatches(b, req, gm);
    assert PreemptedBy(ps, i, req, gm, snap);
  }

  /** The exact reach of the analysis: an active policy is pre-empted by some request if and only if an
      earlier enabled policy forms a blind pair with it. */
  lemma ActivePreemptedIff(ps: seq<Policy>, i: nat, gm: Groups, snap: Snapshot)
    requires PoliciesOk(ps, gm) && i < |ps| && StatusAt(ps, i, gm) == Active
    ensures (exists req :: PreemptedBy(ps, i, req, gm, snap)) <==>
            (exists j :: 0 <= j < i && ps[j].enabled && BlindPair(ps[j], ps[i], gm, snap))
  {
    if j :| 0 <= j < i && ps[j].enabled && BlindPair(ps[j], ps[i], gm, snap) {
      BlindPairPreempts(ps, j, i, gm, snap);
    }
    if req :| PreemptedBy(ps, i, req, gm, snap) {
      var j := FirstMatch(ps, 0, req, gm);
      var a, b := ps[j], ps[i];
      ActiveMeansClear(ps, j, i, gm);
      if !Mixed(a, b) {
        BothMatchConflict(a, b, req, gm);
      }
      if a.src.Some? && b.src.Some? {
        assert InList(req.src.value, gm[a.src.value].nets) && InList(req.src.value, gm[b.src.value].nets);
      }
      assert InList(DstOf(req.target).value, MixedNets(a, b, gm));
      assert BlindPair(a, b, gm, snap);
    }
  }

  // ---- One active policy that is pre-empted ----

  const TO_HOST := Policy("p1", true, 0, None, Some("d"), None, Direct, true, Active)
  const TO_DOMAIN := Policy("p2", true, 1, None, None, Some("n"), Proxy, true, Active)
  const TWO_GROUPS: Groups := map[
    "d" := Group("d", DstCidr, [Cidr(0x0808_0808, 32)], []),
    "n" := Group("n", DomainKind, [], ["a.b"])]
  const NO_LISTS := Snapshot([], [], [], [])

  lemma PublicPastRail(snap: Snapshot)
    requires snap.bypass == []
    ensures Rail(Some(0x0808_0808), snap).None?
  {
    hide Contains;
    PrivateIff(0x0808_0808);
  }

  lemma ShortNameIsCanonical()
    ensures Canonical("a.b") && !IsWildcard("a.b")
  {
    LowerFixed("a.b");
    CanonicalIff("a.b");
  }

  /** The second policy is annotated active, yet a probe of "a.b" that resolves to 8.8.8.8 goes to the first. */
  lemma ActiveIsPreempted()
    ensures PoliciesOk([TO_HOST, TO_DOMAIN], TWO_GROUPS) && StatusAt([TO_HOST, TO_DOMAIN], 1, TWO_GROUPS) == Active
    ensures var req := Request(None, ToName("a.b", [Cidr(0x0808_0808, 32)]));
            PreemptedBy([TO_HOST, TO_DOMAIN], 1, req, TWO_GROUPS, NO_LISTS)
  {
    hide CanonDomain, CanonMatches, Contains, Rail;
    PublicPastRail(NO_LISTS);
    ShortNameIsCanonical();
    MatchesCovers("a.b", "a.b");
    var ps := [TO_HOST, TO_DOMAIN];
    var req := Request(None, ToName("a.b", [Cidr(0x0808_0808, 32)]));
    ContainsOwn(Cidr(0x0808_0808, 32));
    assert Contains(TWO_GROUPS["d"].nets[0], 0x0808_0808);
    assert QNameMatches("a.b", TWO_GROUPS["n"].domains[0]);
    assert PolicyMatches(TO_HOST, req, TWO_GROUPS) && PolicyMatches(TO_DOMAIN, req, TWO_GROUPS);
    assert FirstMatch(ps, 0, req, TWO_GROUPS) == 0;
  }
}
