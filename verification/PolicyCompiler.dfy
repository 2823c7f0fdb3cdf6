/** The compiler from user policies to nft rules, and the base chains around the result. */
module PolicyCompiler {
  import opened Net
  import opened Cidrs
  import opened Policies
  import opened Nft
  import Text

  datatype ProxyMode = Gateway | Bypass | Transparent

  datatype Config = Config(lan: string, wan: string, tun: string, lanNet: Cidr, mark: nat, global: bool,
                           mode: ProxyMode)

  const EXEMPT_PORTS: set<nat> := {53, 67, 68, 123}

  // ---- Set names ----

  predicate SetChar(c: char) {
    'a' <= c <= 'z' || 'A' <= c <= 'Z' || '0' <= c <= '9' || c == '_'
  }

  function SanitizeSetId(id: string): (r: string)
    ensures forall c :: c in r ==> SetChar(c)
  {
    if id == "" then "x" else seq(|id|, i requires 0 <= i < |id| => if SetChar(id[i]) then id[i] else '_')
  }

  /** Letters, digits and underscores stay in a set's name, and everything else becomes an underscore. */
  lemma SanitizeExamples()
    ensures SanitizeSetId("azAZ09_") == "azAZ09_" && SanitizeSetId("a.b-c/d") == "a_b_c_d" && SanitizeSetId("") == "x"
    ensures SanitizeSetId("`{@[/:^") == "_______"
  {
  }

  function SetNameFor(g: Group): string {
    var id := SanitizeSetId(g.id);
    match g.kind
    case SrcCidr => "usr_src_" + id
    case DstCidr => "usr_dst_" + id
    case DomainKind => "usr_dom_" + id
  }

  /** Group sets are written one after another; a later group with the same name replaces the content. */
  function SyncUserSets(needed: seq<Group>, resolved: map<string, seq<Cidr>>, sets: Sets): Sets {
    if needed == [] then sets
    else
      var g := needed[0];
      SyncUserSets(needed[1..], resolved, sets[SetNameFor(g) := ElementsOf(g, resolved)])
  }

  function ElementsOf(g: Group, resolved: map<string, seq<Cidr>>): seq<Cidr> {
    if g.kind.DomainKind? then (if g.id in resolved then resolved[g.id] else []) else g.nets
  }

  // ---- The groups to write ----

  predicate NamesGroup(p: Policy, id: string) {
    p.src == Some(id) || p.dst == Some(id) || p.dom == Some(id)
  }

  function GroupIds(p: Policy): (ids: set<string>)
    ensures forall id :: id in ids <==> NamesGroup(p, id)
  {
    (if p.src.Some? then {p.src.value} else {}) + (if p.dst.Some? then {p.dst.value} else {})
    + (if p.dom.Some? then {p.dom.value} else {})
  }

  /** The existing groups that enabled policies name. */
  function NeededIds(ps: seq<Policy>, gm: Groups): set<string> {
    if ps == [] then {}
    else NeededIds(ps[..|ps| - 1], gm) + if ps[|ps| - 1].enabled then GroupIds(ps[|ps| - 1]) * gm.Keys else {}
  }

  lemma {:induction false} NeededIsNamed(ps: seq<Policy>, gm: Groups, i: nat, id: string)
    requires i < |ps| && ps[i].enabled && NamesGroup(ps[i], id) && id in gm
    ensures id in NeededIds(ps, gm)
    decreases |ps|
  {
    if i == |ps| - 1 {
      assert id in GroupIds(ps[i]);
    } else {
      NeededIsNamed(ps[..|ps| - 1], gm, i, id);
    }
  }

  predicate ById(gs: seq<Group>) {
    forall i, j :: 0 <= i < j < |gs| ==> Text.Less(gs[i].id, gs[j].id)
  }

  /** The list holds exactly the needed groups. */
  predicate Collected(needed: seq<Group>, ps: seq<Policy>, gm: Groups) {
    && (forall id :: id in NeededIds(ps, gm) ==> id in gm && gm[id] in needed)
    && (forall g :: g in needed ==> g.id in NeededIds(ps, gm) && g.id in gm && gm[g.id] == g)
  }

  /** Puts a group at its place among groups in order of id. */
  method InsertById(g: Group, gs: seq<Group>) returns (out: seq<Group>)
    requires ById(gs) && forall i :: 0 <= i < |gs| ==> gs[i].id != g.id
    ensures ById(out) && multiset(out) == multiset(gs) + multiset{g}
  {
    hide Text.Less, ById;
    var i := 0;
    while i < |gs| && Text.Less(gs[i].id, g.id)
      invariant 0 <= i <= |gs| && forall k :: 0 <= k < i ==> Text.Less(gs[k].id, g.id)
    {
      i := i + 1;
    }
    if i < |gs| {
      Text.LessIsStrict(gs[i].id, g.id);
    }
    InsertKeepsOrder(g, gs, i);
    out := gs[..i] + [g] + gs[i..];
    assert gs == gs[..i] + gs[i..];
  }

  lemma InsertKeepsOrder(g: Group, gs: seq<Group>, i: nat)
    requires ById(gs) && i <= |gs| && forall k :: 0 <= k < i ==> Text.Less(gs[k].id, g.id)
    requires i < |gs| ==> Text.Less(g.id, gs[i].id)
    ensures ById(gs[..i] + [g] + gs[i..])
  {
    hide Text.Less;
    forall k | i <= k < |gs|
      ensures Text.Less(g.id, gs[k].id)
    {
      if i < k {
        Text.LessIsTransitive(g.id, gs[i].id, gs[k].id);
      }
    }
    var out := gs[..i] + [g] + gs[i..];
    assert forall k :: 0 <= k < |out| ==> out[k] == if k < i then gs[k] else if k == i then g else gs[k - 1];
  }

  /** One entry a group, whatever order the map is walked in, then sorted by id. */
  method CollectNeededGroups(ps: seq<Policy>, gm: Groups) returns (needed: seq<Group>)
    requires forall id :: id in gm ==> gm[id].id == id
    ensures Collected(needed, ps, gm) && ById(needed)
  {
    var seen: set<string> := {};
    for i := 0 to |ps|
      invariant seen == NeededIds(ps[..i], gm) && seen <= gm.Keys
    {
      assert ps[..i + 1][..i] == ps[..i];
      if ps[i].enabled {
        seen := seen + GroupIds(ps[i]) * gm.Keys;
      }
    }
    assert ps[..|ps|] == ps;
    needed := [];
    var left := seen;
    while left != {}
      invariant left <= seen && ById(needed)
      invariant forall g :: g in needed <==> g.id in seen - left && gm[g.id] == g
      decreases left
    {
      var id :| id in left;
      left := left - {id};
      ghost var before := needed;
      forall i | 0 <= i < |needed|
        ensures needed[i].id != id
      {
        assert needed[i] in needed;
      }
      needed := InsertById(gm[id], needed);
      forall g
        ensures g in needed <==> g in before || g == gm[id]
      {
        assert g in needed <==> g in multiset(needed);
      }
    }
  }

  // ---- Rules for one policy ----

  function MatchExpr(p: Policy, gm: Groups): Option<seq<Match>> {
    if (p.src.Some? && p.src.value !in gm) || (p.dst.Some? && p.dst.value !in gm)
        || (p.dom.Some? && p.dom.value !in gm) then
      None
    else
      var parts :=
        (if p.src.Some? then [Saddr(SetNameFor(gm[p.src.value]))] else [])
        + (if p.dst.Some? then [Daddr(SetNameFor(gm[p.dst.value]))] else [])
        + (if p.dom.Some? then [Daddr(SetNameFor(gm[p.dom.value]))] else []);
      if parts == [] then None else Some(parts)
  }

  function ActionExpr(a: Action, mark: nat): seq<Stmt> {
    if a.Proxy? then [SetCtMark(mark), MetaMarkFromCt, Accept] else [Accept]
  }

  function PolicyRules(p: Policy, expr: seq<Match>, c: Config): seq<Rule> {
    var act := ActionExpr(p.action, c.mark);
    (if c.lan != "" then [Rule([Iif(c.lan)] + expr, act)] else [])
    + (if c.mode.Bypass? && c.wan != "" then [Rule([Iif(c.wan), Saddr("customer_hosts")] + expr, act)] else [])
    + (if c.mode.Transparent? then [Rule([Iif("gfc-ce")] + expr, act), Rule([Iif("br-trans")] + expr, act)] else [])
  }

  function OverlayHead(): seq<Rule> {
    [Rule([DaddrNets(PRIVATE_NETS)], [Return]), Rule([Daddr("bypass_ip")], [Return])]
  }

  /** The rules of the policies from the first to the last, or nothing when some group is missing. */
  function OverlayBody(ps: seq<Policy>, gm: Groups, c: Config): Option<seq<Rule>> {
    if ps == [] then Some([])
    else if !ps[0].enabled then OverlayBody(ps[1..], gm, c)
    else
      var expr, rest := MatchExpr(ps[0], gm), OverlayBody(ps[1..], gm, c);
      if expr.None? || rest.None? then None else Some(PolicyRules(ps[0], expr.value, c) + rest.value)
  }

  lemma {:induction false} OverlayBodySnoc(ps: seq<Policy>, p: Policy, gm: Groups, c: Config)
    ensures OverlayBody(ps + [p], gm, c) ==
            if !p.enabled then OverlayBody(ps, gm, c)
            else if OverlayBody(ps, gm, c).None? || MatchExpr(p, gm).None? then None
            else Some(OverlayBody(ps, gm, c).value + PolicyRules(p, MatchExpr(p, gm).value, c))
  {
    if ps == [] {
      assert ps + [p] == [p] && [p][1..] == [];
      if p.enabled && MatchExpr(p, gm).Some? {
        var last := PolicyRules(p, MatchExpr(p, gm).value, c);
        assert last + [] == last == [] + last;
      }
    } else {
      assert (ps + [p])[0] == ps[0] && (ps + [p])[1..] == ps[1..] + [p];
      OverlayBodySnoc(ps[1..], p, gm, c);
      var expr, rest := MatchExpr(ps[0], gm), OverlayBody(ps[1..], gm, c);
      if ps[0].enabled && expr.Some? && rest.Some? && p.enabled && MatchExpr(p, gm).Some? {
        var first, last := PolicyRules(ps[0], expr.value, c), PolicyRules(p, MatchExpr(p, gm).value, c);
        assert first + (rest.value + last) == (first + rest.value) + last;
      }
    }
  }

  lemma {:induction false} OverlayBodyFails(ps: seq<Policy>, n: nat, gm: Groups, c: Config)
    requires n <= |ps| && OverlayBody(ps[..n], gm, c).None?
    ensures OverlayBody(ps, gm, c).None?
    decreases |ps| - n
  {
    if n == |ps| {
      assert ps[..n] == ps;
    } else {
      assert ps[..n + 1] == ps[..n] + [ps[n]];
      OverlayBodySnoc(ps[..n], ps[n], gm, c);
      OverlayBodyFails(ps, n + 1, gm, c);
    }
  }

  function Overlay(ps: seq<Policy>, gm: Groups, c: Config): Option<seq<Rule>> {
    var body := OverlayBody(ps, gm, c);
    if body.None? then None else Some(OverlayHead() + body.value)
  }

  /** The builder loop: rules are appended policy by policy; a missing group aborts the build. */
  method BuildOverlayChain(ps: seq<Policy>, gm: Groups, c: Config) returns (chain: Option<seq<Rule>>)
    ensures chain == Overlay(ps, gm, c)
  {
    var rules := OverlayHead();
    for i := 0 to |ps|
      invariant OverlayBody(ps[..i], gm, c).Some? && rules == OverlayHead() + OverlayBody(ps[..i], gm, c).value
    {
      assert ps[..i + 1] == ps[..i] + [ps[i]];
      OverlayBodySnoc(ps[..i], ps[i], gm, c);
      if !ps[i].enabled {
        continue;
      }
      var expr := MatchExpr(ps[i], gm);
      if expr.None? {
        OverlayBodyFails(ps, i + 1, gm, c);
        return None;
      }
      rules := rules + PolicyRules(ps[i], expr.value, c);
    }
    assert ps[..|ps|] == ps;
    return Some(rules);
  }

  // ---- Base chains ----

  function Head(c: Config): seq<Rule> {
    if c.mode.Gateway? then [] else [Rule([Iif(c.tun)], [Return]), Rule([LocalDst], [Return])]
  }

  function CtIngress(c: Config): seq<Rule> {
    match c.mode
    case Gateway => []
    case Bypass =>
      var on := [Iif(c.wan), Saddr("customer_hosts")];
      if c.wan == "" then [] else [Rule(on + [Established], [Return]), Rule(on, [SetCtMark(c.mark), Accept])]
    case Transparent =>
      [Rule([Iif("gfc-ce")], [SetCtMark(c.mark), Accept]), Rule([Iif("br-trans")], [SetCtMark(c.mark), Accept])]
  }

  /** The chain that marks connections on the way in. */
  function CtChain(c: Config): seq<Rule> {
    Head(c) + [Rule([Iif(c.lan)], [SetCtMark(c.mark), Accept])] + CtIngress(c)
  }

  function LanExits(c: Config): seq<Rule> {
    [Rule([Iif(c.lan), DaddrNets(PRIVATE_NETS)], [Return]),
     Rule([Iif(c.lan), DaddrNets([c.lanNet])], [Return]),
     Rule([Iif(c.lan), UdpDport(EXEMPT_PORTS)], [Return]),
     Rule([Iif(c.lan), Daddr("bypass_ip")], [Return])]
  }

  /** What one ingress does after the user overlay: constant proxies, then CN, then the mark. */
  function IngressDefaults(on: seq<Match>, c: Config): seq<Rule> {
    [Rule(on + [Daddr("ext_const"), CtMarkIs(c.mark)], [MetaMarkFromCt, Return])]
    + (if c.global then [] else [Rule(on + [Daddr("TO_CN")], [Return])])
    + [Rule(on + [CtMarkIs(c.mark)], [MetaMarkFromCt])]
  }

  function IngressExits(on: seq<Match>, c: Config): seq<Rule> {
    [Rule(on + [DaddrNets(PRIVATE_NETS)], [Return]),
     Rule(on + [if c.mode.Bypass? then Daddr("customer_hosts") else DaddrNets([c.lanNet])], [Return]),
     Rule(on + [UdpDport(EXEMPT_PORTS)], [Return]),
     Rule(on + [Daddr("bypass_ip")], [Return])]
  }

  /** The rules for the ingress of the other modes; they follow the LAN's. */
  function RouteIngress(c: Config): seq<Rule> {
    match c.mode
    case Gateway => []
    case Bypass =>
      var on := [Iif(c.wan), Saddr("customer_hosts")];
      if c.wan == "" then [] else IngressExits(on, c) + IngressDefaults(on, c)
    case Transparent =>
      var ce, br := [Iif("gfc-ce")], [Iif("br-trans")];
      IngressExits(ce, c) + [IngressDefaults(ce, c)[0]]
      + IngressExits(br, c) + [IngressDefaults(br, c)[0]]
      + (if c.global then [] else [Rule(ce + [Daddr("TO_CN")], [Return]), Rule(br + [Daddr("TO_CN")], [Return])])
      + [Rule(ce + [CtMarkIs(c.mark)], [MetaMarkFromCt]), Rule(br + [CtMarkIs(c.mark)], [MetaMarkFromCt])]
  }

  /** The chain that decides the packet mark. */
  function RouteChain(c: Config): seq<Rule> {
    Head(c) + LanExits(c) + [Rule([], [JumpUser])] + IngressDefaults([Iif(c.lan)], c) + RouteIngress(c)
  }
}
