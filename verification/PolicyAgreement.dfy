/** The compiled rules mean what the probe says. */
module PolicyAgreement {
  import opened Net
  import opened Cidrs
  import opened DomainNames
  import opened Policies
  import opened PolicyShadowing
  import opened Nft
  import opened PolicyCompiler

  // ---- What the user sets hold ----

  /** The last group of the list that is written under the given set name. */
  function LastNamed(needed: seq<Group>, name: string): Option<Group> {
    if needed == [] then None
    else
      var later := LastNamed(needed[1..], name);
      if later.Some? then later else if SetNameFor(needed[0]) == name then Some(needed[0]) else None
  }

  lemma {:induction false} SyncWritesLast(needed: seq<Group>, resolved: map<string, seq<Cidr>>, sets: Sets,
                                          name: string)
    ensures var after, last := SyncUserSets(needed, resolved, sets), LastNamed(needed, name);
            if last.Some? then name in after && after[name] == ElementsOf(last.value, resolved)
            else (name in after <==> name in sets) && (name in sets ==> after[name] == sets[name])
  {
    if needed == [] {
    } else {
      var g := needed[0];
      SyncWritesLast(needed[1..], resolved, sets[SetNameFor(g) := ElementsOf(g, resolved)], name);
    }
  }

  lemma {:induction false} LastNamedExists(needed: seq<Group>, g: Group)
    requires g in needed
    ensures LastNamed(needed, SetNameFor(g)).Some?
  {
    if needed[0] == g {
    } else {
      LastNamedExists(needed[1..], g);
    }
  }

  /** The set answers for every address as the group's own elements do. */
  ghost predicate HoldsGroup(name: string, sets: Sets, elements: seq<Cidr>) {
    forall ip: Ipv4 :: InSet(ip, name, sets) == InList(ip, elements)
  }

  ghost predicate SameAddresses(a: seq<Cidr>, b: seq<Cidr>) {
    forall ip: Ipv4 :: InList(ip, a) == InList(ip, b)
  }

  /** Set names are not injective, so after writing, a group's set matches exactly the group's addresses if
      and only if the last group written under that name has the same addresses. */
  lemma SetHoldsGroupIff(needed: seq<Group>, resolved: map<string, seq<Cidr>>, sets: Sets, g: Group)
    requires g in needed
    ensures var name := SetNameFor(g);
            && LastNamed(needed, name).Some?
            && (HoldsGroup(name, SyncUserSets(needed, resolved, sets), ElementsOf(g, resolved)) <==>
                SameAddresses(ElementsOf(LastNamed(needed, name).value, resolved), ElementsOf(g, resolved)))
  {
    hide InList;
    var name, after := SetNameFor(g), SyncUserSets(needed, resolved, sets);
    SyncWritesLast(needed, resolved, sets, name);
    LastNamedExists(needed, g);
    var written := ElementsOf(LastNamed(needed, name).value, resolved);
    assert forall ip: Ipv4 :: InSet(ip, name, after) == InList(ip, written);
  }

  /** No two groups to be written share a set name. */
  predicate NamesApart(needed: seq<Group>) {
    forall h, k :: h in needed && k in needed && SetNameFor(h) == SetNameFor(k) ==> h == k
  }

  /** Distinct names are enough for every set to hold its own group. */
  lemma DistinctNamesKeepGroups(needed: seq<Group>, resolved: map<string, seq<Cidr>>, sets: Sets, g: Group)
    requires g in needed && NamesApart(needed)
    ensures HoldsGroup(SetNameFor(g), SyncUserSets(needed, resolved, sets), ElementsOf(g, resolved))
  {
    SetHoldsGroupIff(needed, resolved, sets, g);
    LastNamedIsNamed(needed, SetNameFor(g));
  }

  /** Writing user sets leaves the system's sets alone: no user set has a system name. */
  lemma SystemSetsUntouched(needed: seq<Group>, resolved: map<string, seq<Cidr>>, sets: Sets, name: string)
    requires name in {"bypass_ip", "ext_const", "TO_CN", "customer_hosts"}
    ensures var after := SyncUserSets(needed, resolved, sets);
            (name in after <==> name in sets) && (name in sets ==> after[name] == sets[name])
  {
    SyncWritesLast(needed, resolved, sets, name);
    LastNamedIsNamed(needed, name);
    forall g: Group
      ensures SetNameFor(g) != name
    {
      UserNameStarts(g);
      assert name[0] != 'u';
    }
  }

  lemma UserNameStarts(g: Group)
    ensures SetNameFor(g) != "" && SetNameFor(g)[0] == 'u'
  {
  }

  lemma {:induction false} LastNamedIsNamed(needed: seq<Group>, name: string)
    ensures LastNamed(needed, name).Some? ==>
              LastNamed(needed, name).value in needed && SetNameFor(LastNamed(needed, name).value) == name
  {
    if needed == [] {
    } else {
      LastNamedIsNamed(needed[1..], name);
    }
  }

  /** Validation compares raw ids, yet "g-1" and "g_1" share a set: the first group's rules then look at the
      second group's addresses. */
  lemma SetNamesCollide(kind: Kind, a: seq<Cidr>, b: seq<Cidr>, sets: Sets)
    requires !kind.DomainKind? && a != b
    ensures var g, h := Group("g-1", kind, a, []), Group("g_1", kind, b, []);
            && g.id != h.id && SetNameFor(g) == SetNameFor(h)
            && SetNameFor(g) in SyncUserSets([g, h], map[], sets)
            && SyncUserSets([g, h], map[], sets)[SetNameFor(g)] != g.nets
  {
    var g, h := Group("g-1", kind, a, []), Group("g_1", kind, b, []);
    assert SanitizeSetId("g-1") == "g_1" == SanitizeSetId("g_1");
    assert [g, h][1..] == [h] && [h][1..] == [];
    assert LastNamed([h], SetNameFor(g)) == Some(h);
    SyncWritesLast([g, h], map[], sets, SetNameFor(g));
  }

  // ---- Packets and requests ----

  /** The packet a probe request talks about. */
  predicate Carries(pkt: Packet, req: Request) {
    req.src == Some(pkt.saddr) && DstOf(req.target) == Some(pkt.daddr)
  }

  /** The sets a policy's rules consult answer as the groups do, for this packet. */
  predicate SetsAnswer(p: Policy, req: Request, pkt: Packet, gm: Groups, sets: Sets)
    requires GroupsOk(gm) && PolicyOk(p, gm)
  {
    && (p.src.Some? ==> InSet(pkt.saddr, SetNameFor(gm[p.src.value]), sets) == InList(pkt.saddr, gm[p.src.value].nets))
    && (p.dst.Some? ==> InSet(pkt.daddr, SetNameFor(gm[p.dst.value]), sets) == InList(pkt.daddr, gm[p.dst.value].nets))
    && (p.dom.Some? ==> InSet(pkt.daddr, SetNameFor(gm[p.dom.value]), sets) == DestMatches(p, req.target, gm))
  }

  lemma ExprMeansPolicy(p: Policy, req: Request, pkt: Packet, gm: Groups, sets: Sets)
    requires GroupsOk(gm) && PolicyOk(p, gm) && Carries(pkt, req) && SetsAnswer(p, req, pkt, gm, sets)
    ensures MatchExpr(p, gm).Some?
    ensures AllHold(MatchExpr(p, gm).value, pkt, sets) <==> PolicyMatches(p, req, gm)
  {
    hide AllHold, InSet, InList, SetNameFor, GroupsOk, DomainMatches;
    var a := if p.src.Some? then [Saddr(SetNameFor(gm[p.src.value]))] else [];
    var b := if p.dst.Some? then [Daddr(SetNameFor(gm[p.dst.value]))] else [];
    var c := if p.dom.Some? then [Daddr(SetNameFor(gm[p.dom.value]))] else [];
    AllHoldAppend(a, b, pkt, sets);
    AllHoldAppend(a + b, c, pkt, sets);
    PartHolds(a, pkt, sets);
    PartHolds(b, pkt, sets);
    PartHolds(c, pkt, sets);
    assert a + b + c == MatchExpr(p, gm).value;
  }

  lemma PartHolds(part: seq<Match>, pkt: Packet, sets: Sets)
    requires |part| <= 1
    ensures AllHold(part, pkt, sets) <==> part == [] || Holds(part[0], pkt, sets)
  {
    hide Holds;
  }

  /** What a policy does to a packet it takes. */
  function Taken(pkt: Packet, a: Action, mark: nat): Packet {
    if a.Proxy? then pkt.(ctMark := mark, metaMark := mark) else pkt
  }

  lemma ActionRuns(a: Action, mark: nat, pkt: Packet)
    ensures RunFlat(ActionExpr(a, mark), pkt) == (Accepted, Taken(pkt, a, mark))
  {
    if a.Proxy? {
      var s := ActionExpr(a, mark);
      assert s[1..] == [MetaMarkFromCt, Accept] && [MetaMarkFromCt, Accept][1..] == [Accept];
      assert RunFlat([Accept], Taken(pkt, a, mark)) == (Accepted, Taken(pkt, a, mark));
    }
  }

  /** Rules that cannot match leave the packet alone. */
  lemma {:induction false} DeadRulesPass(rules: seq<Rule>, pkt: Packet, sets: Sets)
    requires forall r :: r in rules ==> !RuleMatches(r, pkt, sets)
    ensures RunUser(rules, pkt, sets) == (Next, pkt)
  {
    if rules == [] {
    } else {
      DeadRulesPass(rules[1..], pkt, sets);
    }
  }

  /** Where packets that policies steer come in: the LAN, and the customers of the other modes. */
  function Ingresses(c: Config): seq<seq<Match>> {
    (if c.lan != "" then [[Iif(c.lan)]] else [])
    + (if c.mode.Bypass? && c.wan != "" then [[Iif(c.wan), Saddr("customer_hosts")]] else [])
    + (if c.mode.Transparent? then [[Iif("gfc-ce")], [Iif("br-trans")]] else [])
  }

  /** The packet came in by one of them. */
  predicate Enters(c: Config, pkt: Packet, sets: Sets) {
    exists i :: 0 <= i < |Ingresses(c)| && AllHold(Ingresses(c)[i], pkt, sets)
  }

  lemma LanEnters(c: Config, pkt: Packet, sets: Sets)
    requires c.lan != "" && pkt.iif == c.lan
    ensures Enters(c, pkt, sets)
  {
    assert Ingresses(c)[0] == [Iif(c.lan)] && AllHold(Ingresses(c)[0], pkt, sets);
  }

  /** One rule for every ingress. */
  function RulesFor(ons: seq<seq<Match>>, expr: seq<Match>, act: seq<Stmt>): seq<Rule> {
    if ons == [] then [] else [Rule(ons[0] + expr, act)] + RulesFor(ons[1..], expr, act)
  }

  lemma {:induction false} RulesForAppend(a: seq<seq<Match>>, b: seq<seq<Match>>, expr: seq<Match>, act: seq<Stmt>)
    ensures RulesFor(a + b, expr, act) == RulesFor(a, expr, act) + RulesFor(b, expr, act)
  {
    if a == [] {
      assert a + b == b;
    } else {
      assert (a + b)[0] == a[0] && (a + b)[1..] == a[1..] + b;
      RulesForAppend(a[1..], b, expr, act);
    }
  }

  lemma RulesForPolicy(p: Policy, expr: seq<Match>, c: Config)
    ensures PolicyRules(p, expr, c) == RulesFor(Ingresses(c), expr, ActionExpr(p.action, c.mark))
  {
    var act := ActionExpr(p.action, c.mark);
    var x := if c.lan != "" then [[Iif(c.lan)]] else [];
    var y := if c.mode.Bypass? && c.wan != "" then [[Iif(c.wan), Saddr("customer_hosts")]] else [];
    var z := if c.mode.Transparent? then [[Iif("gfc-ce")], [Iif("br-trans")]] else [];
    RulesForAppend(x + y, z, expr, act);
    RulesForAppend(x, y, expr, act);
    OneIngress([Iif(c.lan)], expr, act);
    OneIngress([Iif(c.wan), Saddr("customer_hosts")], expr, act);
    OneIngress([Iif("br-trans")], expr, act);
    assert [[Iif("gfc-ce")], [Iif("br-trans")]][1..] == [[Iif("br-trans")]];
  }

  lemma OneIngress(on: seq<Match>, expr: seq<Match>, act: seq<Stmt>)
    ensures RulesFor([on], expr, act) == [Rule(on + expr, act)]
  {
    assert [on][1..] == [];
  }

  /** The rules of all ingresses take the packet exactly when it came in by one of them and matches. */
  lemma {:induction false} RulesForRun(ons: seq<seq<Match>>, expr: seq<Match>, a: Action, mark: nat, pkt: Packet,
                                       sets: Sets)
    ensures RunUser(RulesFor(ons, expr, ActionExpr(a, mark)), pkt, sets) ==
            if AllHold(expr, pkt, sets) && exists i :: 0 <= i < |ons| && AllHold(ons[i], pkt, sets)
            then (Accepted, Taken(pkt, a, mark)) else (Next, pkt)
  {
    hide AllHold, ActionExpr;
    if ons == [] {
    } else {
      AllHoldAppend(ons[0], expr, pkt, sets);
      ActionRuns(a, mark, pkt);
      RulesForRun(ons[1..], expr, a, mark, pkt, sets);
      assert forall i :: 0 <= i < |ons[1..]| ==> ons[1..][i] == ons[i + 1];
    }
  }

  /** The rules of one policy take a packet that came in by an ingress exactly when the policy matches. */
  lemma PolicyRulesRun(p: Policy, expr: seq<Match>, c: Config, pkt: Packet, sets: Sets)
    requires Enters(c, pkt, sets)
    ensures RunUser(PolicyRules(p, expr, c), pkt, sets) ==
            if AllHold(expr, pkt, sets) then (Accepted, Taken(pkt, p.action, c.mark)) else (Next, pkt)
  {
    hide AllHold, Ingresses;
    RulesForPolicy(p, expr, c);
    RulesForRun(Ingresses(c), expr, p.action, c.mark, pkt, sets);
  }

  /** The sets answer for every enabled policy; those of disabled policies need not even exist. */
  ghost predicate AllAnswer(ps: seq<Policy>, req: Request, pkt: Packet, gm: Groups, sets: Sets)
    requires PoliciesOk(ps, gm)
  {
    forall i :: 0 <= i < |ps| && ps[i].enabled ==> SetsAnswer(ps[i], req, pkt, gm, sets)
  }

  /** The compiled policies are first-match evaluation. */
  lemma {:induction false} OverlayBodyRuns(ps: seq<Policy>, i: nat, req: Request, pkt: Packet, gm: Groups, c: Config,
                                           sets: Sets)
    requires i <= |ps| && PoliciesOk(ps, gm) && Enters(c, pkt, sets)
    requires Carries(pkt, req) && AllAnswer(ps, req, pkt, gm, sets)
    ensures OverlayBody(ps[i..], gm, c).Some?
    ensures var w := FirstMatch(ps, i, req, gm);
            RunUser(OverlayBody(ps[i..], gm, c).value, pkt, sets) ==
            if w < |ps| then (Accepted, Taken(pkt, ps[w].action, c.mark)) else (Next, pkt)
    decreases |ps| - i
  {
    if i == |ps| {
    } else {
      var p := ps[i];
      assert ps[i..][0] == p && ps[i..][1..] == ps[i + 1..] && p in ps;
      OverlayBodyRuns(ps, i + 1, req, pkt, gm, c, sets);
      if p.enabled {
        ExprMeansPolicy(p, req, pkt, gm, sets);
        var expr := MatchExpr(p, gm).value;
        PolicyRulesRun(p, expr, c, pkt, sets);
        RunUserAppend(PolicyRules(p, expr, c), OverlayBody(ps[i + 1..], gm, c).value, pkt, sets);
      }
    }
  }

  // ---- The whole way through the kernel ----

  /** The kernel's sets answer as the probe's snapshot does, for this destination. */
  predicate SnapshotAnswers(snap: Snapshot, dst: Ipv4, sets: Sets)
  {
    && InSet(dst, "bypass_ip", sets) == InList(dst, snap.bypass)
    && InSet(dst, "ext_const", sets) == InList(dst, snap.extConst)
    && InSet(dst, "TO_CN", sets) == InList(dst, snap.toCn)
  }

  /** A fresh packet that enters from the management LAN, which is none of the other ingress interfaces. */
  predicate FromLan(c: Config, pkt: Packet) {
    && c.lan != "" && pkt.iif == c.lan && pkt.metaMark == 0
    && (c.mode.Bypass? ==> c.lan != c.wan)
    && (c.mode.Transparent? ==> c.lan != "gfc-ce" && c.lan != "br-trans")
  }

  /** Outside gateway mode the chains first return what comes from the tunnel or stays on the box. */
  predicate HeadReturns(c: Config, pkt: Packet) {
    !c.mode.Gateway? && (pkt.iif == c.tun || pkt.local)
  }

  predicate Exempt(pkt: Packet) {
    pkt.udpDport.Some? && pkt.udpDport.value in EXEMPT_PORTS
  }

  /** DNS, both sides of DHCP, and NTP. */
  lemma ExemptIff(pkt: Packet)
    ensures Exempt(pkt) <==> pkt.udpDport in {Some(53), Some(67), Some(68), Some(123)}
  {
  }

  /** What the kernel never steers and the probe does not know of: the head's returns, the LAN's own prefix
      and the exempt ports. */
  predicate Unsteered(c: Config, pkt: Packet)
  {
    HeadReturns(c, pkt) || Contains(c.lanNet, pkt.daddr) || Exempt(pkt)
  }

  /** The mark a packet leaves the prerouting chains with. */
  function KernelMark(c: Config, pkt: Packet, overlay: seq<Rule>, sets: Sets): nat
  {
    var marked := RunBase(CtChain(c), pkt, [], sets).1;
    RunBase(RouteChain(c), marked, overlay, sets).1.metaMark
  }

  lemma PrefixOfOne(m: Match, rest: seq<Match>, pkt: Packet, sets: Sets)
    ensures AllHold([m] + rest, pkt, sets) <==> Holds(m, pkt, sets) && AllHold(rest, pkt, sets)
  {
    AllHoldAppend([m], rest, pkt, sets);
    assert AllHold([m], pkt, sets) <==> Holds([m][0], pkt, sets);
  }

  lemma OneRule(r: Rule, rest: seq<Rule>, pkt: Packet, user: seq<Rule>, sets: Sets)
    ensures var (o, q) := if RuleMatches(r, pkt, sets) then RunStmts(r.stmts, pkt, user, sets) else (Next, pkt);
            RunBase([r] + rest, pkt, user, sets) == if o.Next? then RunBase(rest, q, user, sets) else (o, q)
  {
    assert ([r] + rest)[0] == r && ([r] + rest)[1..] == rest;
  }

  lemma HeadRuns(c: Config, pkt: Packet, user: seq<Rule>, sets: Sets)
    ensures RunBase(Head(c), pkt, user, sets) == (if HeadReturns(c, pkt) then Returned else Next, pkt)
  {
    if !c.mode.Gateway? {
      var r1, r2 := Rule([Iif(c.tun)], [Return]), Rule([LocalDst], [Return]);
      assert Head(c) == [r1] + ([r2] + []);
      PrefixOfOne(Iif(c.tun), [], pkt, sets);
      PrefixOfOne(LocalDst, [], pkt, sets);
      assert [Iif(c.tun)] + [] == [Iif(c.tun)] && [LocalDst] + [] == [LocalDst];
      OneRule(r1, [r2] + [], pkt, user, sets);
      OneRule(r2, [], pkt, user, sets);
    }
  }

  /** Every LAN packet the head lets through gets the connection mark; the rest leaves unchanged. */
  lemma CtChainMarks(c: Config, pkt: Packet, sets: Sets)
    requires pkt.iif == c.lan
    ensures RunBase(CtChain(c), pkt, [], sets).1 == if HeadReturns(c, pkt) then pkt else pkt.(ctMark := c.mark)
  {
    var r := Rule([Iif(c.lan)], [SetCtMark(c.mark), Accept]);
    HeadRuns(c, pkt, [], sets);
    RunBaseAppend(Head(c), [r] + CtIngress(c), pkt, [], sets);
    assert CtChain(c) == Head(c) + ([r] + CtIngress(c));
    OneRule(r, CtIngress(c), pkt, [], sets);
    assert r.stmts[1..] == [Accept];
  }

  /** The LAN's early exits: private destinations, exempt ports and the bypass set. */
  predicate ExitsEarly(c: Config, pkt: Packet, sets: Sets) {
    || InList(pkt.daddr, PRIVATE_NETS) || Contains(c.lanNet, pkt.daddr) || Exempt(pkt)
    || InSet(pkt.daddr, "bypass_ip", sets)
  }

  /** A rule that returns what came in on `on` and matches. */
  lemma ExitRule(on: seq<Match>, m: Match, rest: seq<Rule>, pkt: Packet, user: seq<Rule>, sets: Sets)
    requires AllHold(on, pkt, sets)
    ensures RunBase([Rule(on + [m], [Return])] + rest, pkt, user, sets) ==
            if Holds(m, pkt, sets) then (Returned, pkt) else RunBase(rest, pkt, user, sets)
  {
    var r := Rule(on + [m], [Return]);
    OneRule(r, rest, pkt, user, sets);
    AllHoldAppend(on, [m], pkt, sets);
    assert AllHold([m], pkt, sets) <==> Holds([m][0], pkt, sets);
  }

  lemma LanExitsRun(c: Config, pkt: Packet, user: seq<Rule>, sets: Sets)
    requires pkt.iif == c.lan
    ensures RunBase(LanExits(c), pkt, user, sets) ==
            if ExitsEarly(c, pkt, sets) then (Returned, pkt) else (Next, pkt)
  {
    hide AllHold, InSet;
    var on := [Iif(c.lan)];
    OneHolds(Iif(c.lan), pkt, sets);
    var m1, m2, m3, m4 := DaddrNets(PRIVATE_NETS), DaddrNets([c.lanNet]), UdpDport(EXEMPT_PORTS), Daddr("bypass_ip");
    assert forall m: Match :: on + [m] == [Iif(c.lan), m];
    var c4 := [Rule(on + [m4], [Return])] + [];
    var c3 := [Rule(on + [m3], [Return])] + c4;
    var c2 := [Rule(on + [m2], [Return])] + c3;
    assert LanExits(c) == [Rule(on + [m1], [Return])] + c2;
    ExitRule(on, m1, c2, pkt, user, sets);
    ExitRule(on, m2, c3, pkt, user, sets);
    ExitRule(on, m3, c4, pkt, user, sets);
    ExitRule(on, m4, [], pkt, user, sets);
    assert InList(pkt.daddr, [c.lanNet]) <==> Contains([c.lanNet][0], pkt.daddr);
  }

  /** The system default for a marked packet: everything but CN destinations gets the packet mark. */
  predicate DefaultMarks(c: Config, dst: Ipv4, sets: Sets) {
    InSet(dst, "ext_const", sets) || c.global || !InSet(dst, "TO_CN", sets)
  }

  /** A rule that copies the connection mark to the packet. */
  lemma MarkRule(on: seq<Match>, ms: seq<Match>, more: seq<Stmt>, rest: seq<Rule>, pkt: Packet, c: Config,
                 user: seq<Rule>, sets: Sets)
    requires AllHold(on, pkt, sets) && (more == [] || more == [Return])
    ensures var r := Rule(on + ms + [CtMarkIs(c.mark)], [MetaMarkFromCt] + more);
            RunBase([r] + rest, pkt, user, sets) ==
            if pkt.ctMark != c.mark || !AllHold(ms, pkt, sets) then RunBase(rest, pkt, user, sets)
            else if more == [] then RunBase(rest, pkt.(metaMark := c.mark), user, sets)
            else (Returned, pkt.(metaMark := c.mark))
  {
    var r := Rule(on + ms + [CtMarkIs(c.mark)], [MetaMarkFromCt] + more);
    OneRule(r, rest, pkt, user, sets);
    AllHoldAppend(on + ms, [CtMarkIs(c.mark)], pkt, sets);
    AllHoldAppend(on, ms, pkt, sets);
    assert AllHold([CtMarkIs(c.mark)], pkt, sets) <==> Holds([CtMarkIs(c.mark)][0], pkt, sets);
    assert r.stmts[1..] == more;
    assert more == [Return] ==> more[0] == Return;
  }

  /** The system defaults of one ingress. */
  lemma DefaultsRun(on: seq<Match>, c: Config, pkt: Packet, user: seq<Rule>, sets: Sets)
    requires AllHold(on, pkt, sets)
    ensures RunBase(IngressDefaults(on, c), pkt, user, sets).1 ==
            if pkt.ctMark == c.mark && DefaultMarks(c, pkt.daddr, sets) then pkt.(metaMark := c.mark) else pkt
  {
    hide Holds, AllHold;
    var always := [Daddr("ext_const")];
    var r1 := Rule(on + always + [CtMarkIs(c.mark)], [MetaMarkFromCt] + [Return]);
    var r3 := Rule(on + [] + [CtMarkIs(c.mark)], [MetaMarkFromCt] + []);
    assert on + always + [CtMarkIs(c.mark)] == on + [Daddr("ext_const"), CtMarkIs(c.mark)] && on + [] == on;
    assert [MetaMarkFromCt] + [Return] == [MetaMarkFromCt, Return] && [MetaMarkFromCt] + [] == [MetaMarkFromCt];
    OneHolds(Daddr("ext_const"), pkt, sets);
    MarkRule(on, [], [], [], pkt, c, user, sets);
    NoneHolds(pkt, sets);
    if c.global {
      assert IngressDefaults(on, c) == [r1] + ([r3] + []);
      MarkRule(on, always, [Return], [r3] + [], pkt, c, user, sets);
    } else {
      var r2 := Rule(on + [Daddr("TO_CN")], [Return]);
      assert IngressDefaults(on, c) == [r1] + ([r2] + ([r3] + []));
      MarkRule(on, always, [Return], [r2] + ([r3] + []), pkt, c, user, sets);
      ExitRule(on, Daddr("TO_CN"), [r3] + [], pkt, user, sets);
      SetHolds("TO_CN", pkt, sets);
    }
    SetHolds("ext_const", pkt, sets);
  }

  lemma OneHolds(m: Match, pkt: Packet, sets: Sets)
    ensures AllHold([m], pkt, sets) <==> Holds(m, pkt, sets)
  {
    assert AllHold([m], pkt, sets) <==> Holds([m][0], pkt, sets);
  }

  lemma NoneHolds(pkt: Packet, sets: Sets)
    ensures AllHold([], pkt, sets)
  {
  }

  lemma SetHolds(n: string, pkt: Packet, sets: Sets)
    ensures Holds(Daddr(n), pkt, sets) <==> InSet(pkt.daddr, n, sets)
  {
  }

  lemma OtherIngressForeign(c: Config, iif: string)
    requires iif == c.lan && (c.mode.Bypass? ==> c.lan != c.wan)
    requires c.mode.Transparent? ==> c.lan != "gfc-ce" && c.lan != "br-trans"
    ensures forall r :: r in RouteIngress(c) ==> Foreign(r, iif)
  {
    forall r | r in RouteIngress(c)
      ensures Foreign(r, iif)
    {
      assert r.matches[0].Iif? && r.matches[0].name != iif;
    }
  }

  lemma OverlayHeadPasses(pkt: Packet, sets: Sets)
    requires !InList(pkt.daddr, PRIVATE_NETS) && !InSet(pkt.daddr, "bypass_ip", sets)
    ensures RunUser(OverlayHead(), pkt, sets) == (Next, pkt)
  {
    forall r | r in OverlayHead()
      ensures !RuleMatches(r, pkt, sets)
    {
      assert !Holds(r.matches[0], pkt, sets);
    }
    DeadRulesPass(OverlayHead(), pkt, sets);
  }

  /** The overlay as a whole: it accepts what some policy takes, and hands back the rest untouched. */
  lemma OverlayRuns(ps: seq<Policy>, req: Request, pkt: Packet, gm: Groups, c: Config, sets: Sets)
    requires PoliciesOk(ps, gm) && Enters(c, pkt, sets)
    requires Carries(pkt, req) && AllAnswer(ps, req, pkt, gm, sets)
    requires !InList(pkt.daddr, PRIVATE_NETS) && !InSet(pkt.daddr, "bypass_ip", sets)
    ensures Overlay(ps, gm, c).Some?
    ensures var w := FirstMatch(ps, 0, req, gm);
            RunUser(Overlay(ps, gm, c).value, pkt, sets) ==
            if w < |ps| then (Accepted, Taken(pkt, ps[w].action, c.mark)) else (Next, pkt)
  {
    assert ps[0..] == ps;
    OverlayBodyRuns(ps, 0, req, pkt, gm, c, sets);
    OverlayHeadPasses(pkt, sets);
    RunUserAppend(OverlayHead(), OverlayBody(ps, gm, c).value, pkt, sets);
  }

  /** A jump whose chain accepts ends the packet's way; otherwise the next rule is tried. */
  lemma JumpRuns(rest: seq<Rule>, pkt: Packet, user: seq<Rule>, sets: Sets)
    requires var o := RunUser(user, pkt, sets).0; o.Accepted? || RunUser(user, pkt, sets) == (Next, pkt)
    ensures RunBase([Rule([], [JumpUser])] + rest, pkt, user, sets) ==
            if RunUser(user, pkt, sets).0.Accepted? then RunUser(user, pkt, sets) else RunBase(rest, pkt, user, sets)
  {
    var r := Rule([], [JumpUser]);
    OneRule(r, rest, pkt, user, sets);
    assert AllHold([], pkt, sets);
    assert r.stmts[1..] == [];
  }

  /** Everything behind the early exits, on a marked LAN packet. */
  lemma SteeringRuns(c: Config, pkt: Packet, user: seq<Rule>, sets: Sets)
    requires FromLan(c, pkt) && pkt.ctMark == c.mark
    requires RunUser(user, pkt, sets).0.Accepted? || RunUser(user, pkt, sets) == (Next, pkt)
    ensures RunBase([Rule([], [JumpUser])] + (IngressDefaults([Iif(c.lan)], c) + RouteIngress(c)), pkt, user, sets).1 ==
            if RunUser(user, pkt, sets).0.Accepted? then RunUser(user, pkt, sets).1
            else if DefaultMarks(c, pkt.daddr, sets) then pkt.(metaMark := c.mark)
            else pkt
  {
    hide IngressDefaults, RouteIngress, RunUser, RunBase, DefaultMarks;
    var defaults, others := IngressDefaults([Iif(c.lan)], c), RouteIngress(c);
    JumpRuns(defaults + others, pkt, user, sets);
    OneHolds(Iif(c.lan), pkt, sets);
    DefaultsRun([Iif(c.lan)], c, pkt, user, sets);
    RunBaseAppend(defaults, others, pkt, user, sets);
    OtherIngressForeign(c, pkt.iif);
    ForeignRulesPass(others, RunBase(defaults, pkt, user, sets).1, user, sets);
  }

  /** The routing chain on a LAN packet, marked unless the head returned it. */
  lemma RouteRuns(c: Config, pkt: Packet, user: seq<Rule>, sets: Sets)
    requires FromLan(c, pkt) && (HeadReturns(c, pkt) || pkt.ctMark == c.mark)
    requires !HeadReturns(c, pkt) && !ExitsEarly(c, pkt, sets) ==>
               RunUser(user, pkt, sets).0.Accepted? || RunUser(user, pkt, sets) == (Next, pkt)
    ensures RunBase(RouteChain(c), pkt, user, sets).1 ==
            if HeadReturns(c, pkt) || ExitsEarly(c, pkt, sets) then pkt
            else if RunUser(user, pkt, sets).0.Accepted? then RunUser(user, pkt, sets).1
            else if DefaultMarks(c, pkt.daddr, sets) then pkt.(metaMark := c.mark)
            else pkt
  {
    hide Head, LanExits, IngressDefaults, RouteIngress, RunBase, RunUser, ExitsEarly, DefaultMarks, HeadReturns,
        FromLan;
    var steering := [Rule([], [JumpUser])] + (IngressDefaults([Iif(c.lan)], c) + RouteIngress(c));
    assert RouteChain(c) == Head(c) + (LanExits(c) + steering);
    LanFacts(c, pkt);
    HeadRuns(c, pkt, user, sets);
    RunBaseAppend(Head(c), LanExits(c) + steering, pkt, user, sets);
    LanExitsRun(c, pkt, user, sets);
    RunBaseAppend(LanExits(c), steering, pkt, user, sets);
    if !HeadReturns(c, pkt) && !ExitsEarly(c, pkt, sets) {
      SteeringRuns(c, pkt, user, sets);
    }
  }

  lemma LanFacts(c: Config, pkt: Packet)
    requires FromLan(c, pkt)
    ensures pkt.iif == c.lan && c.lan != "" && pkt.metaMark == 0
  {
  }

  /** What the kernel does with a LAN packet: nothing to what it never steers, then the rail, then the first
      matching policy, then its own default. */
  lemma KernelFollowsPolicies(ps: seq<Policy>, req: Request, pkt: Packet, gm: Groups, c: Config, snap: Snapshot,
                              sets: Sets)
    requires PoliciesOk(ps, gm) && FromLan(c, pkt) && Carries(pkt, req)
    requires AllAnswer(ps, req, pkt, gm, sets) && SnapshotAnswers(snap, pkt.daddr, sets)
    ensures Overlay(ps, gm, c).Some?
    ensures var w := FirstMatch(ps, 0, req, gm);
            KernelMark(c, pkt, Overlay(ps, gm, c).value, sets) ==
            if Unsteered(c, pkt) || Rail(Some(pkt.daddr), snap).Some? then 0
            else if w < |ps| then (if ps[w].action.Proxy? then c.mark else 0)
            else if DefaultMarks(c, pkt.daddr, sets) then c.mark
            else 0
  {
    hide RunBase, RunUser, CtChain, RouteChain, OverlayBody, SetsAnswer, FirstMatch, DefaultMarks, Contains, InList;
    var marked := if HeadReturns(c, pkt) then pkt else pkt.(ctMark := c.mark);
    CtChainMarks(c, pkt, sets);
    assert ps[0..] == ps;
    MarkIrrelevant(ps, req, pkt, marked, gm, sets);
    LanEnters(c, marked, sets);
    OverlayBodyRuns(ps, 0, req, marked, gm, c, sets);
    if Rail(Some(pkt.daddr), snap).None? {
      OverlayRuns(ps, req, marked, gm, c, sets);
    }
    RouteRuns(c, marked, Overlay(ps, gm, c).value, sets);
  }

  /** Marks do not matter to what the sets answer. */
  lemma MarkIrrelevant(ps: seq<Policy>, req: Request, pkt: Packet, marked: Packet, gm: Groups, sets: Sets)
    requires PoliciesOk(ps, gm) && AllAnswer(ps, req, pkt, gm, sets)
    requires marked.saddr == pkt.saddr && marked.daddr == pkt.daddr
    ensures AllAnswer(ps, req, marked, gm, sets)
  {
    hide PolicyOk, GroupsOk, DestMatches;
    forall i | 0 <= i < |ps| && ps[i].enabled
      ensures SetsAnswer(ps[i], req, marked, gm, sets)
    {
      assert SetsAnswer(ps[i], req, pkt, gm, sets);
    }
  }

  /** Where kernel and probe part on a steered packet: in split mode, past the rail and every policy, a CN
      destination that is also in the dynamic set, which no kernel rule consults. */
  predicate Diverges(ps: seq<Policy>, req: Request, gm: Groups, snap: Snapshot, global: bool, dst: Ipv4)
    requires GroupsOk(gm)
  {
    && !global && Rail(Some(dst), snap).None? && FirstMatch(ps, 0, req, gm) == |ps|
    && InList(dst, snap.toCn) && InList(dst, snap.ext) && !InList(dst, snap.extConst)
  }

  /** The kernel and the probe give the packet the same treatment. */
  predicate Agrees(ps: seq<Policy>, req: Request, pkt: Packet, gm: Groups, c: Config, snap: Snapshot, sets: Sets)
    requires GroupsOk(gm) && Overlay(ps, gm, c).Some?
  {
    KernelMark(c, pkt, Overlay(ps, gm, c).value, sets) == c.mark <==>
    ProbeVerdict(req, ps, gm, snap, c.global).action == Proxy
  }

  /** The probe's system default sends the destination direct. */
  predicate DirectByDefault(snap: Snapshot, global: bool, dst: Ipv4)
  {
    !global && InList(dst, snap.toCn) && !InList(dst, snap.extConst) && !InList(dst, snap.ext)
  }

  /** The probe lets the destination go direct: by the rail, by the first matching policy, or by default. */
  predicate ProbedDirect(ps: seq<Policy>, req: Request, gm: Groups, snap: Snapshot, global: bool, dst: Ipv4)
    requires GroupsOk(gm)
  {
    var w := FirstMatch(ps, 0, req, gm);
    || Rail(Some(dst), snap).Some?
    || (if w < |ps| then ps[w].action.Direct? else DirectByDefault(snap, global, dst))
  }

  /** Exactly when they do: what the kernel never steers must be direct for the probe too, and the rest must
      not diverge. */
  predicate ShouldAgree(ps: seq<Policy>, req: Request, pkt: Packet, gm: Groups, c: Config, snap: Snapshot)
    requires GroupsOk(gm)
  {
    if Unsteered(c, pkt) then ProbedDirect(ps, req, gm, snap, c.global, pkt.daddr)
    else !Diverges(ps, req, gm, snap, c.global, pkt.daddr)
  }

  lemma ProbedDirectIff(ps: seq<Policy>, req: Request, gm: Groups, snap: Snapshot, global: bool, dst: Ipv4)
    requires GroupsOk(gm) && DstOf(req.target) == Some(dst)
    ensures ProbedDirect(ps, req, gm, snap, global, dst) <==> ProbeVerdict(req, ps, gm, snap, global).action == Direct
  {
    hide InList;
  }

  lemma KernelAgreesIff(ps: seq<Policy>, req: Request, pkt: Packet, gm: Groups, c: Config, snap: Snapshot, sets: Sets)
    requires PoliciesOk(ps, gm) && c.mark != 0 && FromLan(c, pkt) && Carries(pkt, req)
    requires AllAnswer(ps, req, pkt, gm, sets) && SnapshotAnswers(snap, pkt.daddr, sets)
    ensures Overlay(ps, gm, c).Some?
    ensures Agrees(ps, req, pkt, gm, c, snap, sets) <==> ShouldAgree(ps, req, pkt, gm, c, snap)
  {
    hide KernelMark, Overlay, Contains, InList, Unsteered;
    KernelFollowsPolicies(ps, req, pkt, gm, c, snap, sets);
    ProbedDirectIff(ps, req, gm, snap, c.global, pkt.daddr);
  }

  // ---- Two packets treated differently ----

  const PLAIN := Config("br-lan", "eth0", "gfctun", Cidr(0xC0A8_4400, 24), 0x2023, false, Gateway)

  /** 8.8.8.8 as a CN prefix that the dynamic set holds as well. */
  const BOTH_SETS := Snapshot([], [Cidr(0x0808_0808, 32)], [], [Cidr(0x0808_0808, 32)])

  const NOWHERE := Snapshot([], [], [], [])

  function PacketTo(dst: Ipv4, port: Option<nat>): Packet {
    Packet("br-lan", 0xC0A8_4405, dst, false, false, port, 0, 0)
  }

  function ProbeTo(dst: Ipv4): Request {
    Request(Some(0xC0A8_4405), ToAddress(dst))
  }

  lemma OneAddress(ip: Ipv4, dst: Ipv4)
    ensures InList(ip, [Cidr(dst, 32)]) <==> ip == dst
  {
    assert Size(Cidr(dst, 32)) == 1;
    ContainsIsInterval(Cidr(dst, 32), ip);
    assert InList(ip, [Cidr(dst, 32)]) <==> Contains([Cidr(dst, 32)][0], ip);
  }

  /** In split mode, with no policy: the kernel leaves 8.8.8.8 direct and the probe says proxy. */
  lemma DivergenceHappens()
    ensures Overlay([], map[], PLAIN).Some?
    ensures var sets := map["TO_CN" := [Cidr(0x0808_0808, 32)]];
            !Agrees([], ProbeTo(0x0808_0808), PacketTo(0x0808_0808, None), map[], PLAIN, BOTH_SETS, sets)
  {
    hide KernelMark, Overlay, Rail, Contains, InList;
    var dst: Ipv4, sets := 0x0808_0808, map["TO_CN" := [Cidr(0x0808_0808, 32)]];
    OneAddress(dst, dst);
    PublicPastRail(BOTH_SETS);
    NothingListed(dst);
    OutsideLan(dst);
    KernelAgreesIff([], ProbeTo(dst), PacketTo(dst, None), map[], PLAIN, BOTH_SETS, sets);
  }

  lemma NothingListed(ip: Ipv4)
    ensures !InList(ip, [])
  {
  }

  lemma OutsideLan(ip: Ipv4)
    requires ip == 0x0808_0808
    ensures !Contains(PLAIN.lanNet, ip)
  {
    ContainsIsInterval(PLAIN.lanNet, ip);
    assert Pow2(8) == 256;
    assert Masked(PLAIN.lanNet.ip, PLAIN.lanNet) == 0xC0A8_4400;
  }

  /** A DNS query to 8.8.8.8 is never steered, and the probe says proxy. */
  lemma UnsteeredDisagreementHappens()
    ensures Overlay([], map[], PLAIN).Some?
    ensures !Agrees([], ProbeTo(0x0808_0808), PacketTo(0x0808_0808, Some(53)), map[], PLAIN, NOWHERE, map[])
  {
    hide KernelMark, Overlay, Rail, Contains, InList;
    var dst: Ipv4 := 0x0808_0808;
    PublicPastRail(NOWHERE);
    NothingListed(dst);
    KernelAgreesIff([], ProbeTo(dst), PacketTo(dst, Some(53)), map[], PLAIN, NOWHERE, map[]);
  }

  // ---- From the operator's lists to the packet ----

  /** The domain sets were resolved as the names match: for every enabled domain policy, the addresses
      resolved for its group hold the packet's destination exactly when the probed name is in the group. */
  ghost predicate DomainsResolved(ps: seq<Policy>, req: Request, pkt: Packet, gm: Groups,
                                  resolved: map<string, seq<Cidr>>)
    requires PoliciesOk(ps, gm)
  {
    forall i :: 0 <= i < |ps| && ps[i].enabled && ps[i].dom.Some? && ps[i].dom.value in gm ==>
      InList(pkt.daddr, ElementsOf(gm[ps[i].dom.value], resolved)) == DestMatches(ps[i], req.target, gm)
  }

  /** Writing the collected groups with distinct names makes the sets answer for an enabled policy. */
  lemma SyncedSetsAnswer(p: Policy, req: Request, pkt: Packet, gm: Groups,
                         needed: seq<Group>, resolved: map<string, seq<Cidr>>, sets: Sets)
    requires GroupsOk(gm) && PolicyOk(p, gm) && NamesApart(needed)
    requires forall id :: NamesGroup(p, id) ==> id in gm && gm[id] in needed
    requires p.dom.Some? ==> InList(pkt.daddr, ElementsOf(gm[p.dom.value], resolved)) == DestMatches(p, req.target, gm)
    ensures SetsAnswer(p, req, pkt, gm, SyncUserSets(needed, resolved, sets))
  {
    hide InList, SyncUserSets, SetNameFor, GroupsOk, NamesApart;
    if p.src.Some? {
      assert NamesGroup(p, p.src.value);
      DistinctNamesKeepGroups(needed, resolved, sets, gm[p.src.value]);
    }
    if p.dst.Some? {
      assert NamesGroup(p, p.dst.value);
      DistinctNamesKeepGroups(needed, resolved, sets, gm[p.dst.value]);
    }
    if p.dom.Some? {
      assert NamesGroup(p, p.dom.value);
      DistinctNamesKeepGroups(needed, resolved, sets, gm[p.dom.value]);
    }
  }

  lemma NamedExists(p: Policy, gm: Groups, id: string)
    requires PolicyOk(p, gm) && NamesGroup(p, id)
    ensures id in gm
  {
  }

  lemma CollectedSetsAnswer(ps: seq<Policy>, req: Request, pkt: Packet, gm: Groups,
                            needed: seq<Group>, resolved: map<string, seq<Cidr>>, base: Sets)
    requires PoliciesOk(ps, gm) && Collected(needed, ps, gm) && NamesApart(needed)
    requires DomainsResolved(ps, req, pkt, gm, resolved)
    ensures AllAnswer(ps, req, pkt, gm, SyncUserSets(needed, resolved, base))
  {
    hide SyncUserSets, SetsAnswer, GroupsOk, InList, NamesApart, ElementsOf, DestMatches;
    forall i | 0 <= i < |ps| && ps[i].enabled
      ensures SetsAnswer(ps[i], req, pkt, gm, SyncUserSets(needed, resolved, base))
    {
      forall id | NamesGroup(ps[i], id)
        ensures id in gm && gm[id] in needed
      {
        NamedExists(ps[i], gm, id);
        NeededIsNamed(ps, gm, i, id);
      }
      SyncedSetsAnswer(ps[i], req, pkt, gm, needed, resolved, base);
    }
  }

  lemma SnapshotStillAnswers(snap: Snapshot, dst: Ipv4, needed: seq<Group>, resolved: map<string, seq<Cidr>>,
                             base: Sets)
    requires SnapshotAnswers(snap, dst, base)
    ensures SnapshotAnswers(snap, dst, SyncUserSets(needed, resolved, base))
  {
    hide SyncUserSets, InList;
    SystemSetsUntouched(needed, resolved, base, "bypass_ip");
    SystemSetsUntouched(needed, resolved, base, "ext_const");
    SystemSetsUntouched(needed, resolved, base, "TO_CN");
  }

  /**
   * Compilation preserves meaning, end to end. After the groups of the enabled policies are collected and
   * written to their sets, and the policies are compiled, a LAN packet leaves the kernel with the proxy mark
   * if and only if the probe answers proxy, with the exact exceptions of `ShouldAgree`. Set names must be
   * distinct, domain groups resolved as the names match, and the system's sets those of the snapshot.
   */
  lemma KernelAgreesWithProbe(ps: seq<Policy>, req: Request, pkt: Packet, gm: Groups, c: Config, snap: Snapshot,
                              needed: seq<Group>, resolved: map<string, seq<Cidr>>, base: Sets)
    requires PoliciesOk(ps, gm) && c.mark != 0 && FromLan(c, pkt) && Carries(pkt, req)
    requires Collected(needed, ps, gm) && NamesApart(needed)
    requires DomainsResolved(ps, req, pkt, gm, resolved) && SnapshotAnswers(snap, pkt.daddr, base)
    ensures Overlay(ps, gm, c).Some?
    ensures Agrees(ps, req, pkt, gm, c, snap, SyncUserSets(needed, resolved, base)) <==>
            ShouldAgree(ps, req, pkt, gm, c, snap)
  {
    hide *;
    CollectedSetsAnswer(ps, req, pkt, gm, needed, resolved, base);
    SnapshotStillAnswers(snap, pkt.daddr, needed, resolved, base);
    KernelAgreesIff(ps, req, pkt, gm, c, snap, SyncUserSets(needed, resolved, base));
  }

  /** LAN packets to an exempt UDP port, to the LAN's own prefix, and outside gateway mode to the box itself
      are never marked, whatever the policies say. */
  lemma UnsteeredStaysDirect(c: Config, pkt: Packet, overlay: seq<Rule>, sets: Sets)
    requires FromLan(c, pkt) && Unsteered(c, pkt)
    ensures KernelMark(c, pkt, overlay, sets) == 0
  {
    hide RunBase, RunUser, CtChain, RouteChain, DefaultMarks, Contains, InList;
    CtChainMarks(c, pkt, sets);
    RouteRuns(c, if HeadReturns(c, pkt) then pkt else pkt.(ctMark := c.mark), overlay, sets);
  }
}
