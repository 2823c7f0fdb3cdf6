/** Customers of the bypass and transparent modes: how the kernel steers what comes in from them. */
module PolicyCustomers {
  import opened Net
  import opened Cidrs
  import opened Policies
  import opened PolicyShadowing
  import opened Nft
  import opened PolicyCompiler
  import opened PolicyAgreement

  // ---- Rules of other interfaces ----

  /** The rules but for those of other interfaces. */
  function Native(rules: seq<Rule>, iif: string): seq<Rule> {
    if rules == [] then []
    else (if Foreign(rules[0], iif) then [] else [rules[0]]) + Native(rules[1..], iif)
  }

  lemma {:induction false} NativeAppend(a: seq<Rule>, b: seq<Rule>, iif: string)
    ensures Native(a + b, iif) == Native(a, iif) + Native(b, iif)
  {
    if a == [] {
      assert a + b == b;
    } else {
      assert (a + b)[0] == a[0] && (a + b)[1..] == a[1..] + b;
      NativeAppend(a[1..], b, iif);
    }
  }

  lemma {:induction false} AllForeign(a: seq<Rule>, iif: string)
    requires forall r :: r in a ==> Foreign(r, iif)
    ensures Native(a, iif) == []
  {
    if a == [] {
    } else {
      AllForeign(a[1..], iif);
    }
  }

  lemma {:induction false} NoneForeign(a: seq<Rule>, iif: string)
    requires forall r :: r in a ==> !Foreign(r, iif)
    ensures Native(a, iif) == a
  {
    if a == [] {
    } else {
      NoneForeign(a[1..], iif);
    }
  }

  lemma {:induction false} FlatKeepsIif(stmts: seq<Stmt>, p: Packet)
    ensures RunFlat(stmts, p).1.iif == p.iif
  {
    if stmts == [] {
    } else if stmts[0].SetCtMark? {
      FlatKeepsIif(stmts[1..], p.(ctMark := stmts[0].mark));
    } else if stmts[0].MetaMarkFromCt? {
      FlatKeepsIif(stmts[1..], p.(metaMark := p.ctMark));
    } else if stmts[0].JumpUser? {
      FlatKeepsIif(stmts[1..], p);
    }
  }

  lemma {:induction false} UserKeepsIif(rules: seq<Rule>, p: Packet, sets: Sets)
    ensures RunUser(rules, p, sets).1.iif == p.iif
  {
    if rules == [] {
    } else {
      FlatKeepsIif(rules[0].stmts, p);
      var (o, q) := if RuleMatches(rules[0], p, sets) then RunFlat(rules[0].stmts, p) else (Next, p);
      UserKeepsIif(rules[1..], q, sets);
    }
  }

  lemma {:induction false} StmtsKeepIif(stmts: seq<Stmt>, p: Packet, user: seq<Rule>, sets: Sets)
    ensures RunStmts(stmts, p, user, sets).1.iif == p.iif
  {
    if stmts == [] {
    } else if stmts[0].SetCtMark? {
      StmtsKeepIif(stmts[1..], p.(ctMark := stmts[0].mark), user, sets);
    } else if stmts[0].MetaMarkFromCt? {
      StmtsKeepIif(stmts[1..], p.(metaMark := p.ctMark), user, sets);
    } else if stmts[0].JumpUser? {
      UserKeepsIif(user, p, sets);
      StmtsKeepIif(stmts[1..], RunUser(user, p, sets).1, user, sets);
    }
  }

  lemma ForeignFails(r: Rule, p: Packet, sets: Sets)
    requires Foreign(r, p.iif)
    ensures !RuleMatches(r, p, sets)
  {
    var i :| 0 <= i < |r.matches| && r.matches[i].Iif? && r.matches[i].name != p.iif;
    assert !Holds(r.matches[i], p, sets);
  }

  /** The rules of other interfaces can be left out. */
  lemma {:induction false} RunNative(rules: seq<Rule>, p: Packet, user: seq<Rule>, sets: Sets)
    ensures RunBase(rules, p, user, sets) == RunBase(Native(rules, p.iif), p, user, sets)
  {
    hide Foreign, RuleMatches, RunStmts;
    if rules == [] {
    } else {
      var r := rules[0];
      if Foreign(r, p.iif) {
        ForeignFails(r, p, sets);
        RunNative(rules[1..], p, user, sets);
        assert Native(rules, p.iif) == Native(rules[1..], p.iif);
      } else {
        StmtsKeepIif(r.stmts, p, user, sets);
        var (o, q) := if RuleMatches(r, p, sets) then RunStmts(r.stmts, p, user, sets) else (Next, p);
        RunNative(rules[1..], q, user, sets);
        OneRule(r, Native(rules[1..], p.iif), p, user, sets);
      }
    }
  }

  // ---- Customers ----

  /** Where customers come in, besides the LAN: the WAN for listed hosts, or either side of the cable. */
  predicate CustomerIngress(c: Config, on: seq<Match>) {
    match c.mode
    case Gateway => false
    case Bypass => c.wan != "" && on == [Iif(c.wan), Saddr("customer_hosts")]
    case Transparent => on == [Iif("gfc-ce")] || on == [Iif("br-trans")]
  }

  /** A fresh packet from a customer, which does not come in from the LAN. */
  predicate FromCustomer(c: Config, on: seq<Match>, pkt: Packet, sets: Sets) {
    CustomerIngress(c, on) && AllHold(on, pkt, sets) && pkt.iif != c.lan && pkt.metaMark == 0
  }

  lemma CustomerIif(c: Config, on: seq<Match>, pkt: Packet, sets: Sets)
    requires CustomerIngress(c, on) && AllHold(on, pkt, sets)
    ensures on[0] == Iif(pkt.iif) && forall i :: 0 < i < |on| ==> !on[i].Iif?
    ensures pkt.iif == if c.mode.Bypass? then c.wan else if on[0] == Iif("gfc-ce") then "gfc-ce" else "br-trans"
  {
    assert Holds(on[0], pkt, sets);
  }

  lemma CustomerEnters(c: Config, on: seq<Match>, pkt: Packet, sets: Sets)
    requires CustomerIngress(c, on) && AllHold(on, pkt, sets)
    ensures Enters(c, pkt, sets)
  {
    var lan := if c.lan != "" then [[Iif(c.lan)]] else [];
    var k := if c.mode.Transparent? && on == [Iif("br-trans")] then |lan| + 1 else |lan|;
    assert Ingresses(c)[k] == on;
  }

  /** The connection state that exempts a bypass customer's answers from marking. */
  predicate Answering(c: Config, pkt: Packet) {
    c.mode.Bypass? && pkt.established
  }

  /** What leaves the first chain. */
  function Marked(c: Config, pkt: Packet): Packet {
    if HeadReturns(c, pkt) || Answering(c, pkt) then pkt else pkt.(ctMark := c.mark)
  }

  /** The customer's own rule sets the connection mark. */
  lemma MarkingRule(on: seq<Match>, rest: seq<Rule>, mark: nat, pkt: Packet, sets: Sets)
    requires AllHold(on, pkt, sets)
    ensures RunBase([Rule(on, [SetCtMark(mark), Accept])] + rest, pkt, [], sets) == (Accepted, pkt.(ctMark := mark))
  {
    var r := Rule(on, [SetCtMark(mark), Accept]);
    OneRule(r, rest, pkt, [], sets);
    assert r.stmts[1..] == [Accept];
  }

  lemma CtIngressRuns(c: Config, on: seq<Match>, pkt: Packet, sets: Sets)
    requires FromCustomer(c, on, pkt, sets)
    ensures RunBase(CtIngress(c), pkt, [], sets).1 == if Answering(c, pkt) then pkt else pkt.(ctMark := c.mark)
  {
    CustomerIif(c, on, pkt, sets);
    var mark := Rule(on, [SetCtMark(c.mark), Accept]);
    if c.mode.Bypass? {
      assert CtIngress(c) == [Rule(on + [Established], [Return])] + ([mark] + []);
      ExitRule(on, Established, [mark] + [], pkt, [], sets);
      MarkingRule(on, [], c.mark, pkt, sets);
    } else if on == [Iif("gfc-ce")] {
      var other := Rule([Iif("br-trans")], [SetCtMark(c.mark), Accept]);
      assert CtIngress(c) == [mark] + [other];
      MarkingRule(on, [other], c.mark, pkt, sets);
    } else {
      var other := Rule([Iif("gfc-ce")], [SetCtMark(c.mark), Accept]);
      assert CtIngress(c) == [other] + ([mark] + []);
      assert Foreign(other, pkt.iif);
      ForeignFails(other, pkt, sets);
      OneRule(other, [mark] + [], pkt, [], sets);
      MarkingRule(on, [], c.mark, pkt, sets);
    }
  }

  lemma CustomerIsMarked(c: Config, on: seq<Match>, pkt: Packet, sets: Sets)
    requires FromCustomer(c, on, pkt, sets)
    ensures RunBase(CtChain(c), pkt, [], sets).1 == Marked(c, pkt)
  {
    hide CtIngress, Head, HeadReturns;
    var lan := Rule([Iif(c.lan)], [SetCtMark(c.mark), Accept]);
    assert CtChain(c) == Head(c) + ([lan] + CtIngress(c));
    HeadRuns(c, pkt, [], sets);
    RunBaseAppend(Head(c), [lan] + CtIngress(c), pkt, [], sets);
    assert lan.matches[0] == Iif(c.lan) && Foreign(lan, pkt.iif);
    ForeignFails(lan, pkt, sets);
    OneRule(lan, CtIngress(c), pkt, [], sets);
    CtIngressRuns(c, on, pkt, sets);
  }

  /** What stays on the customer's side: other customers in bypass mode, the LAN's prefix in transparent mode. */
  predicate StaysLocal(c: Config, pkt: Packet, sets: Sets) {
    if c.mode.Bypass? then InSet(pkt.daddr, "customer_hosts", sets) else Contains(c.lanNet, pkt.daddr)
  }

  /** The customer's exits, behind the user overlay. */
  predicate CustomerExits(c: Config, pkt: Packet, sets: Sets) {
    || InList(pkt.daddr, PRIVATE_NETS) || StaysLocal(c, pkt, sets) || Exempt(pkt)
    || InSet(pkt.daddr, "bypass_ip", sets)
  }

  lemma CustomerExitsRun(on: seq<Match>, c: Config, pkt: Packet, user: seq<Rule>, sets: Sets)
    requires AllHold(on, pkt, sets)
    ensures RunBase(IngressExits(on, c), pkt, user, sets) ==
            if CustomerExits(c, pkt, sets) then (Returned, pkt) else (Next, pkt)
  {
    hide AllHold, InSet;
    var m1, m3, m4 := DaddrNets(PRIVATE_NETS), UdpDport(EXEMPT_PORTS), Daddr("bypass_ip");
    var m2 := if c.mode.Bypass? then Daddr("customer_hosts") else DaddrNets([c.lanNet]);
    var c4 := [Rule(on + [m4], [Return])] + [];
    var c3 := [Rule(on + [m3], [Return])] + c4;
    var c2 := [Rule(on + [m2], [Return])] + c3;
    assert IngressExits(on, c) == [Rule(on + [m1], [Return])] + c2;
    ExitRule(on, m1, c2, pkt, user, sets);
    ExitRule(on, m2, c3, pkt, user, sets);
    ExitRule(on, m3, c4, pkt, user, sets);
    ExitRule(on, m4, [], pkt, user, sets);
    assert InList(pkt.daddr, [c.lanNet]) <==> Contains([c.lanNet][0], pkt.daddr);
  }

  /** Among the rules of all ingresses, those of the packet's own are its exits and its defaults. */
  lemma OwnRules(c: Config, on: seq<Match>, pkt: Packet, sets: Sets)
    requires CustomerIngress(c, on) && AllHold(on, pkt, sets)
    ensures Native(RouteIngress(c), pkt.iif) == IngressExits(on, c) + IngressDefaults(on, c)
  {
    CustomerIif(c, on, pkt, sets);
    if c.mode.Bypass? {
      OwnAreNative(on, c, pkt.iif);
    } else {
      hide IngressExits, IngressDefaults;
      TransparentRules(c, on);
    }
  }

  lemma OwnAreNative(on: seq<Match>, c: Config, iif: string)
    requires on != [] && on[0] == Iif(iif) && forall i :: 0 < i < |on| ==> !on[i].Iif?
    ensures Native(IngressExits(on, c) + IngressDefaults(on, c), iif) == IngressExits(on, c) + IngressDefaults(on, c)
  {
    var rules := IngressExits(on, c) + IngressDefaults(on, c);
    forall r | r in rules
      ensures !Foreign(r, iif)
    {
      assert r.matches[..|on|] == on;
      assert forall i :: 0 <= i < |on| ==> r.matches[i] == on[i];
      assert forall i :: |on| <= i < |r.matches| ==> !r.matches[i].Iif?;
    }
    NoneForeign(rules, iif);
  }

  lemma OthersAreForeign(on: seq<Match>, c: Config, iif: string)
    requires on != [] && on[0].Iif? && on[0].name != iif
    ensures Native(IngressExits(on, c), iif) == []
    ensures forall r :: r in IngressDefaults(on, c) ==> Foreign(r, iif)
  {
    forall r | r in IngressExits(on, c) + IngressDefaults(on, c)
      ensures Foreign(r, iif)
    {
      assert r.matches[..|on|] == on;
      assert r.matches[0] == on[0];
    }
    AllForeign(IngressExits(on, c), iif);
  }

  /** The defaults of one ingress are three rules, or two without CN routing. */
  lemma DefaultsInParts(on: seq<Match>, c: Config)
    ensures var d := IngressDefaults(on, c);
            && d == [d[0]] + (if c.global then [] else [Rule(on + [Daddr("TO_CN")], [Return])])
                    + [Rule(on + [CtMarkIs(c.mark)], [MetaMarkFromCt])]
  {
  }

  lemma NativeOfSix(u: seq<Rule>, v: seq<Rule>, w: seq<Rule>, x: seq<Rule>, y: seq<Rule>, z: seq<Rule>, iif: string)
    ensures Native(u + v + w + x + y + z, iif)
            == Native(u, iif) + Native(v, iif) + Native(w, iif) + Native(x, iif) + Native(y, iif) + Native(z, iif)
  {
    hide Native;
    NativeAppend(u + v + w + x + y, z, iif);
    NativeAppend(u + v + w + x, y, iif);
    NativeAppend(u + v + w, x, iif);
    NativeAppend(u + v, w, iif);
    NativeAppend(u, v, iif);
  }

  /** The rules of one side of the cable, seen from there. */
  lemma SideNative(c: Config, on: seq<Match>, iif: string)
    requires on == [Iif(iif)]
    ensures Native(IngressExits(on, c), iif) == IngressExits(on, c)
    ensures Native([IngressDefaults(on, c)[0]], iif) == [IngressDefaults(on, c)[0]]
  {
    OwnExits(on, c, iif);
    NoneForeign([IngressDefaults(on, c)[0]], iif);
  }

  /** The same, seen from the other side. */
  lemma SideForeign(c: Config, on: seq<Match>, iif: string)
    requires |on| == 1 && on[0].Iif? && on[0].name != iif
    ensures Native(IngressExits(on, c), iif) == []
    ensures Native([IngressDefaults(on, c)[0]], iif) == []
  {
    OthersAreForeign(on, c, iif);
    AllForeign([IngressDefaults(on, c)[0]], iif);
  }

  /** The interleaved rules of the two sides of the cable, seen from one of them. */
  lemma TransparentRules(c: Config, on: seq<Match>)
    requires c.mode.Transparent? && (on == [Iif("gfc-ce")] || on == [Iif("br-trans")])
    ensures Native(RouteIngress(c), on[0].name) == IngressExits(on, c) + IngressDefaults(on, c)
  {
    hide Native, IngressExits;
    var ce, br, iif := [Iif("gfc-ce")], [Iif("br-trans")], on[0].name;
    var cn := if c.global then [] else [Rule(ce + [Daddr("TO_CN")], [Return]), Rule(br + [Daddr("TO_CN")], [Return])];
    var marks := [Rule(ce + [CtMarkIs(c.mark)], [MetaMarkFromCt]), Rule(br + [CtMarkIs(c.mark)], [MetaMarkFromCt])];
    var x, y := IngressExits(ce, c), IngressExits(br, c);
    var d, e := [IngressDefaults(ce, c)[0]], [IngressDefaults(br, c)[0]];
    assert RouteIngress(c) == x + d + y + e + cn + marks;
    NativeOfSix(x, d, y, e, cn, marks, iif);
    PairNative(iif, Daddr("TO_CN"), [Return]);
    PairNative(iif, CtMarkIs(c.mark), [MetaMarkFromCt]);
    NothingNative(iif);
    DefaultsInParts(on, c);
    hide IngressDefaults, RouteIngress;
    if on == ce {
      SideNative(c, ce, iif);
      SideForeign(c, br, iif);
    } else {
      SideForeign(c, ce, iif);
      SideNative(c, br, iif);
    }
  }

  lemma NothingNative(iif: string)
    ensures Native([], iif) == []
  {
  }

  lemma OwnExits(on: seq<Match>, c: Config, iif: string)
    requires |on| == 1 && on[0] == Iif(iif)
    ensures Native(IngressExits(on, c), iif) == IngressExits(on, c)
    ensures forall r :: r in IngressDefaults(on, c) ==> !Foreign(r, iif)
  {
    forall r | r in IngressExits(on, c) + IngressDefaults(on, c)
      ensures !Foreign(r, iif)
    {
      assert r.matches[0] == on[0];
      assert forall i :: 1 <= i < |r.matches| ==> !r.matches[i].Iif?;
    }
    NoneForeign(IngressExits(on, c), iif);
  }

  /** Of a rule for either side of the cable, one is native. */
  lemma PairNative(iif: string, m: Match, stmts: seq<Stmt>)
    requires (iif == "gfc-ce" || iif == "br-trans") && !m.Iif?
    ensures Native([Rule([Iif("gfc-ce")] + [m], stmts), Rule([Iif("br-trans")] + [m], stmts)], iif)
            == [Rule([Iif(iif)] + [m], stmts)]
  {
    var a, b := Rule([Iif("gfc-ce")] + [m], stmts), Rule([Iif("br-trans")] + [m], stmts);
    assert a.matches[0].Iif? && b.matches[0].Iif?;
    assert [a, b] == [a] + [b];
    NativeAppend([a], [b], iif);
    if iif == "gfc-ce" {
      assert !Foreign(a, iif) && Foreign(b, iif);
      NoneForeign([a], iif);
      AllForeign([b], iif);
    } else {
      assert Foreign(a, iif) && !Foreign(b, iif);
      AllForeign([a], iif);
      NoneForeign([b], iif);
    }
  }

  /** The customer's own exits and defaults, on a packet no policy took. */
  lemma OwnRulesRun(c: Config, on: seq<Match>, pkt: Packet, user: seq<Rule>, sets: Sets)
    requires CustomerIngress(c, on) && AllHold(on, pkt, sets)
    ensures RunBase(RouteIngress(c), pkt, user, sets).1 ==
            if CustomerExits(c, pkt, sets) || pkt.ctMark != c.mark || !DefaultMarks(c, pkt.daddr, sets) then pkt
            else pkt.(metaMark := c.mark)
  {
    hide RouteIngress, IngressExits, IngressDefaults, CustomerExits, DefaultMarks, RunBase, Native;
    RunNative(RouteIngress(c), pkt, user, sets);
    OwnRules(c, on, pkt, sets);
    CustomerExitsRun(on, c, pkt, user, sets);
    RunBaseAppend(IngressExits(on, c), IngressDefaults(on, c), pkt, user, sets);
    DefaultsRun(on, c, pkt, user, sets);
  }

  /** The rules of the LAN do not concern the packet. */
  lemma LanRulesForeign(c: Config, iif: string)
    requires iif != c.lan
    ensures forall r :: r in LanExits(c) ==> Foreign(r, iif)
    ensures forall r :: r in IngressDefaults([Iif(c.lan)], c) ==> Foreign(r, iif)
  {
    forall r | r in LanExits(c) + IngressDefaults([Iif(c.lan)], c)
      ensures Foreign(r, iif)
    {
      assert r.matches[0] == Iif(c.lan);
    }
  }

  /** The overlay on a customer's packet the head let through: a jump that policies decide. The rail's
      destinations come back from it untouched. */
  lemma OverlayOnRail(c: Config, rules: seq<Rule>, pkt: Packet, sets: Sets)
    requires InList(pkt.daddr, PRIVATE_NETS) || InSet(pkt.daddr, "bypass_ip", sets)
    ensures RunUser(OverlayHead() + rules, pkt, sets) == (Returned, pkt)
  {
    var r1, r2 := Rule([DaddrNets(PRIVATE_NETS)], [Return]), Rule([Daddr("bypass_ip")], [Return]);
    var all := OverlayHead() + rules;
    assert all[0] == r1 && all[1..][0] == r2;
    OneHolds(DaddrNets(PRIVATE_NETS), pkt, sets);
    OneHolds(Daddr("bypass_ip"), pkt, sets);
  }

  /** A jump, whatever the user chain does short of taking the packet. */
  lemma JumpOrPass(rest: seq<Rule>, pkt: Packet, user: seq<Rule>, sets: Sets)
    requires RunUser(user, pkt, sets).0.Accepted? || RunUser(user, pkt, sets).1 == pkt
    ensures RunBase([Rule([], [JumpUser])] + rest, pkt, user, sets) ==
            if RunUser(user, pkt, sets).0.Accepted? then RunUser(user, pkt, sets) else RunBase(rest, pkt, user, sets)
  {
    var r := Rule([], [JumpUser]);
    OneRule(r, rest, pkt, user, sets);
    assert AllHold([], pkt, sets);
    assert r.stmts[1..] == [];
  }

  /** The routing chain on a customer's packet. */
  lemma CustomerRouteRuns(c: Config, on: seq<Match>, pkt: Packet, user: seq<Rule>, sets: Sets)
    requires FromCustomer(c, on, pkt, sets)
    requires RunUser(user, pkt, sets).0.Accepted? || RunUser(user, pkt, sets).1 == pkt
    ensures RunBase(RouteChain(c), pkt, user, sets).1 ==
            if HeadReturns(c, pkt) then pkt
            else if RunUser(user, pkt, sets).0.Accepted? then RunUser(user, pkt, sets).1
            else if CustomerExits(c, pkt, sets) || pkt.ctMark != c.mark || !DefaultMarks(c, pkt.daddr, sets) then pkt
            else pkt.(metaMark := c.mark)
  {
    hide Head, LanExits, IngressDefaults, RouteIngress, RunBase, RunUser, CustomerExits, DefaultMarks, HeadReturns,
        AllHold;
    var defaults, others := IngressDefaults([Iif(c.lan)], c), RouteIngress(c);
    var steering := [Rule([], [JumpUser])] + (defaults + others);
    assert RouteChain(c) == Head(c) + (LanExits(c) + steering);
    HeadRuns(c, pkt, user, sets);
    RunBaseAppend(Head(c), LanExits(c) + steering, pkt, user, sets);
    LanRulesForeign(c, pkt.iif);
    ForeignRulesPass(LanExits(c), pkt, user, sets);
    RunBaseAppend(LanExits(c), steering, pkt, user, sets);
    JumpOrPass(defaults + others, pkt, user, sets);
    ForeignRulesPass(defaults, pkt, user, sets);
    RunBaseAppend(defaults, others, pkt, user, sets);
    OwnRulesRun(c, on, pkt, user, sets);
  }

  /** Marks and the interface a packet is marked on do not matter to where it comes from. */
  lemma MarkedIsCustomer(c: Config, on: seq<Match>, pkt: Packet, sets: Sets)
    requires FromCustomer(c, on, pkt, sets)
    ensures FromCustomer(c, on, Marked(c, pkt), sets) && (HeadReturns(c, Marked(c, pkt)) <==> HeadReturns(c, pkt))
  {
    forall i | 0 <= i < |on|
      ensures Holds(on[i], Marked(c, pkt), sets)
    {
      assert Holds(on[i], pkt, sets);
    }
  }

  /** What the overlay does with a customer's packet. */
  lemma CustomerOverlay(ps: seq<Policy>, req: Request, pkt: Packet, gm: Groups, c: Config, snap: Snapshot,
                        on: seq<Match>, sets: Sets)
    requires PoliciesOk(ps, gm) && FromCustomer(c, on, pkt, sets) && Carries(pkt, req)
    requires AllAnswer(ps, req, pkt, gm, sets) && SnapshotAnswers(snap, pkt.daddr, sets)
    ensures Overlay(ps, gm, c).Some?
    ensures var w, ran := FirstMatch(ps, 0, req, gm), RunUser(Overlay(ps, gm, c).value, pkt, sets);
            if Rail(Some(pkt.daddr), snap).None? && w < |ps| then ran == (Accepted, Taken(pkt, ps[w].action, c.mark))
            else !ran.0.Accepted? && ran.1 == pkt
  {
    hide RunUser, OverlayBody, OverlayHead, SetsAnswer, FirstMatch, InList, AllHold;
    CustomerEnters(c, on, pkt, sets);
    assert ps[0..] == ps;
    OverlayBodyRuns(ps, 0, req, pkt, gm, c, sets);
    if Rail(Some(pkt.daddr), snap).None? {
      OverlayRuns(ps, req, pkt, gm, c, sets);
    } else {
      OverlayOnRail(c, OverlayBody(ps, gm, c).value, pkt, sets);
    }
  }

  /**
   * What the kernel does with a customer's packet in bypass and transparent mode: nothing to what comes from the
   * tunnel or stays on the box; then the rail, then the first matching policy; and only then the exempt ports and
   * what stays on the customer's side, and the default mark for a connection that is marked.
   */
  lemma KernelSteersCustomers(ps: seq<Policy>, req: Request, pkt: Packet, gm: Groups, c: Config, snap: Snapshot,
                              on: seq<Match>, sets: Sets)
    requires PoliciesOk(ps, gm) && FromCustomer(c, on, pkt, sets) && Carries(pkt, req)
    requires AllAnswer(ps, req, pkt, gm, sets) && SnapshotAnswers(snap, pkt.daddr, sets)
    ensures Overlay(ps, gm, c).Some?
    ensures var w := FirstMatch(ps, 0, req, gm);
            KernelMark(c, pkt, Overlay(ps, gm, c).value, sets) ==
            if HeadReturns(c, pkt) || Rail(Some(pkt.daddr), snap).Some? then 0
            else if w < |ps| then (if ps[w].action.Proxy? then c.mark else 0)
            else if StaysLocal(c, pkt, sets) || Exempt(pkt) || (Answering(c, pkt) && pkt.ctMark != c.mark) then 0
            else if DefaultMarks(c, pkt.daddr, sets) then c.mark
            else 0
  {
    hide RunBase, RunUser, CtChain, RouteChain, Overlay, SetsAnswer, FirstMatch, DefaultMarks, Contains, InList,
        AllHold, HeadReturns, CustomerIngress;
    CustomerIsMarked(c, on, pkt, sets);
    var marked := Marked(c, pkt);
    MarkedIsCustomer(c, on, pkt, sets);
    MarkIrrelevant(ps, req, pkt, marked, gm, sets);
    CustomerOverlay(ps, req, marked, gm, c, snap, on, sets);
    CustomerRouteRuns(c, on, marked, Overlay(ps, gm, c).value, sets);
  }

  /** Exactly when kernel and probe agree on a customer's packet. */
  lemma CustomerAgreesIff(ps: seq<Policy>, req: Request, pkt: Packet, gm: Groups, c: Config, snap: Snapshot,
                          on: seq<Match>, sets: Sets)
    requires PoliciesOk(ps, gm) && c.mark != 0 && FromCustomer(c, on, pkt, sets) && Carries(pkt, req)
    requires AllAnswer(ps, req, pkt, gm, sets) && SnapshotAnswers(snap, pkt.daddr, sets)
    ensures Overlay(ps, gm, c).Some?
    ensures Agrees(ps, req, pkt, gm, c, snap, sets) <==>
            if HeadReturns(c, pkt) then ProbedDirect(ps, req, gm, snap, c.global, pkt.daddr)
            else if Rail(Some(pkt.daddr), snap).Some? || FirstMatch(ps, 0, req, gm) < |ps| then true
            else if StaysLocal(c, pkt, sets) || Exempt(pkt) || (Answering(c, pkt) && pkt.ctMark != c.mark) then
              DirectByDefault(snap, c.global, pkt.daddr)
            else !Diverges(ps, req, gm, snap, c.global, pkt.daddr)
  {
    hide KernelMark, Overlay, Contains, InList, HeadReturns, StaysLocal, Exempt, Answering, AllHold;
    KernelSteersCustomers(ps, req, pkt, gm, c, snap, on, sets);
    ProbedDirectIff(ps, req, gm, snap, c.global, pkt.daddr);
  }
}
