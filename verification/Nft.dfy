/** Just enough of nftables: rules as matches and statements, one user chain, one packet at a time. */
module Nft {
  import opened Net
  import opened Cidrs

  datatype Match =
    | Iif(name: string)
    | LocalDst
    | Saddr(setName: string)
    | Daddr(setName: string)
    | DaddrNets(nets: seq<Cidr>)
    | UdpDport(ports: set<nat>)
    | CtMarkIs(mark: nat)
    | Established

  datatype Stmt = SetCtMark(mark: nat) | MetaMarkFromCt | Accept | Return | JumpUser

  datatype Rule = Rule(matches: seq<Match>, stmts: seq<Stmt>)

  /** `local` says that the destination is one of the box's own or a broadcast address. */
  datatype Packet = Packet(
    iif: string, saddr: Ipv4, daddr: Ipv4, local: bool, established: bool, udpDport: Option<nat>, ctMark: nat,
    metaMark: nat)

  type Sets = map<string, seq<Cidr>>

  predicate InSet(ip: Ipv4, n: string, sets: Sets)
  {
    n in sets && InList(ip, sets[n])
  }

  predicate Holds(m: Match, p: Packet, sets: Sets)
  {
    match m
    case Iif(name) => p.iif == name
    case LocalDst => p.local
    case Saddr(n) => InSet(p.saddr, n, sets)
    case Daddr(n) => InSet(p.daddr, n, sets)
    case DaddrNets(nets) => InList(p.daddr, nets)
    case UdpDport(ports) => p.udpDport.Some? && p.udpDport.value in ports
    case CtMarkIs(mark) => p.ctMark == mark
    case Established => p.established
  }

  predicate AllHold(ms: seq<Match>, p: Packet, sets: Sets)
  {
    forall i :: 0 <= i < |ms| ==> Holds(ms[i], p, sets)
  }

  lemma AllHoldAppend(a: seq<Match>, b: seq<Match>, p: Packet, sets: Sets)
    ensures AllHold(a + b, p, sets) <==> AllHold(a, p, sets) && AllHold(b, p, sets)
  {
    assert forall i :: 0 <= i < |a| ==> (a + b)[i] == a[i];
    assert forall i :: 0 <= i < |b| ==> (a + b)[|a| + i] == b[i];
  }

  predicate RuleMatches(r: Rule, p: Packet, sets: Sets)
  {
    AllHold(r.matches, p, sets)
  }

  datatype Outcome = Next | Accepted | Returned

  /** The statements of a matching rule, in order; a verdict ends them. A jump comes back unless the
      user chain accepted the packet. */
  function RunStmts(stmts: seq<Stmt>, p: Packet, user: seq<Rule>, sets: Sets): (Outcome, Packet)
  {
    if stmts == [] then (Next, p)
    else
      match stmts[0]
      case SetCtMark(mark) => RunStmts(stmts[1..], p.(ctMark := mark), user, sets)
      case MetaMarkFromCt => RunStmts(stmts[1..], p.(metaMark := p.ctMark), user, sets)
      case Accept => (Accepted, p)
      case Return => (Returned, p)
      case JumpUser =>
        var (o, q) := RunUser(user, p, sets);
        if o.Accepted? then (o, q) else RunStmts(stmts[1..], q, user, sets)
  }

  /** The statements of a user chain, which jumps nowhere. */
  function RunFlat(stmts: seq<Stmt>, p: Packet): (Outcome, Packet) {
    if stmts == [] then (Next, p)
    else
      match stmts[0]
      case SetCtMark(mark) => RunFlat(stmts[1..], p.(ctMark := mark))
      case MetaMarkFromCt => RunFlat(stmts[1..], p.(metaMark := p.ctMark))
      case Accept => (Accepted, p)
      case Return => (Returned, p)
      case JumpUser => RunFlat(stmts[1..], p)
  }

  function RunUser(rules: seq<Rule>, p: Packet, sets: Sets): (Outcome, Packet)
  {
    if rules == [] then (Next, p)
    else
      var (o, q) := if RuleMatches(rules[0], p, sets) then RunFlat(rules[0].stmts, p) else (Next, p);
      if o.Next? then RunUser(rules[1..], q, sets) else (o, q)
  }

  /** A base chain, up to its verdict; running off its end means the policy, which is accept. */
  function RunBase(rules: seq<Rule>, p: Packet, user: seq<Rule>, sets: Sets): (Outcome, Packet)
  {
    if rules == [] then (Next, p)
    else
      var (o, q) := if RuleMatches(rules[0], p, sets) then RunStmts(rules[0].stmts, p, user, sets) else (Next, p);
      if o.Next? then RunBase(rules[1..], q, user, sets) else (o, q)
  }

  // ---- Chains in parts ----

  lemma {:induction false} RunUserAppend(a: seq<Rule>, b: seq<Rule>, p: Packet, sets: Sets)
    ensures var (o, q) := RunUser(a, p, sets);
            RunUser(a + b, p, sets) == if o.Next? then RunUser(b, q, sets) else (o, q)
  {
    if a == [] {
      assert a + b == b;
    } else {
      assert (a + b)[0] == a[0] && (a + b)[1..] == a[1..] + b;
      var (o, q) := if RuleMatches(a[0], p, sets) then RunFlat(a[0].stmts, p) else (Next, p);
      RunUserAppend(a[1..], b, q, sets);
    }
  }

  lemma {:induction false} RunBaseAppend(a: seq<Rule>, b: seq<Rule>, p: Packet, user: seq<Rule>, sets: Sets)
    ensures var (o, q) := RunBase(a, p, user, sets);
            RunBase(a + b, p, user, sets) == if o.Next? then RunBase(b, q, user, sets) else (o, q)
  {
    if a == [] {
      assert a + b == b;
    } else {
      assert (a + b)[0] == a[0] && (a + b)[1..] == a[1..] + b;
      var (o, q) := if RuleMatches(a[0], p, sets) then RunStmts(a[0].stmts, p, user, sets) else (Next, p);
      RunBaseAppend(a[1..], b, q, user, sets);
    }
  }

  /** Rules for other interfaces leave the packet alone. */
  predicate Foreign(r: Rule, iif: string) {
    exists i :: 0 <= i < |r.matches| && r.matches[i].Iif? && r.matches[i].name != iif
  }

  lemma {:induction false} ForeignRulesPass(rules: seq<Rule>, p: Packet, user: seq<Rule>, sets: Sets)
    requires forall r :: r in rules ==> Foreign(r, p.iif)
    ensures RunBase(rules, p, user, sets) == (Next, p)
  {
    if rules == [] {
    } else {
      assert Foreign(rules[0], p.iif);
      var i :| 0 <= i < |rules[0].matches| && rules[0].matches[i].Iif? && rules[0].matches[i].name != p.iif;
      assert !Holds(rules[0].matches[i], p, sets);
      ForeignRulesPass(rules[1..], p, user, sets);
    }
  }
}
