/** `initial_assignment`: the round-robin start, which neither planner wants to change. */
module InitialAssignment {
  import opened PartitionTable
  import opened Loads
  import opened ComputeRebalance
  import opened PlanRebalance
  import opened PlanRebalanceLaws

  function Dealee(p: nat, nodes: seq<NodeId>): (n: NodeId)
    requires nodes != []
    ensures n in nodes
  {
    nodes[p % |nodes|]
  }

  /** Partition `i` goes to node `i` modulo their number. The source panics on an empty node list. */
  function RoundRobin(count: nat, nodes: seq<NodeId>): (plan: Plan)
    requires count < 0x1_0000 && nodes != []
  {
    seq(count, i requires 0 <= i < count => (i, Dealee(i, nodes)))
  }

  ghost function Dealt(count: nat, nodes: seq<NodeId>): (t: Table)
    requires count < 0x1_0000 && nodes != []
  {
    map p: Pid | p < count :: Owned(Dealee(p, nodes))
  }

  lemma {:induction false} AssigningDeals(count: nat, nodes: seq<NodeId>, k: nat)
    requires count < 0x1_0000 && nodes != [] && k <= count
    ensures AssignAll(Dealt(k, nodes), RoundRobin(count, nodes)[k..]) == Dealt(count, nodes)
    decreases count - k
  {
    var rest := RoundRobin(count, nodes)[k..];
    if k < count {
      assert Dealt(k, nodes)[rest[0].0 := Owned(rest[0].1)] == Dealt(k + 1, nodes);
      assert rest[1..] == RoundRobin(count, nodes)[k + 1..];
      AssigningDeals(count, nodes, k + 1);
    }
  }

  lemma AtLeastOnce(n: int, d: int)
    requires n > 0 && d >= 1
    ensures n * d >= n
  {
  }

  lemma QuotientUnique(x: nat, n: nat, q: nat, r: nat)
    requires r < n && x == n * q + r
    ensures x / n == q && x % n == r
  {
    var q', r' := x / n, x % n;
    assert x == n * q' + r';
    assert n * (q - q') == r' - r && n * (q' - q) == r - r';
    if q > q' {
      AtLeastOnce(n, q - q');
    } else if q < q' {
      AtLeastOnce(n, q' - q);
    }
  }

  lemma NextQuotient(c: nat, n: nat)
    requires n > 0
    ensures (c + 1) / n == c / n + if c % n == n - 1 then 1 else 0
    ensures (c + 1) % n == if c % n == n - 1 then 0 else c % n + 1
  {
    var q, r := c / n, c % n;
    assert c == n * q + r;
    if r == n - 1 {
      assert n * (q + 1) == n * q + n;
      QuotientUnique(c + 1, n, q + 1, 0);
    } else {
      QuotientUnique(c + 1, n, q, r + 1);
    }
  }

  lemma TargetStep(c: nat, n: nat, i: nat)
    requires i < n
    ensures Target(c + 1, n, i) == Target(c, n, i) + if c % n == i then 1 else 0
  {
    NextQuotient(c, n);
  }

  lemma DealOne(c: nat, nodes: seq<NodeId>, n: NodeId)
    requires c + 1 < 0x1_0000 && nodes != []
    ensures Held(Dealt(c + 1, nodes), n) == Held(Dealt(c, nodes), n) + if Dealee(c, nodes) == n then 1 else 0
  {
    hide Dealee;
    var mine, before := OwnedBy(Dealt(c + 1, nodes), n), OwnedBy(Dealt(c, nodes), n);
    assert c !in before;
    if Dealee(c, nodes) == n {
      assert mine == before + {c};
    } else {
      assert mine == before;
    }
  }

  lemma DealtStep(c: nat, nodes: seq<NodeId>, i: nat)
    requires c + 1 < 0x1_0000 && Distinct(nodes) && i < |nodes|
    ensures Held(Dealt(c + 1, nodes), nodes[i]) == Held(Dealt(c, nodes), nodes[i]) + if c % |nodes| == i then 1 else 0
  {
    hide Held, Dealt;
    DealOne(c, nodes, nodes[i]);
    assert Dealee(c, nodes) == nodes[i] <==> c % |nodes| == i;
  }

  /** Round robin gives the `i`-th node exactly its rebalancing target. */
  lemma {:induction false} DealtMeetsTarget(count: nat, nodes: seq<NodeId>, i: nat)
    requires count < 0x1_0000 && Distinct(nodes) && i < |nodes|
    ensures Held(Dealt(count, nodes), nodes[i]) == Target(count, |nodes|, i)
  {
    if count == 0 {
      assert OwnedBy(Dealt(0, nodes), nodes[i]) == {};
      QuotientUnique(0, |nodes|, 0, 0);
    } else {
      hide Held, Target, Dealt;
      DealtMeetsTarget(count - 1, nodes, i);
      TargetStep(count - 1, |nodes|, i);
      DealtStep(count - 1, nodes, i);
    }
  }

  lemma DealtOwners(count: nat, nodes: seq<NodeId>, order: seq<Pid>)
    requires count < 0x1_0000 && nodes != [] && Enumerates(order, Dealt(count, nodes).Keys)
    ensures var own := ActiveOwners(Dealt(count, nodes));
            && own == SettledOwners(Dealt(count, nodes)) && own.Keys == Dealt(count, nodes).Keys
            && forall p :: p in own ==> own[p] in nodes
  {
  }

  lemma {:induction false} NoStrays(own: Owners, order: seq<Pid>, nodes: seq<NodeId>)
    requires (forall p :: p in order ==> p in own) && forall p :: p in own ==> own[p] in nodes
    ensures Strays(own, order, nodes) == []
  {
    if order != [] {
      NoStrays(own, order[1..], nodes);
    }
  }

  lemma {:induction false} DealtSize(count: nat, nodes: seq<NodeId>)
    requires count < 0x1_0000 && nodes != []
    ensures |Dealt(count, nodes)| == |Dealt(count, nodes).Keys| == count
  {
    hide Dealee;
    var t := Dealt(count, nodes);
    if count == 0 {
      assert t.Keys == {};
    } else {
      DealtSize(count - 1, nodes);
      assert t.Keys == Dealt(count - 1, nodes).Keys + {count - 1};
    }
  }

  /** `compute_rebalance` has nothing to move after the initial assignment. */
  lemma RebalanceLeavesInitial(count: nat, nodes: seq<NodeId>, order: seq<Pid>)
    requires count < 0x1_0000 && Distinct(nodes) && nodes != []
    requires Enumerates(order, AssignAll(map[], RoundRobin(count, nodes)).Keys)
    ensures Moves(AssignAll(map[], RoundRobin(count, nodes)), order, nodes) == []
  {
    hide Moves, Strays, Load, Excess, Dealt, Held, Target, Caps, TargetMap, AssignAll;
    InitialIsDealt(count, nodes);
    var t, own := Dealt(count, nodes), ActiveOwners(Dealt(count, nodes));
    var caps := Caps(TargetMap(|t|, |nodes|, nodes), nodes);
    RebalanceMovesOnce(t, order, nodes);
    DealtSize(count, nodes);
    CapsAddUp(count, nodes);
    DealtOwners(count, nodes, order);
    NoStrays(own, order, nodes);
    forall i | 0 <= i < |nodes|
      ensures Load(own, order, nodes[i]) == caps[i]
    {
      LoadIsHeld(t, order, nodes[i]);
      DealtMeetsTarget(count, nodes, i);
    }
    LoadsAreCaps(own, order, nodes, caps);
    NoExcess(caps);
  }

  lemma InitialIsDealt(count: nat, nodes: seq<NodeId>)
    requires count < 0x1_0000 && nodes != []
    ensures AssignAll(map[], RoundRobin(count, nodes)) == Dealt(count, nodes)
  {
    assert Dealt(0, nodes) == map[];
    var plan := RoundRobin(count, nodes);
    assert plan[0..] == plan;
    AssigningDeals(count, nodes, 0);
  }

  // ── The other planner agrees ─────────────────────────────────────────────

  ghost function Elements(s: seq<NodeId>): (xs: set<NodeId>) {
    set x | x in s
  }

  lemma {:induction false} DistinctSize(s: seq<NodeId>)
    requires Distinct(s)
    ensures |Elements(s)| == |s|
  {
    if s == [] {
      assert Elements(s) == {};
    } else {
      DistinctSize(s[1..]);
      assert s[0] !in Elements(s[1..]);
      assert Elements(s) == {s[0]} + Elements(s[1..]);
    }
  }

  lemma SameSize(s: seq<NodeId>, t: seq<NodeId>)
    requires Distinct(s) && Distinct(t) && forall x :: x in s <==> x in t
    ensures |s| == |t|
  {
    DistinctSize(s);
    DistinctSize(t);
    assert Elements(s) == Elements(t);
  }

  /** The live members own all of a dealt table. */
  lemma DealtTotal(count: nat, nodes: seq<NodeId>, order: seq<Pid>, live: seq<NodeId>)
    requires count < 0x1_0000 && nodes != [] && Enumerates(order, Dealt(count, nodes).Keys)
    requires forall n :: n in live <==> n in nodes
    ensures Sum(Holdings(Dealt(count, nodes), Members(live))) == count
  {
    hide Dealt, Members, Strays, LoadsOf, Sum;
    var t, members := Dealt(count, nodes), Members(live);
    var own := SettledOwners(t);
    DealtOwners(count, nodes, order);
    DealtSize(count, nodes);
    EnumerationSize(order, t.Keys);
    NoStrays(own, order, members);
    MembersDistinct(live);
    TotalLoad(own, order, members);
    LoadsAreHoldings(t, order, members);
  }

  /** `plan_rebalance` has nothing to move either, when the live members are the assigned nodes in any order. */
  lemma PlanLeavesInitial(count: nat, nodes: seq<NodeId>, order: seq<Pid>, live: seq<NodeId>)
    requires count < 0x1_0000 && Distinct(nodes) && nodes != [] && forall n :: n in live <==> n in nodes
    requires Enumerates(order, AssignAll(map[], RoundRobin(count, nodes)).Keys)
    ensures PlanOf(AssignAll(map[], RoundRobin(count, nodes)), order, live) == []
  {
    hide PlanOf, Dealt, Held, Members, Excess, Repeat, Sum, AssignAll;
    var t := Dealt(count, nodes);
    InitialIsDealt(count, nodes);
    assert nodes[0] in live;
    MembersDistinct(live);
    SameSize(Members(live), nodes);
    DealtTotal(count, nodes, order, live);
    PlanReachesCeiling(t, order, live, nodes[0]);
    forall n | n in live
      ensures Held(t, n) <= CeilingFor(t, live)
    {
      var i :| 0 <= i < |nodes| && nodes[i] == n;
      DealtMeetsTarget(count, nodes, i);
    }
    WithinCeiling(t, live, CeilingFor(t, live));
  }
}
