/** Counting partitions per node. An owner map gives every partition the node it is charged to, or -1. */
module Loads {
  import opened PartitionTable

  type Owners = map<Pid, int>

  /** The partitions charged to `n`, in iteration order. */
  function On(own: Owners, order: seq<Pid>, n: int): (ps: seq<Pid>)
    requires forall p :: p in order ==> p in own
  {
    if order == [] then []
    else (if own[order[0]] == n then [order[0]] else []) + On(own, order[1..], n)
  }

  function Load(own: Owners, order: seq<Pid>, n: int): (k: nat)
    requires forall p :: p in order ==> p in own
  {
    |On(own, order, n)|
  }

  function LoadsOf(own: Owners, order: seq<Pid>, nodes: seq<NodeId>): (ls: seq<nat>)
    requires forall p :: p in order ==> p in own
    ensures |ls| == |nodes|
  {
    if nodes == [] then [] else [Load(own, order, nodes[0])] + LoadsOf(own, order, nodes[1..])
  }

  /** The partitions charged to no listed node. */
  function Strays(own: Owners, order: seq<Pid>, nodes: seq<NodeId>): (ps: seq<Pid>)
    requires forall p :: p in order ==> p in own
  {
    if order == [] then []
    else (if own[order[0]] in nodes then [] else [order[0]]) + Strays(own, order[1..], nodes)
  }

  ghost predicate Distinct<T>(s: seq<T>) {
    forall i, j :: 0 <= i < j < |s| ==> s[i] != s[j]
  }

  function Sum(xs: seq<nat>): (t: nat) {
    if xs == [] then 0 else xs[0] + Sum(xs[1..])
  }

  function Monus(a: nat, b: nat): (d: nat) {
    if a > b then a - b else 0
  }

  /** How much the loads exceed their caps, in all; swap the arguments for how much they fall short. */
  function Excess(loads: seq<nat>, caps: seq<nat>): (t: nat)
    requires |loads| == |caps|
  {
    if loads == [] then 0 else Monus(loads[0], caps[0]) + Excess(loads[1..], caps[1..])
  }

  lemma {:induction false} LoadsAt(own: Owners, order: seq<Pid>, nodes: seq<NodeId>, i: nat)
    requires forall p :: p in order ==> p in own
    requires i < |nodes|
    ensures LoadsOf(own, order, nodes)[i] == Load(own, order, nodes[i])
  {
    if i > 0 {
      LoadsAt(own, order, nodes[1..], i - 1);
    }
  }

  /** What is over and what is short differ by the totals. */
  lemma {:induction false} ExcessBalance(loads: seq<nat>, caps: seq<nat>)
    requires |loads| == |caps|
    ensures Excess(loads, caps) + Sum(caps) == Excess(caps, loads) + Sum(loads)
  {
    if loads != [] {
      ExcessBalance(loads[1..], caps[1..]);
    }
  }

  // ── Every partition is charged exactly once ──────────────────────────────

  lemma {:induction false} LoadsOfCons(own: Owners, order: seq<Pid>, nodes: seq<NodeId>)
    requires order != [] && (forall p :: p in order ==> p in own) && Distinct(nodes)
    ensures Sum(LoadsOf(own, order, nodes))
         == Sum(LoadsOf(own, order[1..], nodes)) + if own[order[0]] in nodes then 1 else 0
  {
    if nodes != [] {
      var rest := nodes[1..];
      assert nodes == [nodes[0]] + rest;
      LoadsOfCons(own, order, rest);
      assert Load(own, order, nodes[0])
          == Load(own, order[1..], nodes[0]) + if own[order[0]] == nodes[0] then 1 else 0;
      assert own[order[0]] in nodes <==> own[order[0]] == nodes[0] || own[order[0]] in rest;
      assert LoadsOf(own, order, nodes)[1..] == LoadsOf(own, order, rest);
      assert LoadsOf(own, order[1..], nodes)[1..] == LoadsOf(own, order[1..], rest);
    }
  }

  lemma {:induction false} NothingLoaded(own: Owners, nodes: seq<NodeId>)
    ensures Sum(LoadsOf(own, [], nodes)) == 0
  {
    if nodes != [] {
      NothingLoaded(own, nodes[1..]);
      assert LoadsOf(own, [], nodes)[1..] == LoadsOf(own, [], nodes[1..]);
    }
  }

  lemma {:induction false} TotalLoad(own: Owners, order: seq<Pid>, nodes: seq<NodeId>)
    requires (forall p :: p in order ==> p in own) && Distinct(nodes)
    ensures |order| == |Strays(own, order, nodes)| + Sum(LoadsOf(own, order, nodes))
  {
    if order == [] {
      NothingLoaded(own, nodes);
    } else {
      LoadsOfCons(own, order, nodes);
      TotalLoad(own, order[1..], nodes);
    }
  }

  // ── Moving one partition ─────────────────────────────────────────────────

  lemma {:induction false} LoadUntouched(own: Owners, order: seq<Pid>, p: Pid, b: int, n: int)
    requires (forall q :: q in order ==> q in own) && p !in order
    ensures On(own[p := b], order, n) == On(own, order, n)
  {
    if order != [] {
      LoadUntouched(own, order[1..], p, b, n);
    }
  }

  /** Moving `p` takes one from its old node and gives one to the new. */
  lemma {:induction false} LoadAfterMove(own: Owners, order: seq<Pid>, p: Pid, b: int, n: int)
    requires (forall q :: q in order ==> q in own) && p in order && Distinct(order)
    ensures Load(own[p := b], order, n)
         == Load(own, order, n) + (if b == n then 1 else 0) - (if own[p] == n then 1 else 0)
  {
    if order[0] == p {
      LoadUntouched(own, order[1..], p, b, n);
    } else {
      LoadAfterMove(own, order[1..], p, b, n);
    }
  }

  lemma {:induction false} StraysUntouched(own: Owners, order: seq<Pid>, nodes: seq<NodeId>, p: Pid, b: int)
    requires (forall q :: q in order ==> q in own) && p !in order
    ensures Strays(own[p := b], order, nodes) == Strays(own, order, nodes)
  {
    if order != [] {
      StraysUntouched(own, order[1..], nodes, p, b);
    }
  }

  lemma {:induction false} StraysAfterMove(own: Owners, order: seq<Pid>, nodes: seq<NodeId>, p: Pid, b: int)
    requires (forall q :: q in order ==> q in own) && p in order && Distinct(order)
    ensures |Strays(own[p := b], order, nodes)|
         == |Strays(own, order, nodes)| + (if b in nodes then 0 else 1) - (if own[p] in nodes then 0 else 1)
  {
    if order[0] == p {
      StraysUntouched(own, order[1..], nodes, p, b);
    } else {
      StraysAfterMove(own, order[1..], nodes, p, b);
    }
  }

  /** One move takes at most one off the excess of distinct nodes, and nothing if it leaves an unlisted node. */
  lemma {:induction false} ExcessAfterMove(own: Owners, order: seq<Pid>, nodes: seq<NodeId>, caps: seq<nat>,
                                           p: Pid, b: int)
    requires (forall q :: q in order ==> q in own) && p in order && Distinct(order)
    requires Distinct(nodes) && |caps| == |nodes|
    ensures Excess(LoadsOf(own[p := b], order, nodes), caps) + (if own[p] in nodes then 1 else 0)
         >= Excess(LoadsOf(own, order, nodes), caps)
  {
    if nodes != [] {
      var rest, own' := nodes[1..], own[p := b];
      assert nodes == [nodes[0]] + rest;
      LoadAfterMove(own, order, p, b, nodes[0]);
      ExcessAfterMove(own, order, rest, caps[1..], p, b);
      assert own[p] in nodes <==> own[p] == nodes[0] || own[p] in rest;
      assert LoadsOf(own, order, nodes)[1..] == LoadsOf(own, order, rest);
      assert LoadsOf(own', order, nodes)[1..] == LoadsOf(own', order, rest);
    }
  }

  // ── Plans ────────────────────────────────────────────────────────────────

  datatype Assign = Assign(p: Pid, to: int)

  function Apply(own: Owners, plan: seq<Assign>): (own': Owners)
    decreases |plan|
  {
    if plan == [] then own else Apply(own[plan[0].p := plan[0].to], plan[1..])
  }

  /** Any plan, however clever, needs a move for every partition over a cap or off the list. */
  lemma {:induction false} PlanLowerBound(own: Owners, order: seq<Pid>, nodes: seq<NodeId>, caps: seq<nat>,
                                          plan: seq<Assign>)
    requires Enumerates(order, own.Keys) && Distinct(nodes) && |caps| == |nodes|
    requires forall k :: 0 <= k < |plan| ==> plan[k].p in own
    ensures Apply(own, plan).Keys == own.Keys
    ensures Excess(LoadsOf(Apply(own, plan), order, nodes), caps) + |plan| >= Excess(LoadsOf(own, order, nodes), caps)
    ensures |Strays(Apply(own, plan), order, nodes)| + Excess(LoadsOf(Apply(own, plan), order, nodes), caps) + |plan|
         >= |Strays(own, order, nodes)| + Excess(LoadsOf(own, order, nodes), caps)
    decreases |plan|
  {
    if plan != [] {
      var p, b := plan[0].p, plan[0].to;
      var own' := own[p := b];
      assert own'.Keys == own.Keys;
      ExcessAfterMove(own, order, nodes, caps, p, b);
      StraysAfterMove(own, order, nodes, p, b);
      PlanLowerBound(own', order, nodes, caps, plan[1..]);
    }
  }
}
