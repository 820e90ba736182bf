/** `compute_rebalance`: move partitions from nodes over their target, or no longer listed, to nodes under it.

    The hash map's iteration order is a parameter, `order`. */
module ComputeRebalance {
  import opened Naturals
  import opened PartitionTable
  import opened Loads

  datatype Move = Move(p: Pid, from: int, to: NodeId)

  // ── Specification: zip the partitions that must leave with the slots that are open ──

  function ActiveOwners(table: Table): (own: Owners) {
    map p | p in table :: ActiveNode(table[p]) as int
  }

  /** Round-robin target of the `i`-th of `n` nodes. */
  function Target(total: nat, n: nat, i: nat): (t: nat)
    requires n > 0
  {
    total / n + if i < total % n then 1 else 0
  }

  /** The target map; a node listed twice keeps its last entry. */
  function TargetMap(total: nat, n: nat, nodes: seq<NodeId>): (targets: map<NodeId, nat>)
    requires n > 0
    ensures forall x :: x in targets <==> x in nodes
  {
    if nodes == [] then map[]
    else
      var last := |nodes| - 1;
      assert nodes == nodes[..last] + [nodes[last]];
      TargetMap(total, n, nodes[..last])[nodes[last] := Target(total, n, last)]
  }

  function Caps(targets: map<NodeId, nat>, nodes: seq<NodeId>): (caps: seq<nat>)
    requires forall x :: x in nodes ==> x in targets
    ensures |caps| == |nodes|
  {
    if nodes == [] then [] else [targets[nodes[0]]] + Caps(targets, nodes[1..])
  }

  function Repeat(node: NodeId, k: nat): (s: seq<NodeId>)
    ensures |s| == k
  {
    if k == 0 then [] else [node] + Repeat(node, k - 1)
  }

  /** Open slots, node by node. */
  function Slots(nodes: seq<NodeId>, loads: seq<nat>, caps: seq<nat>): (slots: seq<NodeId>)
    requires |nodes| == |loads| == |caps|
  {
    if nodes == [] then []
    else Repeat(nodes[0], Monus(caps[0], loads[0])) + Slots(nodes[1..], loads[1..], caps[1..])
  }

  /** The partitions over target, node by node, each node giving up the first it iterates. */
  function Surplus(own: Owners, order: seq<Pid>, nodes: seq<NodeId>, caps: seq<nat>): (ps: seq<Pid>)
    requires (forall p :: p in order ==> p in own) && |nodes| == |caps|
  {
    if nodes == [] then []
    else
      On(own, order, nodes[0])[..Monus(Load(own, order, nodes[0]), caps[0])]
      + Surplus(own, order, nodes[1..], caps[1..])
  }

  function Sources(own: Owners, order: seq<Pid>, nodes: seq<NodeId>, caps: seq<nat>): (ps: seq<Pid>)
    requires (forall p :: p in order ==> p in own) && |nodes| == |caps|
  {
    Strays(own, order, nodes) + Surplus(own, order, nodes, caps)
  }

  function Zip(own: Owners, ps: seq<Pid>, slots: seq<NodeId>): (moves: seq<Move>)
    requires forall p :: p in ps ==> p in own
  {
    seq(Min(|ps|, |slots|), i requires 0 <= i < Min(|ps|, |slots|) => Move(ps[i], own[ps[i]], slots[i]))
  }

  lemma {:induction false} SourcesOwned(own: Owners, order: seq<Pid>, nodes: seq<NodeId>, caps: seq<nat>)
    requires (forall p :: p in order ==> p in own) && |nodes| == |caps|
    ensures forall p :: p in Surplus(own, order, nodes, caps) ==> p in order && own[p] in nodes
  {
    if nodes != [] {
      OnOwned(own, order, nodes[0]);
      SourcesOwned(own, order, nodes[1..], caps[1..]);
    }
  }

  lemma {:induction false} OnOwned(own: Owners, order: seq<Pid>, n: int)
    requires forall p :: p in order ==> p in own
    ensures forall p :: p in On(own, order, n) <==> p in order && own[p] == n
  {
    if order != [] {
      OnOwned(own, order[1..], n);
      assert forall p :: p in order <==> p == order[0] || p in order[1..];
    }
  }

  lemma {:induction false} StraysOwned(own: Owners, order: seq<Pid>, nodes: seq<NodeId>)
    requires forall p :: p in order ==> p in own
    ensures forall p :: p in Strays(own, order, nodes) <==> p in order && own[p] !in nodes
  {
    if order != [] {
      StraysOwned(own, order[1..], nodes);
      assert forall p :: p in order <==> p == order[0] || p in order[1..];
    }
  }

  /** The moves `compute_rebalance` returns. */
  function Moves(table: Table, order: seq<Pid>, nodes: seq<NodeId>): (moves: seq<Move>)
    requires Enumerates(order, table.Keys)
  {
    if nodes == [] || |table| == 0 then []
    else
      var own := ActiveOwners(table);
      var caps := Caps(TargetMap(|table|, |nodes|, nodes), nodes);
      SourcesOwned(own, order, nodes, caps);
      StraysOwned(own, order, nodes);
      Zip(own, Sources(own, order, nodes, caps), Slots(nodes, LoadsOf(own, order, nodes), caps))
  }

  // ── Targets add up ───────────────────────────────────────────────────────

  lemma {:induction false} TargetMapAt(total: nat, n: nat, nodes: seq<NodeId>, i: nat)
    requires n > 0 && Distinct(nodes) && i < |nodes|
    ensures TargetMap(total, n, nodes)[nodes[i]] == Target(total, n, i)
  {
    var last := |nodes| - 1;
    if i < last {
      TargetMapAt(total, n, nodes[..last], i);
    }
  }

  lemma {:induction false} CapsAt(targets: map<NodeId, nat>, nodes: seq<NodeId>, i: nat)
    requires (forall x :: x in nodes ==> x in targets) && i < |nodes|
    ensures Caps(targets, nodes)[i] == targets[nodes[i]]
  {
    if i > 0 {
      CapsAt(targets, nodes[1..], i - 1);
    }
  }

  lemma {:induction false} SumTargets(total: nat, n: nat, caps: seq<nat>, off: nat)
    requires n > 0 && forall i :: 0 <= i < |caps| ==> caps[i] == Target(total, n, off + i)
    ensures Sum(caps) == |caps| * (total / n) + Min(off + |caps|, total % n) - Min(off, total % n)
    decreases |caps|
  {
    if caps != [] {
      forall i | 0 <= i < |caps| - 1
        ensures caps[1..][i] == Target(total, n, (off + 1) + i)
      {
        assert caps[1..][i] == caps[i + 1];
      }
      SumTargets(total, n, caps[1..], off + 1);
      Distribute(|caps| - 1, total / n);
    }
  }

  lemma Distribute(k: int, q: int)
    ensures (k + 1) * q == k * q + q
  {
  }

  /** The targets of distinct nodes share out exactly the partitions there are. */
  lemma CapsAddUp(total: nat, nodes: seq<NodeId>)
    requires nodes != [] && Distinct(nodes)
    ensures var caps := Caps(TargetMap(total, |nodes|, nodes), nodes);
            && Sum(caps) == total
            && forall i :: 0 <= i < |nodes| ==> caps[i] == Target(total, |nodes|, i)
  {
    var n := |nodes|;
    var caps := Caps(TargetMap(total, n, nodes), nodes);
    forall i | 0 <= i < n
      ensures caps[i] == Target(total, n, i)
    {
      CapsAt(TargetMap(total, n, nodes), nodes, i);
      TargetMapAt(total, n, nodes, i);
    }
    SumTargets(total, n, caps, 0);
    assert total == n * (total / n) + total % n;
  }

  lemma {:induction false} SlotCount(nodes: seq<NodeId>, loads: seq<nat>, caps: seq<nat>)
    requires |nodes| == |loads| == |caps|
    ensures |Slots(nodes, loads, caps)| == Excess(caps, loads)
  {
    if nodes != [] {
      SlotCount(nodes[1..], loads[1..], caps[1..]);
    }
  }

  lemma {:induction false} SurplusCount(own: Owners, order: seq<Pid>, nodes: seq<NodeId>, caps: seq<nat>)
    requires (forall p :: p in order ==> p in own) && |nodes| == |caps|
    ensures |Surplus(own, order, nodes, caps)| == Excess(LoadsOf(own, order, nodes), caps)
  {
    if nodes != [] {
      SurplusCount(own, order, nodes[1..], caps[1..]);
      assert LoadsOf(own, order, nodes)[1..] == LoadsOf(own, order, nodes[1..]);
    }
  }

  /** As many partitions must leave as there are slots open, so no slot and no partition is left over. */
  lemma SourcesMeetSlots(own: Owners, order: seq<Pid>, nodes: seq<NodeId>, caps: seq<nat>)
    requires (forall p :: p in order ==> p in own) && |nodes| == |caps| && Distinct(nodes) && Sum(caps) == |order|
    ensures |Sources(own, order, nodes, caps)| == |Slots(nodes, LoadsOf(own, order, nodes), caps)|
    ensures |Sources(own, order, nodes, caps)| == |Strays(own, order, nodes)| + Excess(LoadsOf(own, order, nodes), caps)
  {
    var loads := LoadsOf(own, order, nodes);
    TotalLoad(own, order, nodes);
    ExcessBalance(loads, caps);
    SlotCount(nodes, loads, caps);
    SurplusCount(own, order, nodes, caps);
  }

  // ── Who loses and who gains how many ─────────────────────────────────────

  /** How many of `ps` are charged to `n`. */
  function Losing(own: Owners, ps: seq<Pid>, n: int): (k: nat)
    requires forall p :: p in ps ==> p in own
  {
    if ps == [] then 0 else (if own[ps[0]] == n then 1 else 0) + Losing(own, ps[1..], n)
  }

  /** How many of the slots are `n`'s. */
  function Gaining(slots: seq<NodeId>, n: int): (k: nat) {
    if slots == [] then 0 else (if slots[0] == n then 1 else 0) + Gaining(slots[1..], n)
  }

  lemma {:induction false} LosingConcat(own: Owners, a: seq<Pid>, b: seq<Pid>, n: int)
    requires (forall p :: p in a ==> p in own) && (forall p :: p in b ==> p in own)
    ensures Losing(own, a + b, n) == Losing(own, a, n) + Losing(own, b, n)
  {
    if a == [] {
      assert a + b == b;
    } else {
      assert (a + b)[1..] == a[1..] + b;
      LosingConcat(own, a[1..], b, n);
    }
  }

  lemma {:induction false} GainingConcat(a: seq<NodeId>, b: seq<NodeId>, n: int)
    ensures Gaining(a + b, n) == Gaining(a, n) + Gaining(b, n)
  {
    if a == [] {
      assert a + b == b;
    } else {
      assert (a + b)[1..] == a[1..] + b;
      GainingConcat(a[1..], b, n);
    }
  }

  lemma {:induction false} LosingUniform(own: Owners, ps: seq<Pid>, m: int, n: int)
    requires forall p :: p in ps ==> p in own && own[p] == m
    ensures Losing(own, ps, n) == if m == n then |ps| else 0
  {
    if ps != [] {
      LosingUniform(own, ps[1..], m, n);
    }
  }

  lemma {:induction false} GainingRepeat(node: NodeId, k: nat, n: int)
    ensures Gaining(Repeat(node, k), n) == if node == n then k else 0
  {
    if k > 0 {
      assert Repeat(node, k)[1..] == Repeat(node, k - 1);
      GainingRepeat(node, k - 1, n);
    }
  }

  lemma {:induction false} StraysLose(own: Owners, order: seq<Pid>, nodes: seq<NodeId>, n: int)
    requires forall p :: p in order ==> p in own
    ensures forall p :: p in Strays(own, order, nodes) ==> p in own
    ensures Losing(own, Strays(own, order, nodes), n) == if n in nodes then 0 else Load(own, order, n)
  {
    StraysOwned(own, order, nodes);
    if order != [] {
      StraysLose(own, order[1..], nodes, n);
      if own[order[0]] in nodes {
        assert Strays(own, order, nodes) == Strays(own, order[1..], nodes);
      } else {
        assert Strays(own, order, nodes)[1..] == Strays(own, order[1..], nodes);
      }
    }
  }

  /** A listed node loses exactly its excess over its cap, and gains exactly its shortfall. */
  lemma {:induction false} ListedExchange(own: Owners, order: seq<Pid>, nodes: seq<NodeId>, caps: seq<nat>, n: int)
    requires (forall p :: p in order ==> p in own) && |nodes| == |caps| && Distinct(nodes)
    ensures forall p :: p in Surplus(own, order, nodes, caps) ==> p in own
    ensures n !in nodes ==> Losing(own, Surplus(own, order, nodes, caps), n) == 0
    ensures n !in nodes ==> Gaining(Slots(nodes, LoadsOf(own, order, nodes), caps), n) == 0
    ensures forall i :: 0 <= i < |nodes| && nodes[i] == n ==>
              Losing(own, Surplus(own, order, nodes, caps), n) == Monus(Load(own, order, n), caps[i])
    ensures forall i :: 0 <= i < |nodes| && nodes[i] == n ==>
              Gaining(Slots(nodes, LoadsOf(own, order, nodes), caps), n) == Monus(caps[i], Load(own, order, n))
  {
    SourcesOwned(own, order, nodes, caps);
    if nodes != [] {
      var node, rest, loads := nodes[0], nodes[1..], LoadsOf(own, order, nodes);
      var mine := On(own, order, node)[..Monus(loads[0], caps[0])];
      OnOwned(own, order, node);
      ListedExchange(own, order, rest, caps[1..], n);
      LosingUniform(own, mine, node, n);
      LosingConcat(own, mine, Surplus(own, order, rest, caps[1..]), n);
      GainingRepeat(node, Monus(caps[0], loads[0]), n);
      assert loads[1..] == LoadsOf(own, order, rest);
      GainingConcat(Repeat(node, Monus(caps[0], loads[0])), Slots(rest, loads[1..], caps[1..]), n);
      forall i | 0 <= i < |nodes| && nodes[i] == n
        ensures i > 0 ==> rest[i - 1] == n && caps[1..][i - 1] == caps[i] && node != n
        ensures i == 0 ==> n !in rest
      {
      }
    }
  }

  // ── No partition moves twice ─────────────────────────────────────────────

  lemma {:induction false} OnDistinct(own: Owners, order: seq<Pid>, n: int)
    requires (forall p :: p in order ==> p in own) && Distinct(order)
    ensures Distinct(On(own, order, n))
  {
    if order != [] {
      OnDistinct(own, order[1..], n);
      OnOwned(own, order[1..], n);
    }
  }

  lemma {:induction false} StraysDistinct(own: Owners, order: seq<Pid>, nodes: seq<NodeId>)
    requires (forall p :: p in order ==> p in own) && Distinct(order)
    ensures Distinct(Strays(own, order, nodes))
  {
    if order != [] {
      StraysDistinct(own, order[1..], nodes);
      StraysOwned(own, order[1..], nodes);
    }
  }

  lemma DistinctConcat<T>(a: seq<T>, b: seq<T>)
    requires Distinct(a) && Distinct(b) && forall x :: x in a ==> x !in b
    ensures Distinct(a + b)
  {
    var c := a + b;
    forall i, j | 0 <= i < j < |c|
      ensures c[i] != c[j]
    {
      if i < |a| <= j {
        assert c[i] in a && c[j] in b;
      }
    }
  }

  lemma {:induction false} SurplusDistinct(own: Owners, order: seq<Pid>, nodes: seq<NodeId>, caps: seq<nat>)
    requires (forall p :: p in order ==> p in own) && Distinct(order) && |nodes| == |caps| && Distinct(nodes)
    ensures Distinct(Surplus(own, order, nodes, caps))
  {
    if nodes != [] {
      var mine := On(own, order, nodes[0])[..Monus(Load(own, order, nodes[0]), caps[0])];
      var others := Surplus(own, order, nodes[1..], caps[1..]);
      OnDistinct(own, order, nodes[0]);
      OnOwned(own, order, nodes[0]);
      SurplusDistinct(own, order, nodes[1..], caps[1..]);
      SourcesOwned(own, order, nodes[1..], caps[1..]);
      DistinctConcat(mine, others);
    }
  }

  lemma SourcesDistinct(own: Owners, order: seq<Pid>, nodes: seq<NodeId>, caps: seq<nat>)
    requires (forall p :: p in order ==> p in own) && Distinct(order) && |nodes| == |caps| && Distinct(nodes)
    ensures Distinct(Sources(own, order, nodes, caps))
  {
    StraysDistinct(own, order, nodes);
    StraysOwned(own, order, nodes);
    SurplusDistinct(own, order, nodes, caps);
    SourcesOwned(own, order, nodes, caps);
    DistinctConcat(Strays(own, order, nodes), Surplus(own, order, nodes, caps));
  }

  // ── What applying the moves achieves ─────────────────────────────────────

  function Assigns(ps: seq<Pid>, slots: seq<NodeId>): (plan: seq<Assign>)
    requires |ps| == |slots|
    ensures |plan| == |ps|
  {
    if ps == [] then [] else [Assign(ps[0], slots[0])] + Assigns(ps[1..], slots[1..])
  }

  lemma {:induction false} LosingAfterMove(own: Owners, ps: seq<Pid>, p: Pid, b: int, n: int)
    requires (forall q :: q in ps ==> q in own) && p !in ps
    ensures Losing(own[p := b], ps, n) == Losing(own, ps, n)
  {
    if ps != [] {
      LosingAfterMove(own, ps[1..], p, b, n);
    }
  }

  /** Moving distinct partitions changes a node's load by what it gains less what it loses. */
  lemma {:induction false} LoadAfterAssigns(own: Owners, order: seq<Pid>, ps: seq<Pid>, slots: seq<NodeId>, n: int)
    requires Enumerates(order, own.Keys) && Distinct(ps) && |ps| == |slots| && forall p :: p in ps ==> p in own
    ensures Apply(own, Assigns(ps, slots)).Keys == own.Keys
    ensures Load(Apply(own, Assigns(ps, slots)), order, n) + Losing(own, ps, n)
         == Load(own, order, n) + Gaining(slots, n)
    decreases |ps|
  {
    if ps != [] {
      var p, b := ps[0], slots[0];
      var own' := own[p := b];
      assert own'.Keys == own.Keys;
      assert p !in ps[1..];
      assert Assigns(ps, slots)[1..] == Assigns(ps[1..], slots[1..]);
      LoadAfterMove(own, order, p, b, n);
      LosingAfterMove(own, ps[1..], p, b, n);
      LoadAfterAssigns(own', order, ps[1..], slots[1..], n);
    }
  }

  /** Assign each moved partition to its new node, in turn. */
  function ApplyMoves(table: Table, moves: seq<Move>): (t: Table)
    decreases |moves|
  {
    if moves == [] then table else ApplyMoves(table[moves[0].p := Owned(moves[0].to)], moves[1..])
  }

  lemma {:induction false} ApplyMovesOwners(table: Table, own: Owners, ps: seq<Pid>, slots: seq<NodeId>)
    requires |ps| == |slots| && forall p :: p in ps ==> p in own
    ensures ActiveOwners(ApplyMoves(table, Zip(own, ps, slots))) == Apply(ActiveOwners(table), Assigns(ps, slots))
    decreases |ps|
  {
    var moves := Zip(own, ps, slots);
    if ps != [] {
      var t := table[ps[0] := Owned(slots[0])];
      assert moves[1..] == Zip(own, ps[1..], slots[1..]);
      assert ActiveOwners(t) == ActiveOwners(table)[ps[0] := slots[0]];
      ApplyMovesOwners(t, own, ps[1..], slots[1..]);
      assert Assigns(ps, slots)[1..] == Assigns(ps[1..], slots[1..]);
    }
  }

  ghost predicate Balanced(table: Table, order: seq<Pid>, nodes: seq<NodeId>)
    requires Enumerates(order, table.Keys)
  {
    && Strays(ActiveOwners(table), order, nodes) == []
    && forall i :: 0 <= i < |nodes| ==> Load(ActiveOwners(table), order, nodes[i]) == Target(|table|, |nodes|, i)
  }

  lemma {:induction false} ApplyMovesKeys(table: Table, moves: seq<Move>)
    requires forall k :: 0 <= k < |moves| ==> moves[k].p in table
    ensures ApplyMoves(table, moves).Keys == table.Keys
    decreases |moves|
  {
    if moves != [] {
      var t := table[moves[0].p := Owned(moves[0].to)];
      assert t.Keys == table.Keys;
      ApplyMovesKeys(t, moves[1..]);
    }
  }

  /** Zipping sources with slots brings every listed node to its cap and empties the rest. */
  lemma ExchangeMeetsCaps(own: Owners, order: seq<Pid>, nodes: seq<NodeId>, caps: seq<nat>)
    requires Enumerates(order, own.Keys) && |nodes| == |caps| && Distinct(nodes) && Sum(caps) == |order|
    ensures var ps, slots := Sources(own, order, nodes, caps), Slots(nodes, LoadsOf(own, order, nodes), caps);
            && |ps| == |slots| && (forall p :: p in ps ==> p in own)
            && var own' := Apply(own, Assigns(ps, slots));
               && own'.Keys == own.Keys
               && Strays(own', order, nodes) == []
               && forall i :: 0 <= i < |nodes| ==> Load(own', order, nodes[i]) == caps[i]
  {
    hide *;
    Enumerated(own, order);
    var ps, slots := Sources(own, order, nodes, caps), Slots(nodes, LoadsOf(own, order, nodes), caps);
    SourcesMeetSlots(own, order, nodes, caps);
    SourcesDistinct(own, order, nodes, caps);
    SourcesKnown(own, order, nodes, caps);
    var own' := Apply(own, Assigns(ps, slots));
    LoadAfterAssigns(own, order, ps, slots, 0);
    Enumerated(own', order);
    forall i | 0 <= i < |nodes|
      ensures Load(own', order, nodes[i]) == caps[i]
    {
      LoadAfterAssigns(own, order, ps, slots, nodes[i]);
      SourcesExchange(own, order, nodes, caps, i);
    }
    LoadsAreCaps(own', order, nodes, caps);
    TotalLoad(own', order, nodes);
  }

  lemma Enumerated(own: Owners, order: seq<Pid>)
    requires Enumerates(order, own.Keys)
    ensures (forall p :: p in order ==> p in own) && Distinct(order)
  {
  }

  lemma SourcesKnown(own: Owners, order: seq<Pid>, nodes: seq<NodeId>, caps: seq<nat>)
    requires (forall p :: p in order ==> p in own) && |nodes| == |caps|
    ensures forall p :: p in Sources(own, order, nodes, caps) ==> p in order && p in own
  {
    StraysOwned(own, order, nodes);
    SourcesOwned(own, order, nodes, caps);
  }

  lemma SourcesExchange(own: Owners, order: seq<Pid>, nodes: seq<NodeId>, caps: seq<nat>, i: nat)
    requires (forall p :: p in order ==> p in own) && |nodes| == |caps| && Distinct(nodes) && i < |nodes|
    ensures forall p :: p in Sources(own, order, nodes, caps) ==> p in own
    ensures Load(own, order, nodes[i]) + Gaining(Slots(nodes, LoadsOf(own, order, nodes), caps), nodes[i])
         == caps[i] + Losing(own, Sources(own, order, nodes, caps), nodes[i])
  {
    hide Losing, Gaining, Load, Slots, Surplus, Strays;
    var n := nodes[i];
    SourcesKnown(own, order, nodes, caps);
    StraysLose(own, order, nodes, n);
    ListedExchange(own, order, nodes, caps, n);
    LosingConcat(own, Strays(own, order, nodes), Surplus(own, order, nodes, caps), n);
  }

  lemma {:induction false} LoadsAreCaps(own: Owners, order: seq<Pid>, nodes: seq<NodeId>, caps: seq<nat>)
    requires (forall p :: p in order ==> p in own) && |nodes| == |caps|
    requires forall i :: 0 <= i < |nodes| ==> Load(own, order, nodes[i]) == caps[i]
    ensures LoadsOf(own, order, nodes) == caps
  {
    forall i | 0 <= i < |nodes|
      ensures LoadsOf(own, order, nodes)[i] == caps[i]
    {
      LoadsAt(own, order, nodes, i);
    }
  }

  // ── No move is idle ──────────────────────────────────────────────────────

  lemma {:induction false} SlotsAreShort(nodes: seq<NodeId>, loads: seq<nat>, caps: seq<nat>, x: NodeId)
    requires |nodes| == |loads| == |caps| && x in Slots(nodes, loads, caps)
    ensures exists i :: 0 <= i < |nodes| && nodes[i] == x && loads[i] < caps[i]
  {
    var mine := Repeat(nodes[0], Monus(caps[0], loads[0]));
    if x in mine {
      RepeatOnly(nodes[0], Monus(caps[0], loads[0]), x);
      assert nodes[0] == x && loads[0] < caps[0];
    } else {
      SlotsAreShort(nodes[1..], loads[1..], caps[1..], x);
      var i :| 0 <= i < |nodes[1..]| && nodes[1..][i] == x && loads[1..][i] < caps[1..][i];
      assert nodes[i + 1] == x && loads[i + 1] < caps[i + 1];
    }
  }

  lemma {:induction false} RepeatOnly(node: NodeId, k: nat, x: NodeId)
    requires x in Repeat(node, k)
    ensures x == node
  {
    if Repeat(node, k)[0] != x {
      RepeatOnly(node, k - 1, x);
    }
  }

  lemma {:induction false} SurplusIsOver(own: Owners, order: seq<Pid>, nodes: seq<NodeId>, caps: seq<nat>, p: Pid)
    requires (forall q :: q in order ==> q in own) && |nodes| == |caps| && p in Surplus(own, order, nodes, caps)
    ensures p in own && exists i :: 0 <= i < |nodes| && nodes[i] == own[p] && Load(own, order, nodes[i]) > caps[i]
  {
    var mine := On(own, order, nodes[0])[..Monus(Load(own, order, nodes[0]), caps[0])];
    OnOwned(own, order, nodes[0]);
    if p in mine {
      assert nodes[0] == own[p] && Load(own, order, nodes[0]) > caps[0];
    } else {
      SurplusIsOver(own, order, nodes[1..], caps[1..], p);
      var i :| 0 <= i < |nodes[1..]| && nodes[1..][i] == own[p] && Load(own, order, nodes[1..][i]) > caps[1..][i];
      assert nodes[i + 1] == own[p] && Load(own, order, nodes[i + 1]) > caps[i + 1];
    }
  }

  lemma NoIdleMove(own: Owners, order: seq<Pid>, nodes: seq<NodeId>, caps: seq<nat>, p: Pid, x: NodeId)
    requires (forall q :: q in order ==> q in own) && |nodes| == |caps| && Distinct(nodes)
    requires p in Sources(own, order, nodes, caps) && x in Slots(nodes, LoadsOf(own, order, nodes), caps)
    ensures p in own && x in nodes && own[p] != x
  {
    hide Surplus, Slots, Load, Strays;
    var loads := LoadsOf(own, order, nodes);
    SlotsAreShort(nodes, loads, caps, x);
    var i :| 0 <= i < |nodes| && nodes[i] == x && loads[i] < caps[i];
    LoadsAt(own, order, nodes, i);
    StraysOwned(own, order, nodes);
    if p in Surplus(own, order, nodes, caps) {
      SurplusIsOver(own, order, nodes, caps, p);
    }
  }

  // ── The results for tables ───────────────────────────────────────────────

  /** The pieces of a rebalance of distinct nodes: what must leave, and the slots it goes to. */
  lemma MovesZip(table: Table, order: seq<Pid>, nodes: seq<NodeId>)
    requires Enumerates(order, table.Keys) && Distinct(nodes) && nodes != []
    ensures var own := ActiveOwners(table);
            var caps := Caps(TargetMap(|table|, |nodes|, nodes), nodes);
            && Enumerates(order, own.Keys) && Sum(caps) == |order| == |table|
            && var ps, slots := Sources(own, order, nodes, caps), Slots(nodes, LoadsOf(own, order, nodes), caps);
               && |ps| == |slots| && (forall p :: p in ps ==> p in own)
               && Moves(table, order, nodes) == Zip(own, ps, slots)
  {
    hide Sources, Slots, Sum;
    var own := ActiveOwners(table);
    var caps := Caps(TargetMap(|table|, |nodes|, nodes), nodes);
    assert own.Keys == table.Keys;
    EnumerationSize(order, table.Keys);
    CapsAddUp(|table|, nodes);
    Enumerated(own, order);
    SourcesKnown(own, order, nodes, caps);
    SourcesMeetSlots(own, order, nodes, caps);
    if Sources(own, order, nodes, caps) != [] {
      HasFirst(Sources(own, order, nodes, caps));
    }
  }

  lemma HasFirst(ps: seq<Pid>)
    requires ps != []
    ensures ps[0] in ps
  {
  }

  lemma {:induction false} ApplyMovesElsewhere(table: Table, moves: seq<Move>, p: Pid)
    requires forall k :: 0 <= k < |moves| ==> moves[k].p != p
    ensures p in table <==> p in ApplyMoves(table, moves)
    ensures p in table ==> ApplyMoves(table, moves)[p] == table[p]
    decreases |moves|
  {
    if moves != [] {
      ApplyMovesElsewhere(table[moves[0].p := Owned(moves[0].to)], moves[1..], p);
    }
  }

  lemma {:induction false} ApplyMovesAt(table: Table, moves: seq<Move>, k: nat)
    requires k < |moves| && forall i, j :: 0 <= i < j < |moves| ==> moves[i].p != moves[j].p
    ensures var t := ApplyMoves(table, moves); moves[k].p in t && t[moves[k].p] == Owned(moves[k].to)
    decreases |moves|
  {
    var t := table[moves[0].p := Owned(moves[0].to)];
    if k == 0 {
      ApplyMovesElsewhere(t, moves[1..], moves[0].p);
    } else {
      ApplyMovesAt(t, moves[1..], k - 1);
    }
  }

  lemma {:induction false} ApplyMovesSettle(table: Table, moves: seq<Move>, p: Pid)
    requires p in ApplyMoves(table, moves) && ApplyMoves(table, moves)[p].Transferring?
    ensures p in table && table[p] == ApplyMoves(table, moves)[p]
    decreases |moves|
  {
    if moves != [] {
      ApplyMovesSettle(table[moves[0].p := Owned(moves[0].to)], moves[1..], p);
    }
  }

  /** For distinct nodes, every table (transfers included) and every iteration order, applying the moves leaves
      each listed node with exactly its target and no partition anywhere else. */
  lemma RebalanceMeetsTargets(table: Table, order: seq<Pid>, nodes: seq<NodeId>)
    requires Enumerates(order, table.Keys) && Distinct(nodes) && nodes != []
    ensures ApplyMoves(table, Moves(table, order, nodes)).Keys == table.Keys
    ensures Balanced(ApplyMoves(table, Moves(table, order, nodes)), order, nodes)
  {
    hide Moves, Zip, Sources, Slots, Strays, Load;
    var own := ActiveOwners(table);
    var caps := Caps(TargetMap(|table|, |nodes|, nodes), nodes);
    var ps, slots := Sources(own, order, nodes, caps), Slots(nodes, LoadsOf(own, order, nodes), caps);
    var moves := Moves(table, order, nodes);
    MovesZip(table, order, nodes);
    ExchangeMeetsCaps(own, order, nodes, caps);
    ApplyMovesOwners(table, own, ps, slots);
    CapsAddUp(|table|, nodes);
    var t := ApplyMoves(table, moves);
    assert t.Keys == ActiveOwners(t).Keys == own.Keys == table.Keys;
    assert |t| == |t.Keys| == |table.Keys|;
  }

  /** No partition moves twice; every move takes a partition off its own node and gives it to another, listed,
      node; and there are as many moves as partitions off target. */
  lemma RebalanceMovesOnce(table: Table, order: seq<Pid>, nodes: seq<NodeId>)
    requires Enumerates(order, table.Keys) && Distinct(nodes) && nodes != []
    ensures var moves, own := Moves(table, order, nodes), ActiveOwners(table);
            && (forall i, j :: 0 <= i < j < |moves| ==> moves[i].p != moves[j].p)
            && (forall k :: 0 <= k < |moves| ==>
                  && moves[k].p in table && moves[k].from == own[moves[k].p]
                  && moves[k].to in nodes && moves[k].from != moves[k].to)
            && |moves| == |Strays(own, order, nodes)|
                          + Excess(LoadsOf(own, order, nodes), Caps(TargetMap(|table|, |nodes|, nodes), nodes))
  {
    hide Moves, Sources, Slots, Strays, Load, Excess;
    var own := ActiveOwners(table);
    var caps := Caps(TargetMap(|table|, |nodes|, nodes), nodes);
    var ps, slots := Sources(own, order, nodes, caps), Slots(nodes, LoadsOf(own, order, nodes), caps);
    var moves := Moves(table, order, nodes);
    MovesZip(table, order, nodes);
    Enumerated(own, order);
    SourcesMeetSlots(own, order, nodes, caps);
    SourcesDistinct(own, order, nodes, caps);
    forall k | 0 <= k < |moves|
      ensures moves[k].p in table && moves[k].from == own[moves[k].p]
      ensures moves[k].to in nodes && moves[k].from != moves[k].to
    {
      assert moves[k] == Move(ps[k], own[ps[k]], slots[k]);
      NoIdleMove(own, order, nodes, caps, ps[k], slots[k]);
    }
  }

  function AssignAll(table: Table, plan: seq<(Pid, NodeId)>): (t: Table)
    decreases |plan|
  {
    if plan == [] then table else AssignAll(table[plan[0].0 := Owned(plan[0].1)], plan[1..])
  }

  function AsAssigns(plan: seq<(Pid, NodeId)>): (assigns: seq<Assign>)
    ensures |assigns| == |plan|
  {
    if plan == [] then [] else [Assign(plan[0].0, plan[0].1)] + AsAssigns(plan[1..])
  }

  lemma {:induction false} AssignAllOwners(table: Table, plan: seq<(Pid, NodeId)>)
    ensures ActiveOwners(AssignAll(table, plan)) == Apply(ActiveOwners(table), AsAssigns(plan))
    ensures forall k :: 0 <= k < |plan| ==> AsAssigns(plan)[k].p == plan[k].0
    decreases |plan|
  {
    if plan != [] {
      var t := table[plan[0].0 := Owned(plan[0].1)];
      assert ActiveOwners(t) == ActiveOwners(table)[plan[0].0 := plan[0].1];
      AssignAllOwners(t, plan[1..]);
      assert AsAssigns(plan)[1..] == AsAssigns(plan[1..]);
    }
  }

  /** No plan of reassignments that reaches the same targets has fewer moves. */
  lemma RebalanceIsShortest(table: Table, order: seq<Pid>, nodes: seq<NodeId>, plan: seq<(Pid, NodeId)>)
    requires Enumerates(order, table.Keys) && Distinct(nodes) && nodes != []
    requires forall k :: 0 <= k < |plan| ==> plan[k].0 in table
    requires AssignAll(table, plan).Keys == table.Keys && Balanced(AssignAll(table, plan), order, nodes)
    ensures |plan| >= |Moves(table, order, nodes)|
  {
    hide Moves, Strays, Load, Excess, AssignAll;
    var own, t := ActiveOwners(table), AssignAll(table, plan);
    var caps := Caps(TargetMap(|table|, |nodes|, nodes), nodes);
    RebalanceMovesOnce(table, order, nodes);
    CapsAddUp(|table|, nodes);
    AssignAllOwners(table, plan);
    assert own.Keys == table.Keys;
    PlanLowerBound(own, order, nodes, caps, AsAssigns(plan));
    var own' := ActiveOwners(t);
    assert |t| == |t.Keys| == |table|;
    Enumerated(own', order);
    LoadsAreCaps(own', order, nodes, caps);
    NoExcess(caps);
  }

  lemma {:induction false} NoExcess(caps: seq<nat>)
    ensures Excess(caps, caps) == 0
  {
    if caps != [] {
      NoExcess(caps[1..]);
    }
  }

  /** Two replicas that iterate their tables in different orders end with the same load on every node. */
  lemma ReplicasAgreeOnLoads(table: Table, order: seq<Pid>, order': seq<Pid>, nodes: seq<NodeId>, n: NodeId)
    requires Enumerates(order, table.Keys) && Enumerates(order', table.Keys) && Distinct(nodes) && nodes != []
    ensures var t, t' := ApplyMoves(table, Moves(table, order, nodes)), ApplyMoves(table, Moves(table, order', nodes));
            && t.Keys == t'.Keys == table.Keys
            && Load(ActiveOwners(t), order, n) == Load(ActiveOwners(t'), order', n)
  {
    hide Moves, Strays, Load, ApplyMoves;
    var t, t' := ApplyMoves(table, Moves(table, order, nodes)), ApplyMoves(table, Moves(table, order', nodes));
    RebalanceMeetsTargets(table, order, nodes);
    RebalanceMeetsTargets(table, order', nodes);
    assert |t| == |t.Keys| == |t'.Keys| == |t'|;
    if n in nodes {
      var i :| 0 <= i < |nodes| && nodes[i] == n;
    } else {
      NoStrayLoad(ActiveOwners(t), order, nodes, n);
      NoStrayLoad(ActiveOwners(t'), order', nodes, n);
    }
  }

  lemma NoStrayLoad(own: Owners, order: seq<Pid>, nodes: seq<NodeId>, n: int)
    requires (forall p :: p in order ==> p in own) && Strays(own, order, nodes) == [] && n !in nodes
    ensures Load(own, order, n) == 0
  {
    StraysLose(own, order, nodes, n);
  }

  /** Two partitions on node 1, nodes 1 and 2 listed: whichever is iterated first moves. */
  lemma FirstIteratedMoves(a: Pid, b: Pid)
    requires a != b
    ensures var table: Table := map[a := Owned(1), b := Owned(1)];
            && Enumerates([a, b], table.Keys)
            && Moves(table, [a, b], [1, 2]) == [Move(a, 1, 2)]
  {
    var table: Table := map[a := Owned(1), b := Owned(1)];
    var order: seq<Pid>, nodes: seq<NodeId> := [a, b], [1, 2];
    var own := ActiveOwners(table);
    assert table.Keys == {a, b} && |table| == |table.Keys| == 2;
    var caps := Caps(TargetMap(2, 2, nodes), nodes);
    assert caps == [1, 1] by {
      CapsAddUp(2, nodes);
      assert Target(2, 2, 0) == 1 && Target(2, 2, 1) == 1;
    }
    TwoOnOneNode(own, a, b);
    OneSlotOpen();
    hide TargetMap, Caps, Sources, Slots, LoadsOf;
    assert Zip(own, [a], [2]) == [Move(a, 1, 2)];
  }

  lemma TwoOnOneNode(own: Owners, a: Pid, b: Pid)
    requires a in own && b in own && own[a] == own[b] == 1
    ensures LoadsOf(own, [a, b], [1, 2]) == [2, 0]
    ensures Sources(own, [a, b], [1, 2], [1, 1]) == [a]
  {
    var order: seq<Pid>, nodes: seq<NodeId> := [a, b], [1, 2];
    assert order[1..] == [b] && nodes[1..] == [2];
    assert On(own, [b], 1) == [b];
    assert On(own, order, 1) == [a] + On(own, [b], 1) == [a, b];
    assert On(own, [b], 2) == [] && On(own, order, 2) == [];
    assert Strays(own, [b], nodes) == [] && Strays(own, order, nodes) == [];
    assert LoadsOf(own, order, [2]) == [0];
    assert [1, 1][1..] == [1];
    assert Surplus(own, order, [2], [1]) == [];
  }

  lemma OneSlotOpen()
    ensures Slots([1, 2], [2, 0], [1, 1]) == [2]
  {
  }

  /** But not necessarily with the same table: which partition moves depends on the iteration order. */
  lemma ReplicasMayDiffer()
    ensures var table: Table := map[0 := Owned(1), 1 := Owned(1)];
            && Enumerates([0, 1], table.Keys) && Enumerates([1, 0], table.Keys)
            && ApplyMoves(table, Moves(table, [0, 1], [1, 2])) != ApplyMoves(table, Moves(table, [1, 0], [1, 2]))
  {
    hide Moves;
    var table: Table := map[0 := Owned(1), 1 := Owned(1)];
    FirstIteratedMoves(0, 1);
    FirstIteratedMoves(1, 0);
    assert table == map[1 := Owned(1), 0 := Owned(1)];
    var t, t' := ApplyMoves(table, [Move(0, 1, 2)]), ApplyMoves(table, [Move(1, 1, 2)]);
    assert t[0] == Owned(2) && t'[0] == Owned(1);
  }
}
