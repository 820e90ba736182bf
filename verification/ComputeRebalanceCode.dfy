/** `compute_rebalance` as written: loops over mutable lists of over- and underloaded nodes, proved to return
    exactly the moves the specification names. */
module ComputeRebalanceCode {
  import opened Naturals
  import opened PartitionTable
  import opened Loads
  import opened ComputeRebalance

  /** The slots of an underloaded list. */
  function SlotList(under: seq<(NodeId, nat)>): (slots: seq<NodeId>) {
    if under == [] then [] else Repeat(under[0].0, under[0].1) + SlotList(under[1..])
  }

  lemma {:induction false} SlotListAppend(under: seq<(NodeId, nat)>, node: NodeId, k: nat)
    ensures SlotList(under + [(node, k)]) == SlotList(under) + Repeat(node, k)
  {
    if under == [] {
      assert (under + [(node, k)])[1..] == [];
      assert SlotList([(node, k)]) == Repeat(node, k) + SlotList([]);
    } else {
      assert (under + [(node, k)])[1..] == under[1..] + [(node, k)];
      SlotListAppend(under[1..], node, k);
    }
  }

  /** `underloaded.iter().position(|(_, deficit)| *deficit > 0)`: where the next slot is. */
  method FirstOpen(under: seq<(NodeId, nat)>) returns (pos: int)
    ensures -1 <= pos < |under|
    ensures pos == -1 ==> SlotList(under) == []
    ensures pos >= 0 ==> under[pos].1 > 0 && SlotList(under) != [] && SlotList(under)[0] == under[pos].0
    ensures pos >= 0 ==> SlotList(under[pos := (under[pos].0, under[pos].1 - 1)]) == SlotList(under)[1..]
  {
    var i := 0;
    while i < |under| && under[i].1 == 0
      invariant 0 <= i <= |under|
      invariant forall j :: 0 <= j < i ==> under[j].1 == 0
    {
      i := i + 1;
    }
    if i < |under| {
      pos := i;
      TakeSlot(under, i);
    } else {
      pos := -1;
      AllTaken(under);
    }
  }

  lemma {:induction false} AllTaken(under: seq<(NodeId, nat)>)
    requires forall j :: 0 <= j < |under| ==> under[j].1 == 0
    ensures SlotList(under) == []
  {
    if under != [] {
      AllTaken(under[1..]);
    }
  }

  lemma {:induction false} TakeSlot(under: seq<(NodeId, nat)>, i: nat)
    requires i < |under| && under[i].1 > 0 && forall j :: 0 <= j < i ==> under[j].1 == 0
    ensures SlotList(under) != [] && SlotList(under)[0] == under[i].0
    ensures SlotList(under[i := (under[i].0, under[i].1 - 1)]) == SlotList(under)[1..]
    decreases i
  {
    var under' := under[i := (under[i].0, under[i].1 - 1)];
    if i == 0 {
      assert under'[1..] == under[1..];
    } else {
      TakeSlot(under[1..], i - 1);
      assert under'[1..] == under[1..][i - 1 := (under[i].0, under[i].1 - 1)];
    }
  }

  /** `moves` is what zipping the sources so far with all slots gives; `under` holds the slots not yet taken. */
  ghost predicate Placed(own: Owners, ps: seq<Pid>, slots: seq<NodeId>, under: seq<(NodeId, nat)>, moves: seq<Move>) {
    && (forall p :: p in ps ==> p in own)
    && moves == Zip(own, ps, slots)
    && SlotList(under) == slots[Min(|ps|, |slots|)..]
  }

  /** Give one partition the next slot, if one is open. */
  method Place(own: Owners, p: Pid, from: int, under: seq<(NodeId, nat)>, moves: seq<Move>,
               ghost ps: seq<Pid>, ghost slots: seq<NodeId>)
      returns (under': seq<(NodeId, nat)>, moves': seq<Move>, placed: bool)
    requires Placed(own, ps, slots, under, moves) && p in own && own[p] == from
    ensures Placed(own, ps + [p], slots, under', moves')
    ensures placed == (|ps| < |slots|)
    ensures !placed ==> under' == under && moves' == moves
  {
    var pos := FirstOpen(under);
    under', moves', placed := under, moves, false;
    if pos >= 0 {
      placed := true;
      moves' := moves + [Move(p, from, under[pos].0)];
      under' := under[pos := (under[pos].0, under[pos].1 - 1)];
      assert slots[|ps|..][1..] == slots[|ps| + 1..];
    }
    assert moves' == Zip(own, ps + [p], slots);
  }

  /** Once the slots are gone, further sources change nothing. */
  lemma PlacedSkip(own: Owners, all: seq<Pid>, m: nat, slots: seq<NodeId>, under: seq<(NodeId, nat)>, moves: seq<Move>)
    requires |slots| <= m <= |all| && (forall p :: p in all ==> p in own) && Placed(own, all[..m], slots, under, moves)
    ensures Placed(own, all, slots, under, moves)
  {
    assert Zip(own, all, slots) == Zip(own, all[..m], slots);
  }

  // ── Counting and classifying ─────────────────────────────────────────────

  function Lookup(counts: map<int, nat>, n: int): (k: nat) {
    if n in counts then counts[n] else 0
  }

  lemma {:induction false} LoadAppend(own: Owners, order: seq<Pid>, p: Pid, n: int)
    requires (forall q :: q in order ==> q in own) && p in own
    ensures Load(own, order + [p], n) == Load(own, order, n) + if own[p] == n then 1 else 0
  {
    if order == [] {
      assert On(own, [p], n) == (if own[p] == n then [p] else []) + On(own, [], n);
      assert order + [p] == [p];
    } else {
      assert (order + [p])[1..] == order[1..] + [p];
      LoadAppend(own, order[1..], p, n);
    }
  }

  ghost predicate CountsMatch(counts: map<int, nat>, own: Owners, order: seq<Pid>)
    requires forall p :: p in order ==> p in own
  {
    forall n :: Lookup(counts, n) == Load(own, order, n)
  }

  lemma CountOneMore(counts: map<int, nat>, own: Owners, order: seq<Pid>, p: Pid)
    requires (forall q :: q in order ==> q in own) && p in own && CountsMatch(counts, own, order)
    ensures CountsMatch(counts[own[p] := Lookup(counts, own[p]) + 1], own, order + [p])
  {
    hide Load;
    var counts', order' := counts[own[p] := Lookup(counts, own[p]) + 1], order + [p];
    forall n
      ensures Lookup(counts', n) == Load(own, order', n)
    {
      LoadAppend(own, order, p, n);
    }
  }

  /** Count partitions per active node. */
  method PartitionCounts(own: Owners, order: seq<Pid>) returns (counts: map<int, nat>)
    requires forall p :: p in order ==> p in own
    ensures CountsMatch(counts, own, order)
  {
    counts := map[];
    var i := 0;
    while i < |order|
      invariant 0 <= i <= |order|
      invariant CountsMatch(counts, own, order[..i])
    {
      var a := own[order[i]];
      assert order[..i + 1] == order[..i] + [order[i]];
      CountOneMore(counts, own, order[..i], order[i]);
      counts := counts[a := Lookup(counts, a) + 1];
      i := i + 1;
    }
    assert order[..i] == order;
  }

  /** The overloaded nodes with their excess, in the order they are listed. */
  function Over(nodes: seq<NodeId>, loads: seq<nat>, caps: seq<nat>): (over: seq<(NodeId, nat)>)
    requires |nodes| == |loads| == |caps|
  {
    if nodes == [] then []
    else
      (if loads[0] > caps[0] then [(nodes[0], loads[0] - caps[0])] else []) + Over(nodes[1..], loads[1..], caps[1..])
  }

  method Classify(nodes: seq<NodeId>, counts: map<int, nat>, targets: map<NodeId, nat>,
                  ghost loads: seq<nat>, ghost caps: seq<nat>)
      returns (over: seq<(NodeId, nat)>, under: seq<(NodeId, nat)>)
    requires |nodes| == |loads| == |caps| && forall x :: x in nodes ==> x in targets
    requires forall i :: 0 <= i < |nodes| ==> loads[i] == Lookup(counts, nodes[i]) && caps[i] == targets[nodes[i]]
    ensures SlotList(under) == Slots(nodes, loads, caps)
    ensures over == Over(nodes, loads, caps)
  {
    hide Slots, Over, Repeat, SlotList;
    over, under := [], [];
    var k := 0;
    NothingToClassify();
    assert nodes[0..] == nodes && loads[0..] == loads && caps[0..] == caps;
    while k < |nodes|
      invariant 0 <= k <= |nodes|
      invariant SlotList(under) + Slots(nodes[k..], loads[k..], caps[k..]) == Slots(nodes, loads, caps)
      invariant over + Over(nodes[k..], loads[k..], caps[k..]) == Over(nodes, loads, caps)
    {
      var node, current, target := nodes[k], Lookup(counts, nodes[k]), targets[nodes[k]];
      ClassifyStep(nodes, loads, caps, k);
      NoSlots(node);
      Regroup(SlotList(under), Repeat(node, Monus(target, current)),
              Slots(nodes[k + 1..], loads[k + 1..], caps[k + 1..]));
      if current > target {
        Regroup(over, [(node, current - target)], Over(nodes[k + 1..], loads[k + 1..], caps[k + 1..]));
        over := over + [(node, current - target)];
      } else if current < target {
        SlotListAppend(under, node, target - current);
        under := under + [(node, target - current)];
      }
      k := k + 1;
    }
  }

  lemma Regroup<T>(a: seq<T>, b: seq<T>, c: seq<T>)
    ensures a + (b + c) == (a + b) + c
    ensures b == [] ==> a + b == a && b + c == c
  {
  }

  lemma NoSlots(node: NodeId)
    ensures Repeat(node, 0) == []
  {
  }

  lemma NothingToClassify()
    ensures Slots([], [], []) == [] && Over([], [], []) == [] && SlotList([]) == []
  {
  }

  lemma ClassifyStep(nodes: seq<NodeId>, loads: seq<nat>, caps: seq<nat>, k: nat)
    requires |nodes| == |loads| == |caps| && k < |nodes|
    ensures Slots(nodes[k..], loads[k..], caps[k..])
         == Repeat(nodes[k], Monus(caps[k], loads[k])) + Slots(nodes[k + 1..], loads[k + 1..], caps[k + 1..])
    ensures Over(nodes[k..], loads[k..], caps[k..])
         == (if loads[k] > caps[k] then [(nodes[k], loads[k] - caps[k])] else [])
            + Over(nodes[k + 1..], loads[k + 1..], caps[k + 1..])
  {
    assert nodes[k..][1..] == nodes[k + 1..] && loads[k..][1..] == loads[k + 1..] && caps[k..][1..] == caps[k + 1..];
  }

  ghost predicate OverFits(own: Owners, order: seq<Pid>, over: seq<(NodeId, nat)>)
    requires forall p :: p in order ==> p in own
  {
    forall k :: 0 <= k < |over| ==> over[k].1 <= Load(own, order, over[k].0)
  }

  /** What the overloaded list asks to be moved. */
  ghost function OverSources(own: Owners, order: seq<Pid>, over: seq<(NodeId, nat)>): (ps: seq<Pid>)
    requires (forall p :: p in order ==> p in own) && OverFits(own, order, over)
  {
    if over == [] then []
    else
      assert over[0].1 <= Load(own, order, over[0].0);
      On(own, order, over[0].0)[..over[0].1] + OverSources(own, order, over[1..])
  }

  lemma {:induction false} OverSourcesAreSurplus(own: Owners, order: seq<Pid>, nodes: seq<NodeId>, caps: seq<nat>)
    requires (forall p :: p in order ==> p in own) && |nodes| == |caps|
    ensures var over := Over(nodes, LoadsOf(own, order, nodes), caps);
            OverFits(own, order, over) && OverSources(own, order, over) == Surplus(own, order, nodes, caps)
  {
    if nodes != [] {
      var loads := LoadsOf(own, order, nodes);
      var over, rest := Over(nodes, loads, caps), Over(nodes[1..], loads[1..], caps[1..]);
      assert loads[1..] == LoadsOf(own, order, nodes[1..]);
      OverSourcesAreSurplus(own, order, nodes[1..], caps[1..]);
      if loads[0] > caps[0] {
        assert over[1..] == rest;
      } else {
        assert over == rest;
        assert On(own, order, nodes[0])[..0] == [];
      }
    }
  }

  // ── The three phases ─────────────────────────────────────────────────────

  method Orphans(own: Owners, order: seq<Pid>, nodes: seq<NodeId>, targets: map<NodeId, nat>)
      returns (orphans: seq<Pid>)
    requires (forall p :: p in order ==> p in own) && forall x: int :: x in nodes <==> x >= 0 && x in targets
    ensures orphans == Strays(own, order, nodes)
  {
    orphans := [];
    var i := 0;
    while i < |order|
      invariant 0 <= i <= |order|
      invariant orphans + Strays(own, order[i..], nodes) == Strays(own, order, nodes)
    {
      assert order[i..][1..] == order[i + 1..];
      var active := own[order[i]];
      Regroup(orphans, if active in nodes then [] else [order[i]], Strays(own, order[i + 1..], nodes));
      if !(active >= 0 && active in targets) {
        orphans := orphans + [order[i]];
      }
      i := i + 1;
    }
  }

  method PlaceOrphans(own: Owners, orphans: seq<Pid>, under0: seq<(NodeId, nat)>)
      returns (under: seq<(NodeId, nat)>, moves: seq<Move>)
    requires forall p :: p in orphans ==> p in own
    ensures Placed(own, orphans, SlotList(under0), under, moves)
  {
    ghost var slots := SlotList(under0);
    under, moves := under0, [];
    var i := 0;
    assert slots[0..] == slots;
    while i < |orphans|
      invariant 0 <= i <= |orphans|
      invariant Placed(own, orphans[..i], slots, under, moves)
    {
      var p := orphans[i];
      assert orphans[..i + 1] == orphans[..i] + [p];
      var taken;
      under, moves, taken := Place(own, p, own[p], under, moves, orphans[..i], slots);
      i := i + 1;
    }
    assert orphans[..i] == orphans;
  }

  /** Peel one overloaded node: its first `excess` partitions, as long as slots are open. */
  method PlaceExcess(own: Owners, order: seq<Pid>, node: NodeId, excess0: nat, under0: seq<(NodeId, nat)>,
                     moves0: seq<Move>,
                     ghost done: seq<Pid>, ghost slots: seq<NodeId>)
      returns (under: seq<(NodeId, nat)>, moves: seq<Move>)
    requires (forall p :: p in order ==> p in own) && excess0 <= Load(own, order, node)
    requires Placed(own, done, slots, under0, moves0)
    ensures Placed(own, done + On(own, order, node)[..excess0], slots, under, moves)
  {
    OnOwned(own, order, node);
    PlacedKnown(own, done, slots, under0, moves0);
    under, moves := under0, moves0;
    var excess := excess0;
    var mine := On(own, order, node);
    hide Placed, On;
    ghost var all, m := done + mine[..excess0], |done|;
    assert all[..m] == done;
    var j := 0;
    while j < |mine| && excess > 0
      invariant 0 <= j <= |mine| && m == |done| + Min(j, excess0)
      invariant Placed(own, all[..m], slots, under, moves)
      invariant m + excess == |all| || m >= |slots|
      decreases |mine| - j
    {
      var p := mine[j];
      var placed;
      under, moves, placed := Place(own, p, node, under, moves, all[..m], slots);
      if placed {
        excess := excess - 1;
      }
      if j < excess0 {
        assert all[..m + 1] == all[..m] + [p];
        m := m + 1;
      }
      j := j + 1;
    }
    if m < |all| {
      PlacedSkip(own, all, m, slots, under, moves);
    } else {
      assert all[..m] == all;
    }
  }

  lemma PlacedKnown(own: Owners, ps: seq<Pid>, slots: seq<NodeId>, under: seq<(NodeId, nat)>, moves: seq<Move>)
    requires Placed(own, ps, slots, under, moves)
    ensures forall p :: p in ps ==> p in own
  {
  }

  /** The first `total % n` nodes get one more than the rest. */
  method BuildTargets(total: nat, nodes: seq<NodeId>) returns (targets: map<NodeId, nat>)
    requires nodes != []
    ensures targets == TargetMap(total, |nodes|, nodes)
  {
    var n := |nodes|;
    var base, extra := total / n, total % n;
    targets := map[];
    var i := 0;
    while i < n
      invariant 0 <= i <= n
      invariant targets == TargetMap(total, n, nodes[..i])
    {
      assert nodes[..i + 1][..i] == nodes[..i];
      targets := targets[nodes[i] := if i < extra then base + 1 else base];
      i := i + 1;
    }
    assert nodes[..n] == nodes;
  }

  /** The whole of `compute_rebalance`. */
  method Compute(table: Table, order: seq<Pid>, nodes: seq<NodeId>) returns (moves: seq<Move>)
    requires Enumerates(order, table.Keys)
    ensures moves == Moves(table, order, nodes)
  {
    if nodes == [] || |table| == 0 {
      return [];
    }
    var total, n, own := |table|, |nodes|, ActiveOwners(table);
    var targets := BuildTargets(total, nodes);
    ghost var loads, caps := LoadsOf(own, order, nodes), Caps(targets, nodes);
    var counts := PartitionCounts(own, order);
    hide TargetMap, LoadsOf, Caps, Load, Strays, Slots, SlotList, Zip;
    forall i | 0 <= i < n
      ensures loads[i] == Lookup(counts, nodes[i]) && caps[i] == targets[nodes[i]]
    {
      LoadsAt(own, order, nodes, i);
      CapsAt(targets, nodes, i);
    }
    var over, under := Classify(nodes, counts, targets, loads, caps);
    var orphans := Orphans(own, order, nodes, targets);
    StraysOwned(own, order, nodes);
    ghost var slots := SlotList(under);
    under, moves := PlaceOrphans(own, orphans, under);
    OverSourcesAreSurplus(own, order, nodes, caps);
    moves := PlaceOverloaded(own, order, over, under, moves, orphans, slots);
  }

  method PlaceOverloaded(own: Owners, order: seq<Pid>, over: seq<(NodeId, nat)>, under0: seq<(NodeId, nat)>,
                         moves0: seq<Move>,
                         ghost orphans: seq<Pid>, ghost slots: seq<NodeId>)
      returns (moves: seq<Move>)
    requires (forall p :: p in order ==> p in own) && OverFits(own, order, over)
    requires Placed(own, orphans, slots, under0, moves0)
    ensures forall p :: p in orphans + OverSources(own, order, over) ==> p in own
    ensures moves == Zip(own, orphans + OverSources(own, order, over), slots)
  {
    hide On;
    moves := moves0;
    var under, k := under0, 0;
    ghost var done, all := orphans, orphans + OverSources(own, order, over);
    while k < |over|
      invariant 0 <= k <= |over|
      invariant Placed(own, done, slots, under, moves)
      invariant done + OverSources(own, order, over[k..]) == all
    {
      assert over[k..][1..] == over[k + 1..];
      var (node, excess) := over[k];
      Regroup(done, On(own, order, node)[..excess], OverSources(own, order, over[k + 1..]));
      under, moves := PlaceExcess(own, order, node, excess, under, moves, done, slots);
      done := done + On(own, order, node)[..excess];
      k := k + 1;
    }
    assert done == all;
  }
}
