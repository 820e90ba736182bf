/** When replicas that iterate their hash maps differently still agree on a rebalance. */
module RebalanceAgreement {
  import opened PartitionTable
  import opened Loads
  import opened ComputeRebalance

  ghost function Result(table: Table, order: seq<Pid>, nodes: seq<NodeId>): (t: Table)
    requires Enumerates(order, table.Keys)
  {
    ApplyMoves(table, Moves(table, order, nodes))
  }

  /** Whatever the iteration orders, the tables are equal. */
  ghost predicate AllAgree(table: Table, nodes: seq<NodeId>) {
    forall o, o' :: Enumerates(o, table.Keys) && Enumerates(o', table.Keys) ==>
      Result(table, o, nodes) == Result(table, o', nodes)
  }

  // ── The condition, from the counts alone ─────────────────────────────────

  ghost function ServedBy(table: Table, n: int): (ps: set<Pid>) {
    set p | p in table && ActiveNode(table[p]) == n
  }

  ghost function StraySet(table: Table, nodes: seq<NodeId>): (ps: set<Pid>) {
    set p | p in table && ActiveNode(table[p]) !in nodes
  }

  ghost function Serving(table: Table, nodes: seq<NodeId>): (loads: seq<nat>)
    ensures |loads| == |nodes|
  {
    if nodes == [] then [] else [|ServedBy(table, nodes[0])|] + Serving(table, nodes[1..])
  }

  predicate Uniform(s: seq<NodeId>) {
    forall i, j :: 0 <= i < |s| && 0 <= j < |s| ==> s[i] == s[j]
  }

  /** Node by node: a node over target gives up everything it has, all of it to one node. */
  ghost predicate ForcedFrom(nodes: seq<NodeId>, loads: seq<nat>, caps: seq<nat>, slots: seq<NodeId>)
    requires |nodes| == |loads| == |caps|
  {
    nodes == [] ||
    (var e := Monus(loads[0], caps[0]);
     && e <= |slots| && (e == 0 || caps[0] == 0) && Uniform(slots[..e])
     && ForcedFrom(nodes[1..], loads[1..], caps[1..], slots[e..]))
  }

  /** Nothing is left to choose: the partitions of unlisted nodes all go to one node, and so for each node over
      target. */
  ghost predicate Forced(table: Table, nodes: seq<NodeId>)
    requires nodes != []
  {
    var loads, strays := Serving(table, nodes), |StraySet(table, nodes)|;
    var caps := Caps(TargetMap(|table|, |nodes|, nodes), nodes);
    var slots := Slots(nodes, loads, caps);
    strays <= |slots| && Uniform(slots[..strays]) && ForcedFrom(nodes, loads, caps, slots[strays..])
  }

  lemma {:induction false} LoadsAreServing(table: Table, order: seq<Pid>, nodes: seq<NodeId>)
    requires Enumerates(order, table.Keys)
    ensures LoadsOf(ActiveOwners(table), order, nodes) == Serving(table, nodes)
  {
    if nodes != [] {
      var own := ActiveOwners(table);
      OnOwned(own, order, nodes[0]);
      OnDistinct(own, order, nodes[0]);
      EnumerationSize(On(own, order, nodes[0]), ServedBy(table, nodes[0]));
      LoadsAreServing(table, order, nodes[1..]);
    }
  }

  lemma StraysAreStraySet(table: Table, order: seq<Pid>, nodes: seq<NodeId>)
    requires Enumerates(order, table.Keys)
    ensures |Strays(ActiveOwners(table), order, nodes)| == |StraySet(table, nodes)|
  {
    var own := ActiveOwners(table);
    StraysOwned(own, order, nodes);
    StraysDistinct(own, order, nodes);
    EnumerationSize(Strays(own, order, nodes), StraySet(table, nodes));
  }

  // ── Where a partition ends ───────────────────────────────────────────────

  function CapsFor(table: Table, nodes: seq<NodeId>): (caps: seq<nat>)
    requires nodes != []
    ensures |caps| == |nodes|
  {
    Caps(TargetMap(|table|, |nodes|, nodes), nodes)
  }

  /** What leaves, and the slots it goes to, in matching order; the slots do not depend on the iteration order. */
  lemma Pairing(table: Table, order: seq<Pid>, nodes: seq<NodeId>)
    requires Enumerates(order, table.Keys) && Distinct(nodes) && nodes != []
    ensures var own, caps := ActiveOwners(table), CapsFor(table, nodes);
            && (forall p :: p in order ==> p in own) && Distinct(order) && own.Keys == table.Keys
            && var ps, slots := Sources(own, order, nodes, caps), Slots(nodes, Serving(table, nodes), caps);
               var t := Result(table, order, nodes);
               && |ps| == |slots| && Distinct(ps) && (forall p :: p in ps ==> p in own)
               && (forall k :: 0 <= k < |ps| ==> ps[k] in t && t[ps[k]] == Owned(slots[k]))
               && (forall k :: 0 <= k < |ps| ==> slots[k] != own[ps[k]])
               && (forall p :: p in table && p !in ps ==> p in t && t[p] == table[p])
  {
    hide Sources, Slots, Moves, Zip, ApplyMoves, Strays, Excess, LoadsOf, Caps, TargetMap, Serving;
    var own, caps := ActiveOwners(table), CapsFor(table, nodes);
    MovesZip(table, order, nodes);
    LoadsAreServing(table, order, nodes);
    Enumerated(own, order);
    SourcesDistinct(own, order, nodes, caps);
    RebalanceMovesOnce(table, order, nodes);
    var ps, slots := Sources(own, order, nodes, caps), Slots(nodes, Serving(table, nodes), caps);
    var moves := Moves(table, order, nodes);
    ZipIs(own, ps, slots);
    forall k | 0 <= k < |ps|
      ensures ps[k] in Result(table, order, nodes) && Result(table, order, nodes)[ps[k]] == Owned(slots[k])
    {
      ApplyMovesAt(table, moves, k);
    }
    forall p | p in table && p !in ps
      ensures p in Result(table, order, nodes) && Result(table, order, nodes)[p] == table[p]
    {
      ApplyMovesElsewhere(table, moves, p);
    }
  }

  lemma ZipIs(own: Owners, ps: seq<Pid>, slots: seq<NodeId>)
    requires |ps| == |slots| && forall p :: p in ps ==> p in own
    ensures |Zip(own, ps, slots)| == |ps|
    ensures forall k :: 0 <= k < |ps| ==> ps[k] in ps && Zip(own, ps, slots)[k] == Move(ps[k], own[ps[k]], slots[k])
  {
  }

  // ── Forced: every order agrees ───────────────────────────────────────────

  function IsOver(nodes: seq<NodeId>, loads: seq<nat>, caps: seq<nat>, n: int): (b: bool)
    requires |nodes| == |loads| == |caps|
  {
    nodes != [] && if nodes[0] == n then loads[0] > caps[0] else IsOver(nodes[1..], loads[1..], caps[1..], n)
  }

  /** The node that everything on `n` goes to. */
  function FirstSlot(nodes: seq<NodeId>, loads: seq<nat>, caps: seq<nat>, slots: seq<NodeId>, n: int): (to: int)
    requires |nodes| == |loads| == |caps|
  {
    if nodes == [] then -1
    else
      var e := Monus(loads[0], caps[0]);
      if nodes[0] == n then (if slots == [] then -1 else slots[0])
      else if e > |slots| then -1
      else FirstSlot(nodes[1..], loads[1..], caps[1..], slots[e..], n)
  }

  /** Whether and where a partition goes is decided by its node. */
  lemma {:induction false} SurplusForced(own: Owners, order: seq<Pid>, nodes: seq<NodeId>, caps: seq<nat>,
                                         slots: seq<NodeId>, p: Pid)
    requires (forall q :: q in order ==> q in own) && Distinct(order) && Distinct(nodes) && |nodes| == |caps|
    requires p in order && own[p] in nodes && ForcedFrom(nodes, LoadsOf(own, order, nodes), caps, slots)
    requires |slots| == |Surplus(own, order, nodes, caps)|
    ensures var ps, loads := Surplus(own, order, nodes, caps), LoadsOf(own, order, nodes);
            && (p in ps <==> IsOver(nodes, loads, caps, own[p]))
            && forall k :: 0 <= k < |ps| && ps[k] == p ==> slots[k] == FirstSlot(nodes, loads, caps, slots, own[p])
    decreases |nodes|
  {
    hide On, Load, LoadsOf, Surplus, Uniform;
    var n, rest, loads := nodes[0], nodes[1..], LoadsOf(own, order, nodes);
    var e, all, others := Monus(loads[0], caps[0]), On(own, order, n), Surplus(own, order, rest, caps[1..]);
    FirstGroup(own, order, nodes, caps);
    OnOwned(own, order, n);
    SourcesOwned(own, order, rest, caps[1..]);
    assert nodes == [n] + rest;
    if own[p] == n {
      FoundInFirst(all[..e], others, p);
      WholeOrNothing(all, e, others, slots, caps[0], p);
    } else {
      SurplusForced(own, order, rest, caps[1..], slots[e..], p);
      FoundInRest(all[..e], others, p, slots);
      assert p !in all[..e];
    }
  }

  lemma FirstGroup(own: Owners, order: seq<Pid>, nodes: seq<NodeId>, caps: seq<nat>)
    requires (forall q :: q in order ==> q in own) && nodes != [] && |nodes| == |caps|
    ensures var loads, all := LoadsOf(own, order, nodes), On(own, order, nodes[0]);
            && loads[1..] == LoadsOf(own, order, nodes[1..]) && loads[0] == |all|
            && Surplus(own, order, nodes, caps)
               == all[..Monus(loads[0], caps[0])] + Surplus(own, order, nodes[1..], caps[1..])
  {
  }

  lemma WholeOrNothing(all: seq<Pid>, e: nat, others: seq<Pid>, slots: seq<NodeId>, cap: nat, p: Pid)
    requires p in all && p !in others && e == Monus(|all|, cap) && (e == 0 || cap == 0)
    requires |slots| == |all[..e] + others| && Uniform(slots[..e])
    ensures p in all[..e] + others <==> |all| > cap
    ensures forall k :: 0 <= k < |slots| && (all[..e] + others)[k] == p ==> k < e && slots[k] == slots[0]
  {
    assert e > 0 ==> all[..e] == all;
    FoundInFirst(all[..e], others, p);
    forall k | 0 <= k < |slots| && (all[..e] + others)[k] == p
      ensures k < e && slots[k] == slots[0]
    {
      assert slots[..e][k] == slots[..e][0];
    }
  }

  lemma FoundInFirst(a: seq<Pid>, b: seq<Pid>, p: Pid)
    requires p !in b
    ensures forall k :: 0 <= k < |a + b| && (a + b)[k] == p ==> k < |a|
  {
  }

  lemma FoundInRest(a: seq<Pid>, b: seq<Pid>, p: Pid, slots: seq<NodeId>)
    requires |slots| == |a + b|
    ensures p !in a ==> forall k :: 0 <= k < |a + b| && (a + b)[k] == p ==>
              k >= |a| && b[k - |a|] == p && slots[k] == slots[|a|..][k - |a|]
  {
  }

  /** The part of the sources and slots after the strays. */
  lemma SplitSources(own: Owners, order: seq<Pid>, nodes: seq<NodeId>, caps: seq<nat>, slots: seq<NodeId>)
    requires (forall q :: q in order ==> q in own) && |nodes| == |caps| && |slots| == |Sources(own, order, nodes, caps)|
    ensures var s := |Strays(own, order, nodes)|;
            && s <= |slots| && |slots[s..]| == |Surplus(own, order, nodes, caps)|
            && (forall k :: 0 <= k < s ==> Sources(own, order, nodes, caps)[k] == Strays(own, order, nodes)[k])
            && (forall k :: s <= k < |slots| ==>
                  && Sources(own, order, nodes, caps)[k] == Surplus(own, order, nodes, caps)[k - s]
                  && slots[k] == slots[s..][k - s])
            && (forall p :: p in Sources(own, order, nodes, caps) <==>
                  p in Strays(own, order, nodes) || p in Surplus(own, order, nodes, caps))
  {
    hide Strays, Surplus;
  }

  lemma ForcedEnds(table: Table, order: seq<Pid>, nodes: seq<NodeId>, p: Pid)
    requires Enumerates(order, table.Keys) && Distinct(nodes) && nodes != [] && Forced(table, nodes) && p in table
    ensures var loads, caps := Serving(table, nodes), CapsFor(table, nodes);
            var slots, s, n := Slots(nodes, loads, caps), |StraySet(table, nodes)|, ActiveNode(table[p]);
            && p in Result(table, order, nodes)
            && Result(table, order, nodes)[p] ==
               if n !in nodes then (if slots == [] then table[p] else Owned(slots[0]))
               else if s <= |slots| && IsOver(nodes, loads, caps, n)
                       && FirstSlot(nodes, loads, caps, slots[s..], n) >= 0
               then Owned(FirstSlot(nodes, loads, caps, slots[s..], n))
               else table[p]
  {
    hide Sources, Slots, Strays, Surplus, LoadsOf, Caps, TargetMap, Serving, Result, ForcedFrom, FirstSlot, IsOver;
    if ActiveNode(table[p]) in nodes {
      ListedEnds(table, order, nodes, p);
    } else {
      StrayEnds(table, order, nodes, p);
    }
  }

  lemma StrayEnds(table: Table, order: seq<Pid>, nodes: seq<NodeId>, p: Pid)
    requires Enumerates(order, table.Keys) && Distinct(nodes) && nodes != [] && Forced(table, nodes)
    requires p in table && ActiveNode(table[p]) !in nodes
    ensures var slots := Slots(nodes, Serving(table, nodes), CapsFor(table, nodes));
            p in Result(table, order, nodes) && slots != [] && Result(table, order, nodes)[p] == Owned(slots[0])
  {
    hide Sources, Slots, Strays, Surplus, LoadsOf, Caps, TargetMap, Serving, Result, ForcedFrom;
    var own, caps := ActiveOwners(table), CapsFor(table, nodes);
    var slots, strays := Slots(nodes, Serving(table, nodes), caps), Strays(own, order, nodes);
    Pairing(table, order, nodes);
    StraysAreStraySet(table, order, nodes);
    SplitSources(own, order, nodes, caps, slots);
    StraysOwned(own, order, nodes);
    assert p in strays;
    var k :| 0 <= k < |strays| && strays[k] == p;
    assert Sources(own, order, nodes, caps)[k] == p;
    assert slots[..|strays|][k] == slots[..|strays|][0];
  }

  lemma ListedEnds(table: Table, order: seq<Pid>, nodes: seq<NodeId>, p: Pid)
    requires Enumerates(order, table.Keys) && Distinct(nodes) && nodes != [] && Forced(table, nodes)
    requires p in table && ActiveNode(table[p]) in nodes
    ensures var loads, caps := Serving(table, nodes), CapsFor(table, nodes);
            var slots, s, n := Slots(nodes, loads, caps), |StraySet(table, nodes)|, ActiveNode(table[p]);
            && p in Result(table, order, nodes) && s <= |slots|
            && Result(table, order, nodes)[p] ==
               if IsOver(nodes, loads, caps, n) && FirstSlot(nodes, loads, caps, slots[s..], n) >= 0
               then Owned(FirstSlot(nodes, loads, caps, slots[s..], n))
               else table[p]
  {
    hide Sources, Slots, Strays, Surplus, LoadsOf, Caps, TargetMap, Serving, Result, ForcedFrom, FirstSlot, IsOver,
         Uniform;
    var own, caps, loads := ActiveOwners(table), CapsFor(table, nodes), Serving(table, nodes);
    var slots, over, s := Slots(nodes, loads, caps), Surplus(own, order, nodes, caps), |Strays(own, order, nodes)|;
    Pairing(table, order, nodes);
    StraysAreStraySet(table, order, nodes);
    LoadsAreServing(table, order, nodes);
    SplitSources(own, order, nodes, caps, slots);
    StraysOwned(own, order, nodes);
    SurplusForced(own, order, nodes, caps, slots[s..], p);
    if p in over {
      var k :| 0 <= k < |over| && over[k] == p;
      assert Sources(own, order, nodes, caps)[s + k] == p;
    }
  }

  // ── Not forced: two orders differ ────────────────────────────────────────

  function Swap(p: Pid, q: Pid, x: Pid): (y: Pid) {
    if x == p then q else if x == q then p else x
  }

  function SwapAll(p: Pid, q: Pid, xs: seq<Pid>): (ys: seq<Pid>)
    ensures |ys| == |xs| && forall k :: 0 <= k < |xs| ==> ys[k] == Swap(p, q, xs[k])
  {
    if xs == [] then [] else [Swap(p, q, xs[0])] + SwapAll(p, q, xs[1..])
  }

  lemma SwapEnumerates(p: Pid, q: Pid, order: seq<Pid>, keys: set<Pid>)
    requires Enumerates(order, keys) && p in keys && q in keys
    ensures Enumerates(SwapAll(p, q, order), keys)
  {
    var swapped := SwapAll(p, q, order);
    forall x
      ensures x in swapped <==> x in keys
    {
      if x in keys {
        assert Swap(p, q, x) in order;
        var k :| 0 <= k < |order| && order[k] == Swap(p, q, x);
        assert swapped[k] == x;
      }
      if x in swapped {
        var k :| 0 <= k < |swapped| && swapped[k] == x;
        assert order[k] in order;
      }
    }
  }

  lemma {:induction false} SwapOn(own: Owners, order: seq<Pid>, p: Pid, q: Pid, n: int)
    requires (forall x :: x in order ==> x in own) && p in own && q in own && (own[p] == n <==> own[q] == n)
    ensures forall x :: x in SwapAll(p, q, order) ==> x in own
    ensures On(own, SwapAll(p, q, order), n) == SwapAll(p, q, On(own, order, n))
  {
    if order != [] {
      SwapOn(own, order[1..], p, q, n);
      assert SwapAll(p, q, order)[1..] == SwapAll(p, q, order[1..]);
      var rest := On(own, order[1..], n);
      assert On(own, order, n) == (if own[order[0]] == n then [order[0]] else []) + rest;
    }
  }

  lemma {:induction false} SwapStrays(own: Owners, order: seq<Pid>, nodes: seq<NodeId>, p: Pid, q: Pid)
    requires (forall x :: x in order ==> x in own) && p in own && q in own && (own[p] in nodes <==> own[q] in nodes)
    ensures forall x :: x in SwapAll(p, q, order) ==> x in own
    ensures Strays(own, SwapAll(p, q, order), nodes) == SwapAll(p, q, Strays(own, order, nodes))
  {
    if order != [] {
      SwapStrays(own, order[1..], nodes, p, q);
      assert SwapAll(p, q, order)[1..] == SwapAll(p, q, order[1..]);
      var rest := Strays(own, order[1..], nodes);
      assert Strays(own, order, nodes) == (if own[order[0]] in nodes then [] else [order[0]]) + rest;
    }
  }

  lemma SwapKnown(own: Owners, order: seq<Pid>, p: Pid, q: Pid)
    requires (forall x :: x in order ==> x in own) && p in own && q in own
    ensures forall x :: x in SwapAll(p, q, order) ==> x in own
  {
    var swapped := SwapAll(p, q, order);
    forall x | x in swapped
      ensures x in own
    {
      var k :| 0 <= k < |swapped| && swapped[k] == x;
      assert order[k] in order;
    }
  }

  /** The two partitions are served by the same listed node, or both by unlisted ones. */
  predicate Twins(own: Owners, nodes: seq<NodeId>, p: Pid, q: Pid) {
    p in own && q in own && (own[p] == own[q] || (own[p] !in nodes && own[q] !in nodes))
  }

  lemma SwapConcat(p: Pid, q: Pid, a: seq<Pid>, b: seq<Pid>)
    ensures SwapAll(p, q, a + b) == SwapAll(p, q, a) + SwapAll(p, q, b)
  {
  }

  lemma {:induction false} SwapSurplus(own: Owners, order: seq<Pid>, nodes: seq<NodeId>, caps: seq<nat>, p: Pid, q: Pid)
    requires (forall x :: x in order ==> x in own) && |nodes| == |caps| && Twins(own, nodes, p, q)
    ensures forall x :: x in SwapAll(p, q, order) ==> x in own
    ensures Surplus(own, SwapAll(p, q, order), nodes, caps) == SwapAll(p, q, Surplus(own, order, nodes, caps))
    decreases |nodes|
  {
    SwapKnown(own, order, p, q);
    if nodes != [] {
      var n, rest := nodes[0], nodes[1..];
      assert nodes == [n] + rest;
      SwapOn(own, order, p, q, n);
      SwapSurplus(own, order, rest, caps[1..], p, q);
      var e := Monus(Load(own, order, n), caps[0]);
      assert SwapAll(p, q, On(own, order, n))[..e] == SwapAll(p, q, On(own, order, n)[..e]);
      SwapConcat(p, q, On(own, order, n)[..e], Surplus(own, order, rest, caps[1..]));
    }
  }

  /** Renaming one twin to the other in the iteration order renames the sources, and nothing else. */
  lemma SwapSources(own: Owners, order: seq<Pid>, nodes: seq<NodeId>, caps: seq<nat>, p: Pid, q: Pid)
    requires (forall x :: x in order ==> x in own) && |nodes| == |caps| && Twins(own, nodes, p, q)
    ensures forall x :: x in SwapAll(p, q, order) ==> x in own
    ensures Sources(own, SwapAll(p, q, order), nodes, caps) == SwapAll(p, q, Sources(own, order, nodes, caps))
  {
    hide Surplus, Strays, SwapAll;
    SwapStrays(own, order, nodes, p, q);
    SwapSurplus(own, order, nodes, caps, p, q);
    SwapConcat(p, q, Strays(own, order, nodes), Surplus(own, order, nodes, caps));
  }

  /** Twins of which one moves and the other does not, or moves elsewhere, end differently under the swapped order. */
  lemma SwapDiffers(table: Table, order: seq<Pid>, nodes: seq<NodeId>, k: nat, q: Pid)
    requires Enumerates(order, table.Keys) && Distinct(nodes) && nodes != []
    requires var own, caps := ActiveOwners(table), CapsFor(table, nodes);
             var ps, slots := Sources(own, order, nodes, caps), Slots(nodes, Serving(table, nodes), caps);
             && |ps| == |slots| && k < |ps| && Twins(ActiveOwners(table), nodes, ps[k], q)
             && (forall l :: 0 <= l < |ps| && ps[l] == q ==> slots[l] != slots[k])
    ensures !AllAgree(table, nodes)
  {
    hide Sources, Slots, Result, Serving, SwapAll, CapsFor;
    var own, caps := ActiveOwners(table), CapsFor(table, nodes);
    var ps, slots := Sources(own, order, nodes, caps), Slots(nodes, Serving(table, nodes), caps);
    var p := ps[k];
    var order' := SwapAll(p, q, order);
    Pairing(table, order, nodes);
    SwapEnumerates(p, q, order, table.Keys);
    SwapSources(own, order, nodes, caps, p, q);
    Pairing(table, order', nodes);
    var ps' := SwapAll(p, q, ps);
    assert Result(table, order, nodes)[p] == Owned(slots[k]);
    if q in ps {
      var l :| 0 <= l < |ps| && ps[l] == q;
      assert ps'[l] == p;
      assert Result(table, order', nodes)[p] == Owned(slots[l]);
    } else {
      SwapMisses(p, q, ps);
      assert Result(table, order', nodes)[p] == table[p];
    }
  }

  lemma SwapMisses(p: Pid, q: Pid, ps: seq<Pid>)
    requires q !in ps
    ensures p !in SwapAll(p, q, ps)
  {
    var ys := SwapAll(p, q, ps);
    assert forall k :: 0 <= k < |ps| ==> ps[k] in ps;
  }

  /** Every occurrence of `q` in the moves goes elsewhere than the `k`-th move. */
  ghost predicate Elsewhere(ps: seq<Pid>, slots: seq<NodeId>, k: nat, q: Pid)
    requires |ps| == |slots| && k < |ps|
  {
    forall l :: 0 <= l < |ps| && ps[l] == q ==> slots[l] != slots[k]
  }

  lemma ElsewhereShifts(a: seq<Pid>, b: seq<Pid>, slots: seq<NodeId>, k: nat, q: Pid)
    requires |slots| == |a + b| && k < |b| && q !in a && Elsewhere(b, slots[|a|..], k, q)
    ensures |a| + k < |a + b| && Elsewhere(a + b, slots, |a| + k, q)
  {
    FoundInRest(a, b, q, slots);
  }

  lemma {:induction false} UnforcedPair(own: Owners, order: seq<Pid>, nodes: seq<NodeId>, caps: seq<nat>,
                                        slots: seq<NodeId>)
      returns (k: nat, q: Pid)
    requires (forall x :: x in order ==> x in own) && Distinct(order) && Distinct(nodes) && |nodes| == |caps|
    requires |slots| == |Surplus(own, order, nodes, caps)|
    requires !ForcedFrom(nodes, LoadsOf(own, order, nodes), caps, slots)
    ensures var ps := Surplus(own, order, nodes, caps);
            && k < |ps| && q in order && ps[k] in own && own[ps[k]] == own[q] && own[q] in nodes
            && Elsewhere(ps, slots, k, q)
    decreases |nodes|
  {
    hide On, Load, LoadsOf, Surplus;
    var n, rest, loads := nodes[0], nodes[1..], LoadsOf(own, order, nodes);
    var e, all, others := Monus(loads[0], caps[0]), On(own, order, n), Surplus(own, order, rest, caps[1..]);
    FirstGroup(own, order, nodes, caps);
    OnOwned(own, order, n);
    OnDistinct(own, order, n);
    SourcesOwned(own, order, rest, caps[1..]);
    assert nodes == [n] + rest;
    var ps := all[..e] + others;
    if e > 0 && caps[0] > 0 {
      k, q := 0, all[e];
      KeptBehind(all, e, others);
    } else if !Uniform(slots[..e]) {
      var i, j :| 0 <= i < e && 0 <= j < e && slots[..e][i] != slots[..e][j];
      k, q := i, all[j];
      OnlyOnce(all, e, others, j);
    } else {
      k, q := UnforcedPair(own, order, rest, caps[1..], slots[e..]);
      ElsewhereShifts(all[..e], others, slots, k, q);
      k := e + k;
    }
  }

  lemma KeptBehind(all: seq<Pid>, e: nat, others: seq<Pid>)
    requires e < |all| && Distinct(all) && all[e] !in others
    ensures all[e] in all && all[e] !in all[..e] + others
  {
  }

  lemma OnlyOnce(all: seq<Pid>, e: nat, others: seq<Pid>, j: nat)
    requires j < e <= |all| && Distinct(all) && all[j] !in others
    ensures all[j] in all && forall l :: 0 <= l < |all[..e] + others| && (all[..e] + others)[l] == all[j] ==> l == j
  {
    FoundInFirst(all[..e], others, all[j]);
  }

  lemma {:induction false} SomeOrder(keys: set<Pid>) returns (order: seq<Pid>)
    ensures Enumerates(order, keys)
  {
    if keys == {} {
      order := [];
    } else {
      var p :| p in keys;
      var rest := SomeOrder(keys - {p});
      order := rest + [p];
    }
  }

  /** Some pair of twins that the pairing treats differently. */
  lemma UnforcedTwins(own: Owners, order: seq<Pid>, nodes: seq<NodeId>, caps: seq<nat>, slots: seq<NodeId>)
      returns (k: nat, q: Pid)
    requires (forall x :: x in order ==> x in own) && Distinct(order) && Distinct(nodes) && |nodes| == |caps|
    requires |slots| == |Strays(own, order, nodes)| + |Surplus(own, order, nodes, caps)|
    requires var s := |Strays(own, order, nodes)|;
             !(Uniform(slots[..s]) && ForcedFrom(nodes, LoadsOf(own, order, nodes), caps, slots[s..]))
    ensures var ps := Sources(own, order, nodes, caps);
            && |ps| == |slots| && k < |ps| && Twins(own, nodes, ps[k], q) && Elsewhere(ps, slots, k, q)
  {
    hide Strays, Surplus, LoadsOf, ForcedFrom, On;
    var strays, over := Strays(own, order, nodes), Surplus(own, order, nodes, caps);
    var s := |strays|;
    StraysOwned(own, order, nodes);
    SourcesOwned(own, order, nodes, caps);
    if !Uniform(slots[..s]) {
      StraysDistinct(own, order, nodes);
      var i, j :| 0 <= i < s && 0 <= j < s && slots[..s][i] != slots[..s][j];
      k, q := i, strays[j];
      assert strays[i] in strays && strays[j] in strays && strays[j] !in over;
      assert strays[..s] == strays;
      OnlyOnce(strays, s, over, j);
    } else {
      k, q := UnforcedPair(own, order, nodes, caps, slots[s..]);
      assert q !in strays && over[k] in over;
      ElsewhereShifts(strays, over, slots, k, q);
      k := s + k;
    }
  }

  lemma UnforcedDiffers(table: Table, order: seq<Pid>, nodes: seq<NodeId>)
    requires Enumerates(order, table.Keys) && Distinct(nodes) && nodes != [] && !Forced(table, nodes)
    ensures !AllAgree(table, nodes)
  {
    hide Slots, Strays, Surplus, LoadsOf, Caps, TargetMap, Serving, Result, ForcedFrom, Twins, AllAgree, Uniform;
    var own, caps := ActiveOwners(table), CapsFor(table, nodes);
    var slots := Slots(nodes, Serving(table, nodes), caps);
    Pairing(table, order, nodes);
    StraysAreStraySet(table, order, nodes);
    LoadsAreServing(table, order, nodes);
    var k, q := UnforcedTwins(own, order, nodes, caps, slots);
    SwapDiffers(table, order, nodes, k, q);
  }

  /** Replicas with any iteration orders end with equal tables exactly when nothing is left to choose. */
  lemma ReplicasAgreeIff(table: Table, nodes: seq<NodeId>)
    requires Distinct(nodes) && nodes != []
    ensures AllAgree(table, nodes) <==> Forced(table, nodes)
  {
    hide Forced, Result, Sources, Slots, Serving, CapsFor;
    if Forced(table, nodes) {
      forall o, o' | Enumerates(o, table.Keys) && Enumerates(o', table.Keys)
        ensures Result(table, o, nodes) == Result(table, o', nodes)
      {
        SameEnds(table, o, o', nodes);
      }
    } else {
      var order := SomeOrder(table.Keys);
      UnforcedDiffers(table, order, nodes);
    }
  }

  lemma SameEnds(table: Table, o: seq<Pid>, o': seq<Pid>, nodes: seq<NodeId>)
    requires Enumerates(o, table.Keys) && Enumerates(o', table.Keys)
    requires Distinct(nodes) && nodes != [] && Forced(table, nodes)
    ensures Result(table, o, nodes) == Result(table, o', nodes)
  {
    hide Forced, Result, Slots, Serving, CapsFor, FirstSlot, IsOver;
    var t, t' := Result(table, o, nodes), Result(table, o', nodes);
    ResultKeys(table, o, nodes);
    ResultKeys(table, o', nodes);
    forall p | p in table
      ensures p in t && p in t' && t[p] == t'[p]
    {
      ForcedEnds(table, o, nodes, p);
      ForcedEnds(table, o', nodes, p);
    }
  }

  lemma ResultKeys(table: Table, order: seq<Pid>, nodes: seq<NodeId>)
    requires Enumerates(order, table.Keys) && Distinct(nodes) && nodes != []
    ensures Result(table, order, nodes).Keys == table.Keys
  {
    hide Moves, ApplyMoves;
    RebalanceMeetsTargets(table, order, nodes);
  }
}
