/** Which partitions move, and in what order: what the counts alone do not say. */
module RebalanceOrder {
  import opened PartitionTable
  import opened Loads
  import opened ComputeRebalance
  import opened PlanRebalance
  import opened PlanRebalanceLaws

  ghost predicate Before(s: seq<Pid>, q: Pid, p: Pid) {
    exists i, j :: 0 <= i < j < |s| && s[i] == q && s[j] == p
  }

  lemma BeforeBehind(a: seq<Pid>, s: seq<Pid>, q: Pid, p: Pid)
    requires Before(s, q, p)
    ensures Before(a + s, q, p)
  {
    var i, j :| 0 <= i < j < |s| && s[i] == q && s[j] == p;
    assert (a + s)[|a| + i] == q && (a + s)[|a| + j] == p;
  }

  lemma BeforeFirst(x: Pid, s: seq<Pid>, p: Pid)
    requires p in s
    ensures Before([x] + s, x, p)
  {
    var j :| 0 <= j < |s| && s[j] == p;
    assert ([x] + s)[0] == x && ([x] + s)[j + 1] == p;
  }

  // ── Iteration order is kept ──────────────────────────────────────────────

  lemma {:induction false} OnKeepsOrder(own: Owners, order: seq<Pid>, n: int, q: Pid, p: Pid)
    requires (forall x :: x in order ==> x in own) && Before(order, q, p) && q in own && p in own
    requires own[q] == n && own[p] == n
    ensures Before(On(own, order, n), q, p)
  {
    var i, j :| 0 <= i < j < |order| && order[i] == q && order[j] == p;
    var first, rest := if own[order[0]] == n then [order[0]] else [], On(own, order[1..], n);
    if i == 0 {
      assert order[1..][j - 1] == p;
      OnOwned(own, order[1..], n);
      BeforeFirst(q, rest, p);
    } else {
      assert order[1..][i - 1] == q && order[1..][j - 1] == p;
      OnKeepsOrder(own, order[1..], n, q, p);
      BeforeBehind(first, rest, q, p);
    }
  }

  lemma {:induction false} OnFollowsOrder(own: Owners, order: seq<Pid>, n: int, i: nat, j: nat)
    requires (forall x :: x in order ==> x in own) && i < j < |On(own, order, n)|
    ensures Before(order, On(own, order, n)[i], On(own, order, n)[j])
  {
    hide Before;
    var first, rest := order[0], On(own, order[1..], n);
    assert order == [first] + order[1..];
    if own[first] == n {
      if i == 0 {
        OnOwned(own, order[1..], n);
        assert rest[j - 1] in rest;
        BeforeFirst(first, order[1..], rest[j - 1]);
      } else {
        OnFollowsOrder(own, order[1..], n, i - 1, j - 1);
        BeforeBehind([first], order[1..], rest[i - 1], rest[j - 1]);
      }
    } else {
      OnFollowsOrder(own, order[1..], n, i, j);
      BeforeBehind([first], order[1..], rest[i], rest[j]);
    }
  }

  lemma {:induction false} StraysFollowOrder(own: Owners, order: seq<Pid>, nodes: seq<NodeId>, i: nat, j: nat)
    requires (forall x :: x in order ==> x in own) && i < j < |Strays(own, order, nodes)|
    ensures Before(order, Strays(own, order, nodes)[i], Strays(own, order, nodes)[j])
  {
    hide Before;
    var first, rest := order[0], Strays(own, order[1..], nodes);
    assert order == [first] + order[1..];
    if own[first] !in nodes {
      if i == 0 {
        StraysOwned(own, order[1..], nodes);
        assert rest[j - 1] in rest;
        BeforeFirst(first, order[1..], rest[j - 1]);
      } else {
        StraysFollowOrder(own, order[1..], nodes, i - 1, j - 1);
        BeforeBehind([first], order[1..], rest[i - 1], rest[j - 1]);
      }
    } else {
      StraysFollowOrder(own, order[1..], nodes, i, j);
      BeforeBehind([first], order[1..], rest[i], rest[j]);
    }
  }

  // ── Node by node ─────────────────────────────────────────────────────────

  /** `x` is listed no later than `y`. */
  ghost predicate NoLater(nodes: seq<NodeId>, x: int, y: int) {
    exists a, b :: 0 <= a <= b < |nodes| && nodes[a] == x && nodes[b] == y
  }

  lemma NoLaterBehind(first: NodeId, rest: seq<NodeId>, x: int, y: int)
    requires NoLater(rest, x, y)
    ensures NoLater([first] + rest, x, y)
  {
    var a, b :| 0 <= a <= b < |rest| && rest[a] == x && rest[b] == y;
    assert ([first] + rest)[a + 1] == x && ([first] + rest)[b + 1] == y;
  }

  lemma NoLaterFirst(first: NodeId, rest: seq<NodeId>, y: int)
    requires y == first || NoLater(rest, y, y)
    ensures NoLater([first] + rest, first, y)
  {
    assert ([first] + rest)[0] == first;
    if y != first {
      var b :| 0 <= b < |rest| && rest[b] == y;
      assert ([first] + rest)[b + 1] == y;
    }
  }

  lemma {:induction false} RepeatAll(node: NodeId, k: nat)
    ensures forall i :: 0 <= i < k ==> Repeat(node, k)[i] == node
  {
    if k > 0 {
      RepeatAll(node, k - 1);
    }
  }

  /** Slots are filled in the order the nodes are listed. */
  lemma {:induction false} SlotsInOrder(nodes: seq<NodeId>, loads: seq<nat>, caps: seq<nat>, i: nat, j: nat)
    requires |nodes| == |loads| == |caps| && i <= j < |Slots(nodes, loads, caps)|
    ensures NoLater(nodes, Slots(nodes, loads, caps)[i], Slots(nodes, loads, caps)[j])
    decreases |nodes|
  {
    var k := Monus(caps[0], loads[0]);
    RepeatAll(nodes[0], k);
    var rest := Slots(nodes[1..], loads[1..], caps[1..]);
    assert nodes == [nodes[0]] + nodes[1..];
    if j < k {
      NoLaterFirst(nodes[0], nodes[1..], nodes[0]);
    } else if i < k {
      SlotsInOrder(nodes[1..], loads[1..], caps[1..], j - k, j - k);
      NoLaterFirst(nodes[0], nodes[1..], rest[j - k]);
    } else {
      SlotsInOrder(nodes[1..], loads[1..], caps[1..], i - k, j - k);
      NoLaterBehind(nodes[0], nodes[1..], rest[i - k], rest[j - k]);
    }
  }

  /** The part of the surplus that comes from the first node. */
  function FirstSurplus(own: Owners, order: seq<Pid>, node: NodeId, cap: nat): (ps: seq<Pid>)
    requires forall p :: p in order ==> p in own
  {
    On(own, order, node)[..Monus(Load(own, order, node), cap)]
  }

  lemma FirstSurplusOwned(own: Owners, order: seq<Pid>, node: NodeId, cap: nat)
    requires forall p :: p in order ==> p in own
    ensures forall p :: p in FirstSurplus(own, order, node, cap) ==> p in own && own[p] == node
  {
    OnOwned(own, order, node);
  }

  lemma FirstSurplusInOrder(own: Owners, order: seq<Pid>, node: NodeId, cap: nat, i: nat, j: nat)
    requires (forall p :: p in order ==> p in own) && i <= j < |FirstSurplus(own, order, node, cap)|
    ensures var ps := FirstSurplus(own, order, node, cap);
            && ps[i] in own && ps[j] in own && own[ps[i]] == node && own[ps[j]] == node
            && (i < j ==> Before(order, ps[i], ps[j]))
  {
    hide Before;
    var ps := FirstSurplus(own, order, node, cap);
    FirstSurplusOwned(own, order, node, cap);
    assert ps[i] in ps && ps[j] in ps;
    if i < j {
      OnFollowsOrder(own, order, node, i, j);
    }
  }

  lemma SurplusSplits(own: Owners, order: seq<Pid>, nodes: seq<NodeId>, caps: seq<nat>)
    requires (forall p :: p in order ==> p in own) && |nodes| == |caps| && nodes != []
    ensures Surplus(own, order, nodes, caps)
         == FirstSurplus(own, order, nodes[0], caps[0]) + Surplus(own, order, nodes[1..], caps[1..])
  {
  }

  /** What leaves the listed nodes leaves node by node as listed, and each node's in iteration order. */
  lemma {:induction false} SurplusInOrder(own: Owners, order: seq<Pid>, nodes: seq<NodeId>, caps: seq<nat>, i: nat,
                                          j: nat)
    requires (forall p :: p in order ==> p in own) && |nodes| == |caps| && Distinct(nodes)
    requires i <= j < |Surplus(own, order, nodes, caps)|
    ensures var ps := Surplus(own, order, nodes, caps);
            && ps[i] in own && ps[j] in own && NoLater(nodes, own[ps[i]], own[ps[j]])
            && (i < j && own[ps[i]] == own[ps[j]] ==> Before(order, ps[i], ps[j]))
    decreases |nodes|
  {
    SurplusSplits(own, order, nodes, caps);
    TailDistinct(nodes);
    hide Surplus, NoLater, Before, FirstSurplus, Distinct;
    var first, rest := FirstSurplus(own, order, nodes[0], caps[0]), Surplus(own, order, nodes[1..], caps[1..]);
    var k := |first|;
    assert nodes == [nodes[0]] + nodes[1..];
    if j < k {
      FirstSurplusInOrder(own, order, nodes[0], caps[0], i, j);
      NoLaterFirst(nodes[0], nodes[1..], nodes[0]);
    } else if i < k {
      FirstSurplusInOrder(own, order, nodes[0], caps[0], i, i);
      SurplusInOrder(own, order, nodes[1..], caps[1..], j - k, j - k);
      NoLaterFirst(nodes[0], nodes[1..], own[rest[j - k]]);
      ListedLater(nodes, own[rest[j - k]]);
    } else {
      SurplusInOrder(own, order, nodes[1..], caps[1..], i - k, j - k);
      NoLaterBehind(nodes[0], nodes[1..], own[rest[i - k]], own[rest[j - k]]);
    }
  }

  lemma TailDistinct(nodes: seq<NodeId>)
    requires nodes != [] && Distinct(nodes)
    ensures Distinct(nodes[1..])
  {
  }

  lemma ListedLater(nodes: seq<NodeId>, x: int)
    requires nodes != [] && Distinct(nodes) && NoLater(nodes[1..], x, x)
    ensures x != nodes[0]
  {
  }

  /** A node gives up the partitions it iterates first: before one that leaves, every other of that node leaves. */
  lemma {:induction false} SurplusIsFirst(own: Owners, order: seq<Pid>, nodes: seq<NodeId>, caps: seq<nat>, q: Pid,
                                          p: Pid)
    requires (forall x :: x in order ==> x in own) && |nodes| == |caps| && Distinct(nodes) && Distinct(order)
    requires Before(order, q, p) && q in own && p in own && own[q] == own[p]
    requires p in Surplus(own, order, nodes, caps)
    ensures q in Surplus(own, order, nodes, caps)
    decreases |nodes|
  {
    SurplusSplits(own, order, nodes, caps);
    FirstSurplusOwned(own, order, nodes[0], caps[0]);
    var first, rest := FirstSurplus(own, order, nodes[0], caps[0]), Surplus(own, order, nodes[1..], caps[1..]);
    hide Surplus;
    if p in first {
      OnKeepsOrder(own, order, nodes[0], q, p);
      OnDistinct(own, order, nodes[0]);
      var i, j :| 0 <= i < j < |On(own, order, nodes[0])| && On(own, order, nodes[0])[i] == q
                  && On(own, order, nodes[0])[j] == p;
      assert first[i] == q;
    } else {
      SurplusIsFirst(own, order, nodes[1..], caps[1..], q, p);
    }
  }

  // ── compute_rebalance ────────────────────────────────────────────────────

  /** The moves come in this order: partitions of unlisted nodes first, as iterated; then those of overloaded nodes,
      node by node as listed, each node's as iterated; and the receiving nodes are filled in the order they are
      listed. */
  lemma MovesInOrder(table: Table, order: seq<Pid>, nodes: seq<NodeId>, i: nat, j: nat)
    requires Enumerates(order, table.Keys) && Distinct(nodes) && nodes != []
    requires i < j < |Moves(table, order, nodes)|
    ensures var m, m' := Moves(table, order, nodes)[i], Moves(table, order, nodes)[j];
            && NoLater(nodes, m.to, m'.to)
            && (m'.from !in nodes ==> m.from !in nodes)
            && (m.from in nodes && m'.from in nodes ==> NoLater(nodes, m.from, m'.from))
            && ((m.from !in nodes && m'.from !in nodes) || m.from == m'.from ==> Before(order, m.p, m'.p))
  {
    hide Moves, Sources, Slots, LoadsOf, TargetMap, Caps, NoLater, Before;
    var own, caps := ActiveOwners(table), Caps(TargetMap(|table|, |nodes|, nodes), nodes);
    ZipAt(table, order, nodes, i);
    ZipAt(table, order, nodes, j);
    SlotsInOrder(nodes, LoadsOf(own, order, nodes), caps, i, j);
    SourcesInOrder(own, order, nodes, caps, i, j);
  }

  lemma SourcesInOrder(own: Owners, order: seq<Pid>, nodes: seq<NodeId>, caps: seq<nat>, i: nat, j: nat)
    requires (forall p :: p in order ==> p in own) && |nodes| == |caps| && Distinct(nodes)
    requires i < j < |Sources(own, order, nodes, caps)|
    ensures var ps := Sources(own, order, nodes, caps);
            && ps[i] in own && ps[j] in own
            && (own[ps[j]] !in nodes ==> own[ps[i]] !in nodes)
            && (own[ps[i]] in nodes && own[ps[j]] in nodes ==> NoLater(nodes, own[ps[i]], own[ps[j]]))
            && ((own[ps[i]] !in nodes && own[ps[j]] !in nodes) || own[ps[i]] == own[ps[j]] ==>
                  Before(order, ps[i], ps[j]))
  {
    hide Sources, Surplus, Strays, NoLater, Before;
    SourceAt(own, order, nodes, caps, i);
    SourceAt(own, order, nodes, caps, j);
    var k := |Strays(own, order, nodes)|;
    if j < k {
      StraysFollowOrder(own, order, nodes, i, j);
    } else if i >= k {
      SurplusInOrder(own, order, nodes, caps, i - k, j - k);
    }
  }

  lemma SourceAt(own: Owners, order: seq<Pid>, nodes: seq<NodeId>, caps: seq<nat>, i: nat)
    requires (forall p :: p in order ==> p in own) && |nodes| == |caps| && i < |Sources(own, order, nodes, caps)|
    ensures var strays, surplus := Strays(own, order, nodes), Surplus(own, order, nodes, caps);
            var p := Sources(own, order, nodes, caps)[i];
            && p in own && |Sources(own, order, nodes, caps)| == |strays| + |surplus|
            && (if i < |strays| then p == strays[i] && own[p] !in nodes
                else p == surplus[i - |strays|] && own[p] in nodes)
  {
    StraysOwned(own, order, nodes);
    SourcesOwned(own, order, nodes, caps);
    var strays, surplus := Strays(own, order, nodes), Surplus(own, order, nodes, caps);
    if i < |strays| {
      assert strays[i] in strays;
    } else {
      assert surplus[i - |strays|] in surplus;
    }
  }

  lemma ZipAt(table: Table, order: seq<Pid>, nodes: seq<NodeId>, i: nat)
    requires Enumerates(order, table.Keys) && Distinct(nodes) && nodes != [] && i < |Moves(table, order, nodes)|
    ensures var own, caps := ActiveOwners(table), Caps(TargetMap(|table|, |nodes|, nodes), nodes);
            var ps, slots := Sources(own, order, nodes, caps), Slots(nodes, LoadsOf(own, order, nodes), caps);
            && |ps| == |slots| == |Moves(table, order, nodes)| && ps[i] in own
            && Moves(table, order, nodes)[i] == Move(ps[i], own[ps[i]], slots[i])
  {
    hide Moves, Sources, Slots, LoadsOf, TargetMap, Caps;
    MovesZip(table, order, nodes);
  }

  /** A listed node above its target gives up the partitions it iterates first. */
  lemma FirstIteratedGo(table: Table, order: seq<Pid>, nodes: seq<NodeId>, k: nat, q: Pid)
    requires Enumerates(order, table.Keys) && Distinct(nodes) && nodes != [] && k < |Moves(table, order, nodes)|
    requires var m := Moves(table, order, nodes)[k];
             m.from in nodes && q in table && ActiveNode(table[q]) == m.from && Before(order, q, m.p)
    ensures exists j :: 0 <= j < |Moves(table, order, nodes)| && Moves(table, order, nodes)[j].p == q
  {
    hide Moves, Sources, Slots, LoadsOf, TargetMap, Caps, Before;
    var own, caps := ActiveOwners(table), Caps(TargetMap(|table|, |nodes|, nodes), nodes);
    ZipAt(table, order, nodes, k);
    var j := SourcesFirst(own, order, nodes, caps, k, q);
    ZipAt(table, order, nodes, j);
  }

  lemma SourcesFirst(own: Owners, order: seq<Pid>, nodes: seq<NodeId>, caps: seq<nat>, k: nat, q: Pid)
      returns (j: nat)
    requires (forall p :: p in order ==> p in own) && |nodes| == |caps| && Distinct(nodes) && Distinct(order)
    requires k < |Sources(own, order, nodes, caps)|
    requires var p := Sources(own, order, nodes, caps)[k];
             p in own && q in own && own[p] in nodes && own[q] == own[p] && Before(order, q, p)
    ensures j < |Sources(own, order, nodes, caps)| && Sources(own, order, nodes, caps)[j] == q
  {
    hide Sources, Surplus, Strays, Before;
    SourceAt(own, order, nodes, caps, k);
    var strays, surplus := Strays(own, order, nodes), Surplus(own, order, nodes, caps);
    assert surplus[k - |strays|] in surplus;
    SurplusIsFirst(own, order, nodes, caps, q, Sources(own, order, nodes, caps)[k]);
    var i :| 0 <= i < |surplus| && surplus[i] == q;
    j := |strays| + i;
    SourceAt(own, order, nodes, caps, j);
  }

  // ── plan_rebalance ───────────────────────────────────────────────────────

  /** A live member above the ceiling gives up its lowest-numbered partitions. */
  lemma LowestGo(table: Table, order: seq<Pid>, live: seq<NodeId>, k: nat, q: Pid)
    requires Enumerates(order, table.Keys) && live != [] && k < |PlanOf(table, order, live)|
    requires var p := PlanOf(table, order, live)[k].0; q < p && q in table && p in table
    requires table[q].Owned? && table[q] == table[PlanOf(table, order, live)[k].0]
    ensures exists j :: 0 <= j < |PlanOf(table, order, live)| && PlanOf(table, order, live)[j].0 == q
  {
    hide *;
    var p, ps := PlanOf(table, order, live)[k].0, Peeled(table, order, live);
    var own, members, asc := SettledOwners(table), Members(live), Ascending(order);
    MoveOfPlan(table, order, live, k);
    PlanIsFill(table, order, live);
    MembersDistinct(live);
    AscendingEnumerates(order, table.Keys);
    SettledTogether(table, q, p);
    AscendingBefore(order, q, p);
    PeeledIsFirst(table, order, live, q, p);
    var fill := Fill(own, members, Room(table, live), ps);
    FillPlacesAll(own, members, Room(table, live), ps);
    FillMovesOnce(own, members, Room(table, live), ps);
    SortPlanSorts(table, fill);
    var i :| 0 <= i < |ps| && ps[i] == q;
    assert fill[i] in fill && fill[i] in PlanOf(table, order, live);
  }

  lemma PeeledIsFirst(table: Table, order: seq<Pid>, live: seq<NodeId>, q: Pid, p: Pid)
    requires Enumerates(order, table.Keys) && Distinct(Members(live)) && p in Peeled(table, order, live)
    requires Distinct(Ascending(order)) && Before(Ascending(order), q, p)
    requires q in table && p in table && SettledOwners(table).Keys == table.Keys
    requires SettledOwners(table)[q] == SettledOwners(table)[p]
    ensures q in Peeled(table, order, live)
  {
    var members := Members(live);
    SurplusIsFirst(SettledOwners(table), Ascending(order), members,
                   Repeat(CeilingFor(table, live), |members|), q, p);
  }

  lemma SettledTogether(table: Table, q: Pid, p: Pid)
    requires q in table && p in table && table[q] == table[p]
    ensures SettledOwners(table).Keys == table.Keys && SettledOwners(table)[q] == SettledOwners(table)[p]
  {
  }

  lemma AscendingBefore(order: seq<Pid>, q: Pid, p: Pid)
    requires q in order && p in order && q < p
    ensures Before(Ascending(order), q, p)
  {
    var asc := Ascending(order);
    var i :| 0 <= i < |asc| && asc[i] == q;
    var j :| 0 <= j < |asc| && asc[j] == p;
    assert i < j;
  }
}
