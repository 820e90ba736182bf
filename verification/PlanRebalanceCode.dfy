/** `plan_rebalance` as it runs: buckets, the deficit vector and the nested loops, proved to return the plan. */
module PlanRebalanceCode {
  import opened PartitionTable
  import opened Loads
  import opened ComputeRebalance
  import opened PlanRebalance

  // ── Buckets ──────────────────────────────────────────────────────────────

  lemma {:induction false} OnAppend(own: Owners, order: seq<Pid>, p: Pid, n: int)
    requires (forall q :: q in order ==> q in own) && p in own
    ensures On(own, order + [p], n) == On(own, order, n) + if own[p] == n then [p] else []
  {
    var whole := order + [p];
    if order == [] {
      assert whole == [p];
      assert On(own, whole[1..], n) == [];
    } else {
      assert whole[0] == order[0] && whole[1..] == order[1..] + [p];
      OnAppend(own, order[1..], p, n);
    }
  }

  lemma {:induction false} OnAscends(own: Owners, order: seq<Pid>, n: int)
    requires (forall p :: p in order ==> p in own) && Ascends(order)
    ensures Ascends(On(own, order, n))
  {
    if order != [] {
      OnAscends(own, order[1..], n);
      OnOwned(own, order[1..], n);
      var r := On(own, order[1..], n);
      forall i | 0 <= i < |r|
        ensures order[0] < r[i]
      {
        assert r[i] in r && r[i] in order[1..];
      }
    }
  }

  /** Sorting one node's bucket gives what ascending iteration would have put there. */
  lemma SortedBucket(own: Owners, order: seq<Pid>, n: int)
    requires forall p :: p in order ==> p in own
    ensures Ascending(On(own, order, n)) == On(own, Ascending(order), n)
  {
    hide Ascending;
    OnOwned(own, order, n);
    OnOwned(own, Ascending(order), n);
    OnAscends(own, Ascending(order), n);
    AscendingUnique(Ascending(On(own, order, n)), On(own, Ascending(order), n));
  }

  /** Every live member has a bucket, holding the partitions it owns among those walked. */
  ghost predicate Bucketed(owned: map<NodeId, seq<Pid>>, own: Owners, order: seq<Pid>, members: seq<NodeId>)
    requires forall p :: p in order ==> p in own
  {
    forall n :: (n in owned <==> n in members) && (n in members ==> owned[n] == On(own, order, n))
  }

  lemma BucketStep(owned: map<NodeId, seq<Pid>>, own: Owners, order: seq<Pid>, members: seq<NodeId>, p: Pid)
    requires (forall q :: q in order ==> q in own) && p in own && Bucketed(owned, own, order, members)
    ensures own[p] !in members ==> Bucketed(owned, own, order + [p], members)
    ensures forall n: NodeId :: n == own[p] && n in members ==>
              n in owned && Bucketed(owned[n := owned[n] + [p]], own, order + [p], members)
  {
    forall n | n in members
      ensures On(own, order + [p], n) == On(own, order, n) + if own[p] == n then [p] else []
    {
      OnAppend(own, order, p, n);
    }
  }

  method EmptyBuckets(members: seq<NodeId>) returns (owned: map<NodeId, seq<Pid>>)
    ensures forall n :: (n in owned <==> n in members) && (n in members ==> owned[n] == [])
  {
    owned := map[];
    for k := 0 to |members|
      invariant forall n :: (n in owned <==> n in members[..k]) && (n in owned ==> owned[n] == [])
    {
      assert members[..k + 1] == members[..k] + [members[k]];
      owned := owned[members[k] := []];
    }
    assert members[..|members|] == members;
  }

  method FillBuckets(table: Table, order: seq<Pid>, members: seq<NodeId>) returns (owned: map<NodeId, seq<Pid>>)
    requires Enumerates(order, table.Keys)
    ensures Bucketed(owned, SettledOwners(table), order, members)
  {
    hide On;
    ghost var own := SettledOwners(table);
    owned := EmptyBuckets(members);
    NothingOn(own, members);
    for k := 0 to |order|
      invariant forall p :: p in order[..k] ==> p in own
      invariant Bucketed(owned, own, order[..k], members)
    {
      var p := order[k];
      assert p in table && order[..k + 1] == order[..k] + [p];
      BucketStep(owned, own, order[..k], members, p);
      match table[p] {
        case Owned(n) =>
          if n in owned {
            owned := owned[n := owned[n] + [p]];
          }
        case Transferring(_, _) =>
      }
    }
    assert order[..|order|] == order;
  }

  lemma NothingOn(own: Owners, members: seq<NodeId>)
    ensures forall n :: n in members ==> On(own, [], n) == []
  {
  }

  method SortBuckets(owned: map<NodeId, seq<Pid>>, ghost own: Owners, ghost order: seq<Pid>, members: seq<NodeId>)
    returns (sorted: map<NodeId, seq<Pid>>)
    requires (forall p :: p in order ==> p in own) && Bucketed(owned, own, order, members)
    ensures Bucketed(sorted, own, Ascending(order), members)
  {
    hide On, Ascending;
    sorted := map[];
    for k := 0 to |members|
      invariant forall n :: n in sorted <==> n in members[..k]
      invariant forall n :: n in sorted ==> sorted[n] == On(own, Ascending(order), n)
    {
      assert members[..k + 1] == members[..k] + [members[k]];
      SortedBucket(own, order, members[k]);
      sorted := sorted[members[k] := Ascending(owned[members[k]])];
    }
    assert members[..|members|] == members;
  }

  // ── Totals and deficits ──────────────────────────────────────────────────

  method Total(owned: map<NodeId, seq<Pid>>, ghost own: Owners, ghost asc: seq<Pid>, members: seq<NodeId>)
      returns (total: nat)
    requires (forall p :: p in asc ==> p in own) && Bucketed(owned, own, asc, members)
    ensures total == Sum(LoadsOf(own, asc, members))
  {
    hide On;
    total := 0;
    ghost var loads := LoadsOf(own, asc, members);
    for k := 0 to |members|
      invariant total + Sum(loads[k..]) == Sum(loads)
    {
      LoadsAt(own, asc, members, k);
      assert loads[k..][1..] == loads[k + 1..];
      total := total + |owned[members[k]]|;
    }
  }

  method Deficits(owned: map<NodeId, seq<Pid>>, ghost own: Owners, ghost asc: seq<Pid>, members: seq<NodeId>,
                  ceiling: nat)
    returns (slots: seq<nat>)
    requires (forall p :: p in asc ==> p in own) && Bucketed(owned, own, asc, members)
    ensures slots == Rooms(ceiling, LoadsOf(own, asc, members))
  {
    hide On;
    slots := [];
    ghost var loads := LoadsOf(own, asc, members);
    for k := 0 to |members|
      invariant slots + Rooms(ceiling, loads[k..]) == Rooms(ceiling, loads)
    {
      LoadsAt(own, asc, members, k);
      assert loads[k..][1..] == loads[k + 1..];
      slots := slots + [Monus(ceiling, |owned[members[k]]|)];
    }
  }

  // ── Handing out ──────────────────────────────────────────────────────────

  /** The index `min_by` would find, or the number of members when no one is eligible. */
  method PickTarget(members: seq<NodeId>, slots: seq<nat>, owner: NodeId) returns (i: nat)
    requires |members| == |slots|
    ensures i == Pick(members, slots, owner, |slots|)
  {
    i := |members|;
    for k := 0 to |slots|
      invariant i == Pick(members, slots, owner, k)
    {
      if members[k] != owner && slots[k] > 0 {
        if i == |members| || slots[k] > slots[i] || (slots[k] == slots[i] && members[k] < members[i]) {
          i := k;
        }
      }
    }
  }

  ghost predicate AllFrom(own: Owners, ps: seq<Pid>, owner: NodeId) {
    forall p :: p in ps ==> p in own && own[p] == owner
  }

  /** Once no one has room for this owner's partitions, no one will. */
  lemma {:induction false} FillStuck(own: Owners, members: seq<NodeId>, slots: seq<nat>, ps: seq<Pid>, owner: NodeId)
    requires |members| == |slots| && AllFrom(own, ps, owner) && Pick(members, slots, owner, |slots|) == |members|
    ensures Fill(own, members, slots, ps) == [] && RoomLeft(own, members, slots, ps) == slots
    decreases |ps|
  {
    hide Pick;
    if ps != [] {
      FillStuck(own, members, slots, ps[1..], owner);
    }
  }

  /** The slots after the first hand-over. */
  function SlotsAfter(own: Owners, members: seq<NodeId>, slots: seq<nat>, p: Pid): (slots': seq<nat>)
    requires |members| == |slots| && p in own
    ensures |slots'| == |slots|
  {
    var i := Pick(members, slots, own[p], |slots|);
    if i == |members| then slots else slots[i := slots[i] - 1]
  }

  /** The first hand-over, if anyone has room. */
  function FirstMove(own: Owners, members: seq<NodeId>, slots: seq<nat>, p: Pid): (plan: Plan)
    requires |members| == |slots| && p in own
  {
    var i := Pick(members, slots, own[p], |slots|);
    if i == |members| then [] else [(p, members[i])]
  }

  lemma FillCons(own: Owners, members: seq<NodeId>, slots: seq<nat>, p: Pid, ps: seq<Pid>)
    requires |members| == |slots| && p in own && forall q :: q in ps ==> q in own
    ensures var slots' := SlotsAfter(own, members, slots, p);
            && Fill(own, members, slots, [p] + ps) == FirstMove(own, members, slots, p) + Fill(own, members, slots', ps)
            && RoomLeft(own, members, slots, [p] + ps) == RoomLeft(own, members, slots', ps)
  {
    hide Pick;
    assert ([p] + ps)[0] == p && ([p] + ps)[1..] == ps;
  }

  lemma {:induction false} FillConcat(own: Owners, members: seq<NodeId>, slots: seq<nat>, a: seq<Pid>, b: seq<Pid>)
    requires |members| == |slots| && (forall p :: p in a ==> p in own) && (forall p :: p in b ==> p in own)
    ensures Fill(own, members, slots, a + b)
         == Fill(own, members, slots, a) + Fill(own, members, RoomLeft(own, members, slots, a), b)
    decreases |a|
  {
    if a == [] {
      assert a + b == b;
    } else {
      hide Fill, RoomLeft, SlotsAfter, FirstMove;
      assert a == [a[0]] + a[1..] && a + b == [a[0]] + (a[1..] + b);
      FillCons(own, members, slots, a[0], a[1..]);
      FillCons(own, members, slots, a[0], a[1..] + b);
      FillConcat(own, members, SlotsAfter(own, members, slots, a[0]), a[1..], b);
    }
  }

  /** One owner's surplus, with the early exit. */
  method Peel(ghost own: Owners, members: seq<NodeId>, slots0: seq<nat>, ps: seq<Pid>, owner: NodeId, plan0: Plan)
    returns (plan: Plan, slots: seq<nat>)
    requires |members| == |slots0| && AllFrom(own, ps, owner)
    ensures plan == plan0 + Fill(own, members, slots0, ps)
    ensures slots == RoomLeft(own, members, slots0, ps)
  {
    hide Pick;
    plan, slots := plan0, slots0;
    for k := 0 to |ps|
      invariant |slots| == |members| && AllFrom(own, ps[k..], owner)
      invariant plan + Fill(own, members, slots, ps[k..]) == plan0 + Fill(own, members, slots0, ps)
      invariant RoomLeft(own, members, slots, ps[k..]) == RoomLeft(own, members, slots0, ps)
    {
      assert ps[k..][0] == ps[k] && ps[k..][1..] == ps[k + 1..];
      assert ps[k] in ps[k..];
      var i := PickTarget(members, slots, owner);
      if i == |members| {
        FillStuck(own, members, slots, ps[k..], owner);
        break;
      }
      plan := plan + [(ps[k], members[i])];
      slots := slots[i := slots[i] - 1];
    }
  }

  ghost predicate Remaining(own: Owners, asc: seq<Pid>, members: seq<NodeId>, caps: seq<nat>, k: nat,
                            slots: seq<nat>, plan: Plan, whole: Plan)
    requires (forall p :: p in asc ==> p in own) && |members| == |caps| && k <= |members|
  {
    && |slots| == |members|
    && (forall p :: p in Surplus(own, asc, members[k..], caps[k..]) ==> p in own)
    && plan + Fill(own, members, slots, Surplus(own, asc, members[k..], caps[k..])) == whole
  }

  lemma RemainingStep(own: Owners, asc: seq<Pid>, members: seq<NodeId>, caps: seq<nat>, k: nat, slots: seq<nat>,
                      plan: Plan, whole: Plan)
    requires (forall p :: p in asc ==> p in own) && |members| == |caps| && k < |members|
    requires Remaining(own, asc, members, caps, k, slots, plan, whole)
    ensures var mine := On(own, asc, members[k])[..Monus(Load(own, asc, members[k]), caps[k])];
            && AllFrom(own, mine, members[k])
            && Remaining(own, asc, members, caps, k + 1, RoomLeft(own, members, slots, mine),
                         plan + Fill(own, members, slots, mine), whole)
  {
    hide Fill, RoomLeft, On;
    var mine := On(own, asc, members[k])[..Monus(Load(own, asc, members[k]), caps[k])];
    var rest := Surplus(own, asc, members[k + 1..], caps[k + 1..]);
    assert members[k..][1..] == members[k + 1..] && caps[k..][1..] == caps[k + 1..];
    OnOwned(own, asc, members[k]);
    SourcesOwned(own, asc, members[k + 1..], caps[k + 1..]);
    FillConcat(own, members, slots, mine, rest);
  }

  method Compute(table: Table, order: seq<Pid>, live: seq<NodeId>) returns (plan: Plan)
    requires Enumerates(order, table.Keys)
    ensures plan == PlanOf(table, order, live)
  {
    hide Members, Ascending, On, Sum, LoadsOf, Rooms, Fill, Surplus, Repeat, Bucketed, Remaining, RoomLeft;
    var members := Members(live);
    if members == [] {
      return [];
    }
    ghost var own, asc := SettledOwners(table), Ascending(order);
    var owned := FillBuckets(table, order, members);
    owned := SortBuckets(owned, own, order, members);
    var total := Total(owned, own, asc, members);
    var ceiling := Ceiling(total, |members|);
    var slots := Deficits(owned, own, asc, members, ceiling);
    ghost var caps := Repeat(ceiling, |members|);
    ghost var whole := Unsorted(own, asc, members, ceiling);
    plan := [];
    AllRemaining(own, asc, members, ceiling);
    for k := 0 to |members|
      invariant Remaining(own, asc, members, caps, k, slots, plan, whole)
      invariant |slots| == |members|
    {
      var owner := members[k];
      RemainingStep(own, asc, members, caps, k, slots, plan, whole);
      BucketOf(owned, own, asc, members, owner);
      FlatAt(ceiling, |members|, k);
      var surplus := Monus(|owned[owner]|, ceiling);
      if surplus == 0 {
        NothingToPeel(own, members, slots, plan);
        continue;
      }
      plan, slots := Peel(own, members, slots, owned[owner][..surplus], owner, plan);
    }
    NothingRemains(own, asc, members, caps, slots, plan, whole);
    plan := SortPlan(plan);
  }

  lemma AllRemaining(own: Owners, asc: seq<Pid>, members: seq<NodeId>, ceiling: nat)
    requires forall p :: p in asc ==> p in own
    ensures Remaining(own, asc, members, Repeat(ceiling, |members|), 0, Rooms(ceiling, LoadsOf(own, asc, members)), [],
                      Unsorted(own, asc, members, ceiling))
  {
    var caps := Repeat(ceiling, |members|);
    assert members[0..] == members && caps[0..] == caps;
    SourcesOwned(own, asc, members, caps);
  }

  lemma NothingRemains(own: Owners, asc: seq<Pid>, members: seq<NodeId>, caps: seq<nat>, slots: seq<nat>,
                       plan: Plan, whole: Plan)
    requires (forall p :: p in asc ==> p in own) && |members| == |caps|
    requires Remaining(own, asc, members, caps, |members|, slots, plan, whole)
    ensures plan == whole
  {
  }

  lemma BucketOf(owned: map<NodeId, seq<Pid>>, own: Owners, asc: seq<Pid>, members: seq<NodeId>, n: NodeId)
    requires (forall p :: p in asc ==> p in own) && Bucketed(owned, own, asc, members) && n in members
    ensures n in owned && owned[n] == On(own, asc, n)
  {
  }

  lemma {:induction false} FlatAt(c: nat, m: nat, k: nat)
    requires k < m
    ensures Repeat(c, m)[k] == c
  {
    if k > 0 {
      FlatAt(c, m - 1, k - 1);
    }
  }

  lemma NothingToPeel(own: Owners, members: seq<NodeId>, slots: seq<nat>, plan: Plan)
    requires |members| == |slots|
    ensures plan + Fill(own, members, slots, []) == plan && RoomLeft(own, members, slots, []) == slots
  {
  }
}
