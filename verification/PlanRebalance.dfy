/** `plan_rebalance`: peel partitions off the live members above the ceiling and hand each to the member with most
    room. */
module PlanRebalance {
  import opened PartitionTable
  import opened Loads
  import opened ComputeRebalance

  type Plan = seq<(Pid, NodeId)>

  /** Only settled partitions count; one in transfer is charged to nobody. */
  function SettledOwners(table: Table): (own: Owners) {
    map p | p in table :: match table[p] case Owned(n) => n as int case Transferring(_, _) => -1
  }

  // ── Sorting ──────────────────────────────────────────────────────────────

  ghost predicate Ascends(s: seq<int>) {
    forall i, j :: 0 <= i < j < |s| ==> s[i] < s[j]
  }

  function Insert(x: int, s: seq<int>): (r: seq<int>) {
    if s == [] || x < s[0] then [x] + s
    else if x == s[0] then s
    else [s[0]] + Insert(x, s[1..])
  }

  /** Sorted, duplicates dropped. */
  function SortedSet(s: seq<int>): (r: seq<int>)
    ensures forall x :: x in r <==> x in s
  {
    if s == [] then []
    else
      InsertAdds(s[0], SortedSet(s[1..]));
      Insert(s[0], SortedSet(s[1..]))
  }

  lemma {:induction false} InsertAdds(x: int, s: seq<int>)
    ensures forall y :: y in Insert(x, s) <==> y == x || y in s
  {
    if s != [] && x > s[0] {
      InsertAdds(x, s[1..]);
      assert forall y :: y in s <==> y == s[0] || y in s[1..];
    }
  }

  lemma {:induction false} InsertAscends(x: int, s: seq<int>)
    requires Ascends(s)
    ensures Ascends(Insert(x, s))
  {
    if s != [] && x > s[0] {
      InsertAscends(x, s[1..]);
      InsertAdds(x, s[1..]);
      var r := Insert(x, s[1..]);
      assert forall i :: 0 <= i < |r| ==> r[i] in r;
    }
  }

  lemma {:induction false} SortedSetAscends(s: seq<int>)
    ensures Ascends(SortedSet(s))
  {
    if s != [] {
      SortedSetAscends(s[1..]);
      InsertAscends(s[0], SortedSet(s[1..]));
    }
  }

  /** An ascending sequence is determined by its elements. */
  lemma {:induction false} AscendingUnique(s: seq<int>, t: seq<int>)
    requires Ascends(s) && Ascends(t) && forall x :: x in s <==> x in t
    ensures s == t
  {
    assert t != [] ==> t[0] in t;
    if s != [] {
      assert s[0] in s && s[0] in t && t != [] && t[0] in s;
      assert s[0] == t[0];
      forall x
        ensures x in s[1..] <==> x in t[1..]
      {
        TailOf(s, x);
        TailOf(t, x);
      }
      AscendingUnique(s[1..], t[1..]);
    }
  }

  lemma TailOf(s: seq<int>, x: int)
    requires s != [] && Ascends(s)
    ensures x in s[1..] <==> x in s && x != s[0]
  {
  }

  // ── The plan ─────────────────────────────────────────────────────────────

  /** Rounded up. */
  function Ceiling(total: nat, m: nat): (c: nat)
    requires m > 0
  {
    total / m + if total % m > 0 then 1 else 0
  }

  function Rooms(ceiling: nat, loads: seq<nat>): (slots: seq<nat>)
    ensures |slots| == |loads|
  {
    if loads == [] then [] else [Monus(ceiling, loads[0])] + Rooms(ceiling, loads[1..])
  }

  predicate Better(members: seq<NodeId>, slots: seq<nat>, i: nat, j: nat)
    requires |members| == |slots| && i < |slots| && j < |slots|
  {
    slots[i] > slots[j] || (slots[i] == slots[j] && members[i] < members[j])
  }

  predicate Eligible(members: seq<NodeId>, slots: seq<nat>, owner: int, i: nat)
    requires |members| == |slots| && i < |slots|
  {
    members[i] != owner && slots[i] > 0
  }

  /** Of the first `k` members the one with most room, lowest id on a tie; `|members|` when none has any. */
  function Pick(members: seq<NodeId>, slots: seq<nat>, owner: int, k: nat): (i: nat)
    requires |members| == |slots| && k <= |slots|
    ensures i < k || i == |members|
    ensures i < k ==> Eligible(members, slots, owner, i)
    ensures i == |members| ==> forall j :: 0 <= j < k ==> !Eligible(members, slots, owner, j)
    ensures i < k ==> forall j :: 0 <= j < k && Eligible(members, slots, owner, j) ==> !Better(members, slots, j, i)
  {
    if k == 0 then |members|
    else
      var b := Pick(members, slots, owner, k - 1);
      if Eligible(members, slots, owner, k - 1) && (b == |members| || Better(members, slots, k - 1, b)) then k - 1
      else b
  }

  /** Hand out the peeled partitions one at a time; one nobody has room for is skipped. */
  function Fill(own: Owners, members: seq<NodeId>, slots: seq<nat>, ps: seq<Pid>): (plan: Plan)
    requires |members| == |slots| && forall p :: p in ps ==> p in own
    decreases |ps|
  {
    if ps == [] then []
    else
      var i := Pick(members, slots, own[ps[0]], |slots|);
      if i == |members| then Fill(own, members, slots, ps[1..])
      else [(ps[0], members[i])] + Fill(own, members, slots[i := slots[i] - 1], ps[1..])
  }

  /** The room left at the end. */
  function RoomLeft(own: Owners, members: seq<NodeId>, slots: seq<nat>, ps: seq<Pid>): (left: seq<nat>)
    requires |members| == |slots| && forall p :: p in ps ==> p in own
    ensures |left| == |slots|
    decreases |ps|
  {
    if ps == [] then slots
    else
      var i := Pick(members, slots, own[ps[0]], |slots|);
      RoomLeft(own, members, if i == |members| then slots else slots[i := slots[i] - 1], ps[1..])
  }

  function InsertMove(a: (Pid, NodeId), plan: Plan): (r: Plan) {
    if plan == [] || a.0 <= plan[0].0 then [a] + plan else [plan[0]] + InsertMove(a, plan[1..])
  }

  function SortPlan(plan: Plan): (r: Plan) {
    if plan == [] then [] else InsertMove(plan[0], SortPlan(plan[1..]))
  }

  function Members(live: seq<NodeId>): (members: seq<NodeId>)
    ensures forall n :: n in members <==> n in live
    ensures Ascends(members)
  {
    SortedSetAscends(live);
    var s := SortedSet(live);
    assert forall i :: 0 <= i < |s| ==> s[i] in s;
    s
  }

  function Ascending(order: seq<Pid>): (asc: seq<Pid>)
    ensures forall p :: p in asc <==> p in order
    ensures Ascends(asc)
  {
    SortedSetAscends(order);
    var s := SortedSet(order);
    assert forall i :: 0 <= i < |s| ==> s[i] in s;
    s
  }

  /** The moves before the final sort. */
  function Unsorted(own: Owners, asc: seq<Pid>, members: seq<NodeId>, ceiling: nat): (plan: Plan)
    requires forall p :: p in asc ==> p in own
  {
    SourcesOwned(own, asc, members, Repeat(ceiling, |members|));
    Fill(own, members, Rooms(ceiling, LoadsOf(own, asc, members)),
         Surplus(own, asc, members, Repeat(ceiling, |members|)))
  }

  function CeilingOf(own: Owners, asc: seq<Pid>, members: seq<NodeId>): (c: nat)
    requires members != [] && forall p :: p in asc ==> p in own
  {
    Ceiling(Sum(LoadsOf(own, asc, members)), |members|)
  }

  /** The plan `plan_rebalance` returns. */
  function PlanOf(table: Table, order: seq<Pid>, live: seq<NodeId>): (plan: Plan)
    requires Enumerates(order, table.Keys)
  {
    var members, own, asc := Members(live), SettledOwners(table), Ascending(order);
    if members == [] then [] else SortPlan(Unsorted(own, asc, members, CeilingOf(own, asc, members)))
  }

  // ── No partition is left over ────────────────────────────────────────────

  /** Enough room in all, and none on a member that is giving partitions up. */
  ghost predicate Supplied(own: Owners, members: seq<NodeId>, slots: seq<nat>, ps: seq<Pid>)
    requires |members| == |slots| && forall p :: p in ps ==> p in own
  {
    && Sum(slots) >= |ps|
    && forall p, i :: p in ps && 0 <= i < |slots| && members[i] == own[p] ==> slots[i] == 0
  }

  lemma {:induction false} SumUpdate(slots: seq<nat>, i: nat, v: nat)
    requires i < |slots|
    ensures Sum(slots[i := v]) == Sum(slots) - slots[i] + v
  {
    if i > 0 {
      SumUpdate(slots[1..], i - 1, v);
      assert slots[i := v][1..] == slots[1..][i - 1 := v];
    }
  }

  lemma {:induction false} SumPositive(slots: seq<nat>)
    requires Sum(slots) > 0
    ensures exists i :: 0 <= i < |slots| && slots[i] > 0
  {
    if slots[0] == 0 {
      SumPositive(slots[1..]);
      var i :| 0 <= i < |slots| - 1 && slots[1..][i] > 0;
      assert slots[i + 1] > 0;
    }
  }

  lemma SupplyKept(own: Owners, members: seq<NodeId>, slots: seq<nat>, ps: seq<Pid>, i: nat)
    requires |members| == |slots| && (forall p :: p in ps ==> p in own) && ps != []
    requires Supplied(own, members, slots, ps) && i < |slots| && slots[i] > 0
    ensures Supplied(own, members, slots[i := slots[i] - 1], ps[1..])
  {
    SumUpdate(slots, i, slots[i] - 1);
    assert forall p :: p in ps[1..] ==> p in ps;
  }

  /** With room in supply the pick exists and is the roomiest of all members. */
  lemma PickRoomiest(members: seq<NodeId>, slots: seq<nat>, owner: int)
    requires |members| == |slots| && Sum(slots) > 0
    requires forall i :: 0 <= i < |slots| && members[i] == owner ==> slots[i] == 0
    ensures var i := Pick(members, slots, owner, |slots|);
            && i < |slots| && slots[i] > 0 && members[i] != owner
            && forall j :: 0 <= j < |slots| ==> slots[j] <= slots[i]
  {
    hide Pick, Sum;
    var i := Pick(members, slots, owner, |slots|);
    SumPositive(slots);
    var k :| 0 <= k < |slots| && slots[k] > 0;
    assert Eligible(members, slots, owner, k);
    forall j | 0 <= j < |slots|
      ensures slots[j] <= slots[i]
    {
      assert slots[j] > 0 ==> Eligible(members, slots, owner, j) && !Better(members, slots, j, i);
    }
  }

  lemma PickSupplied(own: Owners, members: seq<NodeId>, slots: seq<nat>, ps: seq<Pid>)
    requires |members| == |slots| && (forall p :: p in ps ==> p in own) && ps != []
    requires Supplied(own, members, slots, ps)
    ensures var i := Pick(members, slots, own[ps[0]], |slots|);
            && i < |slots| && slots[i] > 0 && members[i] != own[ps[0]]
            && (forall j :: 0 <= j < |slots| ==> slots[j] <= slots[i])
            && Supplied(own, members, slots[i := slots[i] - 1], ps[1..])
  {
    hide Pick, Sum;
    assert ps[0] in ps;
    PickRoomiest(members, slots, own[ps[0]]);
    SupplyKept(own, members, slots, ps, Pick(members, slots, own[ps[0]], |slots|));
  }

  function Targets(plan: Plan): (nodes: seq<NodeId>)
    ensures |nodes| == |plan|
  {
    if plan == [] then [] else [plan[0].1] + Targets(plan[1..])
  }

  /** Every partition peeled off is handed on, and each hand-over costs its member one slot. */
  lemma {:induction false} FillPlacesAll(own: Owners, members: seq<NodeId>, slots: seq<nat>, ps: seq<Pid>)
    requires |members| == |slots| && (forall p :: p in ps ==> p in own) && Distinct(members)
    requires Supplied(own, members, slots, ps)
    ensures var plan, left := Fill(own, members, slots, ps), RoomLeft(own, members, slots, ps);
            && |plan| == |ps|
            && AsAssigns(plan) == Assigns(ps, Targets(plan))
            && (forall k :: 0 <= k < |plan| ==> plan[k].0 == ps[k] && plan[k].1 in members && plan[k].1 != own[ps[k]])
            && (forall i :: 0 <= i < |slots| ==> Gaining(Targets(plan), members[i]) + left[i] == slots[i])
    decreases |ps|
  {
    hide Pick, Supplied;
    if ps != [] {
      var i := Pick(members, slots, own[ps[0]], |slots|);
      PickSupplied(own, members, slots, ps);
      var slots' := slots[i := slots[i] - 1];
      FillPlacesAll(own, members, slots', ps[1..]);
      var plan := Fill(own, members, slots, ps);
      assert plan[1..] == Fill(own, members, slots', ps[1..]);
    }
  }

  // ── The water level ──────────────────────────────────────────────────────

  /** The room in excess of `d`, in all. */
  function Deep(slots: seq<nat>, d: nat): (t: nat) {
    if slots == [] then 0 else Monus(slots[0], d) + Deep(slots[1..], d)
  }

  lemma {:induction false} DeepUpdate(slots: seq<nat>, d: nat, i: nat, v: nat)
    requires i < |slots|
    ensures Deep(slots[i := v], d) == Deep(slots, d) - Monus(slots[i], d) + Monus(v, d)
  {
    if i > 0 {
      DeepUpdate(slots[1..], d, i - 1, v);
      assert slots[i := v][1..] == slots[1..][i - 1 := v];
    }
  }

  lemma {:induction false} Shallow(slots: seq<nat>, d: nat)
    ensures Deep(slots, d) == 0 <==> forall i :: 0 <= i < |slots| ==> slots[i] <= d
  {
    if slots != [] {
      Shallow(slots[1..], d);
      assert (forall i :: 0 <= i < |slots| ==> slots[i] <= d)
        <==> slots[0] <= d && (forall i :: 0 <= i < |slots| - 1 ==> slots[1..][i] <= d) by {
        assert forall i :: 0 < i < |slots| ==> slots[i] == slots[1..][i - 1];
      }
    }
  }

  /** Taking from the roomiest lowers the room in excess of every depth by one, until there is none. */
  lemma {:induction false} FillLowersEveryDepth(own: Owners, members: seq<NodeId>, slots: seq<nat>, ps: seq<Pid>,
                                                d: nat)
    requires |members| == |slots| && forall p :: p in ps ==> p in own
    requires Supplied(own, members, slots, ps)
    ensures Deep(RoomLeft(own, members, slots, ps), d) == Monus(Deep(slots, d), |ps|)
    decreases |ps|
  {
    hide Pick, Supplied, Deep;
    if ps != [] {
      var i := Pick(members, slots, own[ps[0]], |slots|);
      PickSupplied(own, members, slots, ps);
      var slots' := slots[i := slots[i] - 1];
      DeepUpdate(slots, d, i, slots[i] - 1);
      Shallow(slots, d);
      FillLowersEveryDepth(own, members, slots', ps[1..], d);
    }
  }

  /** Whoever receives ends at most one partition above any other member. */
  lemma {:induction false} FillReceiversLevel(own: Owners, members: seq<NodeId>, slots: seq<nat>, ps: seq<Pid>,
                                              r: nat, j: nat)
    requires |members| == |slots| && (forall p :: p in ps ==> p in own) && r < |slots| && j < |slots|
    requires Supplied(own, members, slots, ps)
    ensures var left := RoomLeft(own, members, slots, ps);
            left[r] < slots[r] || slots[j] <= slots[r] + 1 ==> left[j] <= left[r] + 1
    decreases |ps|
  {
    hide Pick, Supplied;
    if ps != [] {
      var i := Pick(members, slots, own[ps[0]], |slots|);
      PickSupplied(own, members, slots, ps);
      FillReceiversLevel(own, members, slots[i := slots[i] - 1], ps[1..], r, j);
    }
  }
}
