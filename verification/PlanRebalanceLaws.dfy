/** What `plan_rebalance` achieves, for every table and every list of live members. */
module PlanRebalanceLaws {
  import opened PartitionTable
  import opened Loads
  import opened ComputeRebalance
  import opened PlanRebalance

  ghost function OwnedBy(table: Table, n: NodeId): (ps: set<Pid>) {
    set p | p in table && table[p] == Owned(n)
  }

  /** How many partitions `n` owns outright. */
  ghost function Held(table: Table, n: NodeId): (k: nat) {
    |OwnedBy(table, n)|
  }

  ghost function Holdings(table: Table, members: seq<NodeId>): (hs: seq<nat>)
    ensures |hs| == |members|
    ensures forall i :: 0 <= i < |hs| ==> hs[i] == Held(table, members[i])
  {
    if members == [] then [] else [Held(table, members[0])] + Holdings(table, members[1..])
  }

  /** How far the loads fall short of level `l`, in all. */
  function Short(loads: seq<nat>, l: nat): (t: nat) {
    if loads == [] then 0 else Monus(l, loads[0]) + Short(loads[1..], l)
  }

  // ── Owner maps and tables ────────────────────────────────────────────────

  lemma AscendingEnumerates(order: seq<Pid>, keys: set<Pid>)
    requires Enumerates(order, keys)
    ensures Enumerates(Ascending(order), keys) && Distinct(Ascending(order))
  {
  }

  lemma LoadIsHeld(table: Table, order: seq<Pid>, n: NodeId)
    requires Enumerates(order, table.Keys)
    ensures Load(SettledOwners(table), order, n) == Held(table, n)
  {
    var own := SettledOwners(table);
    OnOwned(own, order, n);
    OnDistinct(own, order, n);
    EnumerationSize(On(own, order, n), OwnedBy(table, n));
  }

  lemma {:induction false} LoadsAreHoldings(table: Table, order: seq<Pid>, members: seq<NodeId>)
    requires Enumerates(order, table.Keys)
    ensures LoadsOf(SettledOwners(table), order, members) == Holdings(table, members)
  {
    if members != [] {
      LoadIsHeld(table, order, members[0]);
      LoadsAreHoldings(table, order, members[1..]);
    }
  }

  lemma {:induction false} AssignAllSettles(table: Table, plan: Plan)
    ensures SettledOwners(AssignAll(table, plan)) == Apply(SettledOwners(table), AsAssigns(plan))
    ensures (forall k :: 0 <= k < |plan| ==> plan[k].0 in table) ==> AssignAll(table, plan).Keys == table.Keys
    decreases |plan|
  {
    if plan != [] {
      var t := table[plan[0].0 := Owned(plan[0].1)];
      assert SettledOwners(t) == SettledOwners(table)[plan[0].0 := plan[0].1];
      AssignAllSettles(t, plan[1..]);
      assert AsAssigns(plan)[1..] == AsAssigns(plan[1..]);
      assert plan[0].0 in table ==> t.Keys == table.Keys;
    }
  }

  // ── The final sort changes nothing but the order ─────────────────────────

  ghost predicate Avoids(plan: Plan, p: Pid) {
    forall k :: 0 <= k < |plan| ==> plan[k].0 != p
  }

  ghost predicate MovesOnce(plan: Plan) {
    forall i, j :: 0 <= i < j < |plan| ==> plan[i].0 != plan[j].0
  }

  ghost predicate ByPartition(plan: Plan) {
    forall i, j :: 0 <= i < j < |plan| ==> plan[i].0 < plan[j].0
  }

  lemma {:induction false} AssignSwaps(table: Table, a: (Pid, NodeId), plan: Plan)
    requires Avoids(plan, a.0)
    ensures AssignAll(table[a.0 := Owned(a.1)], plan) == AssignAll(table, InsertMove(a, plan))
    decreases |plan|
  {
    if plan != [] && a.0 > plan[0].0 {
      var t := table[plan[0].0 := Owned(plan[0].1)];
      assert table[a.0 := Owned(a.1)][plan[0].0 := Owned(plan[0].1)] == t[a.0 := Owned(a.1)];
      assert Avoids(plan[1..], a.0);
      AssignSwaps(t, a, plan[1..]);
      assert InsertMove(a, plan)[1..] == InsertMove(a, plan[1..]);
    } else {
      assert InsertMove(a, plan)[1..] == plan;
    }
  }

  lemma {:induction false} InsertMoveSorted(a: (Pid, NodeId), plan: Plan)
    requires ByPartition(plan) && Avoids(plan, a.0)
    ensures ByPartition(InsertMove(a, plan)) && |InsertMove(a, plan)| == |plan| + 1
    ensures forall x :: x in InsertMove(a, plan) <==> x == a || x in plan
  {
    if plan != [] && a.0 > plan[0].0 {
      assert Avoids(plan[1..], a.0);
      InsertMoveSorted(a, plan[1..]);
      assert forall x :: x in plan <==> x == plan[0] || x in plan[1..];
      var r := InsertMove(a, plan[1..]);
      assert forall i :: 0 <= i < |r| ==> r[i] in r;
    }
  }

  lemma {:induction false} SortPlanSorts(table: Table, plan: Plan)
    requires MovesOnce(plan)
    ensures ByPartition(SortPlan(plan)) && |SortPlan(plan)| == |plan|
    ensures forall x :: x in SortPlan(plan) <==> x in plan
    ensures AssignAll(table, SortPlan(plan)) == AssignAll(table, plan)
    decreases |plan|
  {
    if plan != [] {
      var a, rest := plan[0], plan[1..];
      SortPlanSorts(table[a.0 := Owned(a.1)], rest);
      SortPlanSorts(table, rest);
      var s := SortPlan(rest);
      assert forall x :: x in plan <==> x == a || x in rest;
      assert forall k :: 0 <= k < |s| ==> s[k] in s;
      assert Avoids(s, a.0);
      AssignSwaps(table, a, s);
      InsertMoveSorted(a, s);
    }
  }

  // ── From room to loads ───────────────────────────────────────────────────

  lemma {:induction false} SumFlat(c: nat, m: nat)
    ensures Sum(Repeat(c, m)) == m * c
    ensures forall i :: 0 <= i < m ==> Repeat(c, m)[i] == c
  {
    if m > 0 {
      SumFlat(c, m - 1);
      assert Repeat(c, m)[1..] == Repeat(c, m - 1);
      Distribute(m - 1, c);
    }
  }

  lemma {:induction false} RoomsAt(c: nat, loads: seq<nat>)
    ensures forall i :: 0 <= i < |loads| ==> Rooms(c, loads)[i] == Monus(c, loads[i])
    ensures Sum(Rooms(c, loads)) == Excess(Repeat(c, |loads|), loads)
  {
    if loads != [] {
      RoomsAt(c, loads[1..]);
      assert Rooms(c, loads)[1..] == Rooms(c, loads[1..]);
      assert Repeat(c, |loads|)[1..] == Repeat(c, |loads| - 1);
    }
  }

  lemma CeilingCovers(total: nat, m: nat)
    requires m > 0
    ensures total <= m * Ceiling(total, m)
    ensures total % m == 0 ==> total == m * Ceiling(total, m)
  {
  }

  lemma SurplusNeedsRoom(own: Owners, asc: seq<Pid>, members: seq<NodeId>, c: nat)
    requires (forall p :: p in asc ==> p in own) && Distinct(members)
    requires Sum(LoadsOf(own, asc, members)) <= |members| * c
    ensures var ps := Surplus(own, asc, members, Repeat(c, |members|));
            && (forall p :: p in ps ==> p in own)
            && |ps| == Excess(LoadsOf(own, asc, members), Repeat(c, |members|))
            && Supplied(own, members, Rooms(c, LoadsOf(own, asc, members)), ps)
            && Sum(Rooms(c, LoadsOf(own, asc, members))) - |ps| == |members| * c - Sum(LoadsOf(own, asc, members))
  {
    hide Surplus, Load, LoadsOf, Rooms, Sum, Excess, Repeat;
    var loads, caps := LoadsOf(own, asc, members), Repeat(c, |members|);
    var ps, slots := Surplus(own, asc, members, caps), Rooms(c, loads);
    SourcesOwned(own, asc, members, caps);
    SurplusCount(own, asc, members, caps);
    ExcessBalance(loads, caps);
    SumFlat(c, |members|);
    RoomsAt(c, loads);
    forall p, i | p in ps && 0 <= i < |slots| && members[i] == own[p]
      ensures slots[i] == 0
    {
      SurplusIsOver(own, asc, members, caps, p);
      LoadsAt(own, asc, members, i);
    }
  }

  /** After the moves every member is below the ceiling by exactly the room it has left. */
  lemma RoomLeftIsRoom(own: Owners, asc: seq<Pid>, members: seq<NodeId>, c: nat, i: nat)
    requires Enumerates(asc, own.Keys) && Distinct(members) && i < |members|
    requires Sum(LoadsOf(own, asc, members)) <= |members| * c
    ensures var ps := Surplus(own, asc, members, Repeat(c, |members|));
            && (forall p :: p in ps ==> p in own)
            && var own' := Apply(own, AsAssigns(Unsorted(own, asc, members, c)));
               && own'.Keys == own.Keys
               && Load(own', asc, members[i]) + RoomLeft(own, members, Rooms(c, LoadsOf(own, asc, members)), ps)[i] == c
  {
    hide Surplus, Load, LoadsOf, Rooms, Sum, Excess, Repeat, Supplied, Fill, RoomLeft, Gaining, Losing, Apply,
         AsAssigns;
    var loads, caps := LoadsOf(own, asc, members), Repeat(c, |members|);
    var ps, slots := Surplus(own, asc, members, caps), Rooms(c, loads);
    SurplusNeedsRoom(own, asc, members, c);
    var plan := Fill(own, members, slots, ps);
    FillPlacesAll(own, members, slots, ps);
    SurplusDistinct(own, asc, members, caps);
    LoadAfterAssigns(own, asc, ps, Targets(plan), members[i]);
    ListedExchange(own, asc, members, caps, members[i]);
    SumFlat(c, |members|);
    RoomsAt(c, loads);
    LoadsAt(own, asc, members, i);
  }

  lemma {:induction false} ShortIsDeep(c: nat, loads: seq<nat>, slots: seq<nat>, l: nat)
    requires |loads| == |slots| && l <= c && forall i :: 0 <= i < |slots| ==> slots[i] == Monus(c, loads[i])
    ensures Short(loads, l) == Deep(slots, c - l)
  {
    if loads != [] {
      assert forall i :: 0 <= i < |slots| - 1 ==> slots[1..][i] == Monus(c, loads[1..][i]);
      ShortIsDeep(c, loads[1..], slots[1..], l);
    }
  }

  lemma {:induction false} ShortOfNone(loads: seq<nat>, l: nat)
    ensures Short(loads, l) == 0 <==> forall i :: 0 <= i < |loads| ==> loads[i] >= l
  {
    if loads != [] {
      ShortOfNone(loads[1..], l);
      assert (forall i :: 0 <= i < |loads| ==> loads[i] >= l)
        <==> loads[0] >= l && (forall i :: 0 <= i < |loads| - 1 ==> loads[1..][i] >= l) by {
        assert forall i :: 0 < i < |loads| ==> loads[i] == loads[1..][i - 1];
      }
    }
  }

  // ── The outcome for tables ───────────────────────────────────────────────

  /** The ceiling, from the table alone. */
  ghost function CeilingFor(table: Table, live: seq<NodeId>): (c: nat) {
    var members := Members(live);
    if members == [] then 0 else Ceiling(Sum(Holdings(table, members)), |members|)
  }

  ghost function FloorFor(table: Table, live: seq<NodeId>): (f: nat) {
    var members := Members(live);
    if members == [] then 0 else Sum(Holdings(table, members)) / |members|
  }

  /** How many partitions sit above the ceiling. */
  ghost function AboveCeiling(table: Table, live: seq<NodeId>): (k: nat) {
    Excess(Holdings(table, Members(live)), Repeat(CeilingFor(table, live), |Members(live)|))
  }

  /** How many are missing below level `l`. */
  ghost function MissingBelow(table: Table, live: seq<NodeId>, l: nat): (k: nat) {
    Short(Holdings(table, Members(live)), l)
  }

  /** The table once every move of the plan has completed. */
  ghost function After(table: Table, order: seq<Pid>, live: seq<NodeId>): (t: Table)
    requires Enumerates(order, table.Keys)
  {
    AssignAll(table, PlanOf(table, order, live))
  }

  ghost function Peeled(table: Table, order: seq<Pid>, live: seq<NodeId>): (ps: seq<Pid>)
    requires Enumerates(order, table.Keys)
  {
    var members := Members(live);
    Surplus(SettledOwners(table), Ascending(order), members, Repeat(CeilingFor(table, live), |members|))
  }

  ghost function Room(table: Table, live: seq<NodeId>): (slots: seq<nat>) {
    Rooms(CeilingFor(table, live), Holdings(table, Members(live)))
  }

  lemma MembersDistinct(live: seq<NodeId>)
    ensures Distinct(Members(live)) && (live != [] ==> Members(live) != [])
  {
    assert live != [] ==> live[0] in live && live[0] in Members(live);
  }

  /** The plan is the sorted hand-out of the peeled partitions over the room below the ceiling. */
  lemma PlanIsFill(table: Table, order: seq<Pid>, live: seq<NodeId>)
    requires Enumerates(order, table.Keys) && live != []
    ensures var own, members, ps := SettledOwners(table), Members(live), Peeled(table, order, live);
            && (forall p :: p in ps ==> p in own) && Distinct(ps)
            && |ps| == AboveCeiling(table, live)
            && Supplied(own, members, Room(table, live), ps)
            && PlanOf(table, order, live) == SortPlan(Fill(own, members, Room(table, live), ps))
            && Unsorted(own, Ascending(order), members, CeilingFor(table, live))
               == Fill(own, members, Room(table, live), ps)
  {
    hide Surplus, LoadsOf, Rooms, Sum, Excess, Repeat, Supplied, Fill, SortPlan, Ceiling, Ascending, Members, Holdings;
    var own, members, asc := SettledOwners(table), Members(live), Ascending(order);
    var c := CeilingFor(table, live);
    MembersDistinct(live);
    AscendingEnumerates(order, table.Keys);
    LoadsAreHoldings(table, asc, members);
    CeilingCovers(Sum(Holdings(table, members)), |members|);
    SurplusNeedsRoom(own, asc, members, c);
    SurplusDistinct(own, asc, members, Repeat(c, |members|));
  }

  ghost function Left(table: Table, order: seq<Pid>, live: seq<NodeId>): (left: seq<nat>)
    requires Enumerates(order, table.Keys) && live != []
    ensures |left| == |Members(live)|
  {
    PlanIsFill(table, order, live);
    RoomLeft(SettledOwners(table), Members(live), Room(table, live), Peeled(table, order, live))
  }

  lemma FillMovesOnce(own: Owners, members: seq<NodeId>, slots: seq<nat>, ps: seq<Pid>)
    requires |members| == |slots| && (forall p :: p in ps ==> p in own) && Distinct(members) && Distinct(ps)
    requires Supplied(own, members, slots, ps)
    ensures MovesOnce(Fill(own, members, slots, ps))
  {
    FillPlacesAll(own, members, slots, ps);
  }

  /** Each member ends below the ceiling by exactly what it has left; the plan is as long as the excess it removes. */
  lemma PlanOutcome(table: Table, order: seq<Pid>, live: seq<NodeId>)
    requires Enumerates(order, table.Keys) && live != []
    ensures var t, c, members := After(table, order, live), CeilingFor(table, live), Members(live);
            && t.Keys == table.Keys
            && (forall i :: 0 <= i < |members| ==> Held(t, members[i]) + Left(table, order, live)[i] == c)
            && |PlanOf(table, order, live)| == |Peeled(table, order, live)| == AboveCeiling(table, live)
  {
    hide Surplus, LoadsOf, Load, Rooms, Sum, Excess, Repeat, Supplied, Fill, SortPlan, Ceiling, Ascending, Members,
         Held, PlanOf, RoomLeft;
    var own, members, asc := SettledOwners(table), Members(live), Ascending(order);
    var c, slots, ps := CeilingFor(table, live), Room(table, live), Peeled(table, order, live);
    PlanIsFill(table, order, live);
    MembersDistinct(live);
    var fill := Fill(own, members, slots, ps);
    FillPlacesAll(own, members, slots, ps);
    FillMovesOnce(own, members, slots, ps);
    SortPlanSorts(table, fill);
    AssignAllSettles(table, fill);
    AscendingEnumerates(order, table.Keys);
    LoadsAreHoldings(table, asc, members);
    CeilingCovers(Sum(Holdings(table, members)), |members|);
    var t := After(table, order, live);
    forall i | 0 <= i < |members|
      ensures Held(t, members[i]) + Left(table, order, live)[i] == c
    {
      RoomLeftIsRoom(own, asc, members, c, i);
      LoadIsHeld(t, asc, members[i]);
    }
  }

  // ── The theorems ─────────────────────────────────────────────────────────

  /** No live member ends above the ceiling, and the hand-out never runs dry: one move per partition above it. */
  lemma PlanReachesCeiling(table: Table, order: seq<Pid>, live: seq<NodeId>, n: NodeId)
    requires Enumerates(order, table.Keys) && n in live
    ensures Held(After(table, order, live), n) <= CeilingFor(table, live)
    ensures |PlanOf(table, order, live)| == AboveCeiling(table, live)
  {
    hide After, PlanOf, Held, Excess, CeilingFor, Repeat, Members;
    PlanOutcome(table, order, live);
    assert n in Members(live);
    var i :| 0 <= i < |Members(live)| && Members(live)[i] == n;
  }

  lemma LeftAtEveryDepth(table: Table, order: seq<Pid>, live: seq<NodeId>, d: nat)
    requires Enumerates(order, table.Keys) && live != []
    ensures Deep(Left(table, order, live), d) == Monus(Deep(Room(table, live), d), |PlanOf(table, order, live)|)
  {
    hide *;
    hide Left;
    PlanIsFill(table, order, live);
    PlanOutcome(table, order, live);
    LeftIsRoomLeft(table, order, live);
    FillLowersEveryDepth(SettledOwners(table), Members(live), Room(table, live), Peeled(table, order, live), d);
  }

  lemma LeftIsRoomLeft(table: Table, order: seq<Pid>, live: seq<NodeId>)
    requires Enumerates(order, table.Keys) && live != []
    ensures var own, members, ps := SettledOwners(table), Members(live), Peeled(table, order, live);
            && |members| == |Room(table, live)| && (forall p :: p in ps ==> p in own)
            && Left(table, order, live) == RoomLeft(own, members, Room(table, live), ps)
  {
    PlanIsFill(table, order, live);
  }

  /** The plan fills from the bottom: what is missing below any level shrinks by one per move, until nothing is. */
  lemma PlanRaisesEveryLevel(table: Table, order: seq<Pid>, live: seq<NodeId>, l: nat)
    requires Enumerates(order, table.Keys) && l <= CeilingFor(table, live)
    ensures MissingBelow(After(table, order, live), live, l)
         == Monus(MissingBelow(table, live, l), |PlanOf(table, order, live)|)
  {
    hide After, PlanOf, Held, Excess, CeilingFor, Repeat, Members, Supplied, RoomLeft, Deep, Rooms, Peeled, Left,
         Short, AboveCeiling;
    var members, c := Members(live), CeilingFor(table, live);
    if live == [] {
      NoMembers(live);
      ShortOfNone(Holdings(table, members), l);
      ShortOfNone(Holdings(After(table, order, live), members), l);
    } else {
      var hs, hs' := Holdings(table, members), Holdings(After(table, order, live), members);
      PlanOutcome(table, order, live);
      LeftAtEveryDepth(table, order, live, c - l);
      RoomsAt(c, hs);
      ShortIsDeep(c, hs, Room(table, live), l);
      ShortIsDeep(c, hs', Left(table, order, live), l);
    }
  }

  lemma NoMembers(live: seq<NodeId>)
    requires live == []
    ensures Members(live) == []
  {
  }

  /** Every member ends at the floor or the ceiling exactly when what is above the ceiling covers what is missing
      below the floor. */
  lemma FloorOrCeilingIff(table: Table, order: seq<Pid>, live: seq<NodeId>)
    requires Enumerates(order, table.Keys)
    ensures (forall n :: n in live ==>
               FloorFor(table, live) <= Held(After(table, order, live), n) <= CeilingFor(table, live))
       <==> MissingBelow(table, live, FloorFor(table, live)) <= AboveCeiling(table, live)
  {
    hide After, PlanOf, Held, AboveCeiling, Members, Short;
    var members, floor, t := Members(live), FloorFor(table, live), After(table, order, live);
    PlanRaisesEveryLevel(table, order, live, floor);
    ShortOfNone(Holdings(t, members), floor);
    forall n | n in live
      ensures Held(t, n) <= CeilingFor(table, live) && |PlanOf(table, order, live)| == AboveCeiling(table, live)
    {
      PlanReachesCeiling(table, order, live, n);
    }
    if live == [] {
      NoMembers(live);
      ShortOfNone(Holdings(table, members), floor);
    } else {
      assert live[0] in live;
      EveryMember(t, live, floor);
    }
  }

  lemma EveryMember(t: Table, live: seq<NodeId>, floor: nat)
    ensures (forall n :: n in live ==> floor <= Held(t, n))
       <==> forall i :: 0 <= i < |Members(live)| ==> Holdings(t, Members(live))[i] >= floor
  {
    hide Held, Members;
    var members := Members(live);
    if forall i :: 0 <= i < |members| ==> Holdings(t, members)[i] >= floor {
      forall n | n in live
        ensures floor <= Held(t, n)
      {
        assert n in members;
        var i :| 0 <= i < |members| && members[i] == n;
        assert Holdings(t, members)[i] == Held(t, n);
      }
    } else {
      var i :| 0 <= i < |members| && Holdings(t, members)[i] < floor;
      assert members[i] in members && members[i] in live;
      assert Holdings(t, members)[i] == Held(t, members[i]);
    }
  }

  /** When the partitions divide evenly, every live member ends with the same number. */
  lemma EvenSplit(table: Table, order: seq<Pid>, live: seq<NodeId>, n: NodeId)
    requires Enumerates(order, table.Keys) && n in live
    requires Members(live) != [] && Sum(Holdings(table, Members(live))) % |Members(live)| == 0
    ensures Held(After(table, order, live), n) == CeilingFor(table, live)
  {
    hide After, PlanOf, Held, Excess, Repeat, Members, Short, Sum, Deep, Rooms, Ceiling;
    var members, c := Members(live), CeilingFor(table, live);
    var hs, hs' := Holdings(table, members), Holdings(After(table, order, live), members);
    PlanRaisesEveryLevel(table, order, live, c);
    PlanOutcome(table, order, live);
    PlanReachesCeiling(table, order, live, n);
    ShortIsShortfall(hs, c);
    ExcessBalance(hs, Repeat(c, |members|));
    SumFlat(c, |members|);
    CeilingCovers(Sum(hs), |members|);
    ShortOfNone(hs', c);
    assert n in members;
    var i :| 0 <= i < |members| && members[i] == n;
    assert hs'[i] >= c;
  }

  lemma {:induction false} ShortIsShortfall(loads: seq<nat>, l: nat)
    ensures Short(loads, l) == Excess(Repeat(l, |loads|), loads)
  {
    if loads != [] {
      ShortIsShortfall(loads[1..], l);
      assert Repeat(l, |loads|)[1..] == Repeat(l, |loads| - 1);
    }
  }

  /** A move of the plan takes a peeled partition to a member whose room it uses up. */
  lemma MoveOfPlan(table: Table, order: seq<Pid>, live: seq<NodeId>, k: nat)
    requires Enumerates(order, table.Keys) && live != [] && k < |PlanOf(table, order, live)|
    ensures ByPartition(PlanOf(table, order, live)) && |Room(table, live)| == |Members(live)|
    ensures PlanOf(table, order, live)[k].0 in Peeled(table, order, live)
    ensures exists r :: 0 <= r < |Members(live)| && Members(live)[r] == PlanOf(table, order, live)[k].1
                     && Left(table, order, live)[r] < Room(table, live)[r]
  {
    hide *;
    hide Left;
    var members, own := Members(live), SettledOwners(table);
    var ps, slots := Peeled(table, order, live), Room(table, live);
    MembersDistinct(live);
    PlanIsFill(table, order, live);
    LeftIsRoomLeft(table, order, live);
    var fill, move := Fill(own, members, slots, ps), PlanOf(table, order, live)[k];
    FillPlacesAll(own, members, slots, ps);
    FillMovesOnce(own, members, slots, ps);
    SortPlanSorts(table, fill);
    assert move in fill;
    var f :| 0 <= f < |fill| && fill[f] == move;
    var r :| 0 <= r < |members| && members[r] == move.1;
    TargetGains(fill, f);
  }

  /** Whoever receives a partition ends at most one above any other live member. */
  lemma ReceiversStayLevel(table: Table, order: seq<Pid>, live: seq<NodeId>, k: nat, n: NodeId)
    requires Enumerates(order, table.Keys) && k < |PlanOf(table, order, live)| && n in live
    ensures var t := After(table, order, live);
            Held(t, PlanOf(table, order, live)[k].1) <= Held(t, n) + 1
  {
    hide *;
    hide Left;
    var members := Members(live);
    MoveOfPlan(table, order, live, k);
    PlanIsFill(table, order, live);
    LeftIsRoomLeft(table, order, live);
    PlanOutcome(table, order, live);
    var r :| 0 <= r < |members| && members[r] == PlanOf(table, order, live)[k].1
          && Left(table, order, live)[r] < Room(table, live)[r];
    assert n in members;
    var j :| 0 <= j < |members| && members[j] == n;
    FillReceiversLevel(SettledOwners(table), members, Room(table, live), Peeled(table, order, live), r, j);
  }

  lemma {:induction false} TargetGains(plan: Plan, f: nat)
    requires f < |plan|
    ensures Gaining(Targets(plan), plan[f].1) > 0
  {
    if f > 0 {
      TargetGains(plan[1..], f - 1);
      assert Targets(plan)[1..] == Targets(plan[1..]);
    }
  }

  /** Each partition moves at most once, in ascending order, off a live member above the ceiling onto a live one
      below it. */
  lemma PlanMovesDown(table: Table, order: seq<Pid>, live: seq<NodeId>, k: nat)
    requires Enumerates(order, table.Keys) && live != [] && k < |PlanOf(table, order, live)|
    ensures ByPartition(PlanOf(table, order, live))
    ensures var (p, to) := PlanOf(table, order, live)[k];
            && p in table && table[p].Owned? && table[p].node in live && to in live
            && Held(table, to) < CeilingFor(table, live) < Held(table, table[p].node)
  {
    hide Excess, CeilingFor, Repeat, Members, RoomLeft, PlanOf, Rooms, Surplus, Held, Ascending, Load, Left,
         ByPartition;
    var members, own, asc, c := Members(live), SettledOwners(table), Ascending(order), CeilingFor(table, live);
    var move := PlanOf(table, order, live)[k];
    MoveOfPlan(table, order, live, k);
    var r :| 0 <= r < |members| && members[r] == move.1 && Left(table, order, live)[r] < Room(table, live)[r];
    RoomsAt(c, Holdings(table, members));
    AscendingEnumerates(order, table.Keys);
    SurplusIsOver(own, asc, members, Repeat(c, |members|), move.0);
    var s :| 0 <= s < |members| && members[s] == own[move.0] && Load(own, asc, members[s]) > Repeat(c, |members|)[s];
    SumFlat(c, |members|);
    LoadIsHeld(table, asc, members[s]);
    assert members[s] in members && members[r] in members;
  }

  /** No sequence of reassignments that brings every live member to the ceiling is shorter. */
  lemma PlanIsShortest(table: Table, order: seq<Pid>, live: seq<NodeId>, other: Plan)
    requires Enumerates(order, table.Keys) && forall k :: 0 <= k < |other| ==> other[k].0 in table
    requires forall n :: n in live ==> Held(AssignAll(table, other), n) <= CeilingFor(table, live)
    ensures |PlanOf(table, order, live)| <= |other|
  {
    if live != [] {
      hide Excess, CeilingFor, Repeat, Members, Held, PlanOf, LoadsOf, AssignAll, Holdings;
      var members, own, c, t := Members(live), SettledOwners(table), CeilingFor(table, live), AssignAll(table, other);
      PlanOutcome(table, order, live);
      MembersDistinct(live);
      AssignAllSettles(table, other);
      AssignAllOwners(table, other);
      PlanLowerBound(own, order, members, Repeat(c, |members|), AsAssigns(other));
      LoadsAreHoldings(table, order, members);
      LoadsAreHoldings(t, order, members);
      WithinCeiling(t, live, c);
    }
  }

  lemma WithinCeiling(t: Table, live: seq<NodeId>, c: nat)
    requires forall n :: n in live ==> Held(t, n) <= c
    ensures Excess(Holdings(t, Members(live)), Repeat(c, |Members(live)|)) == 0
  {
    hide Held, Repeat, Members, Excess;
    var members := Members(live);
    SumFlat(c, |members|);
    forall i | 0 <= i < |members|
      ensures Holdings(t, members)[i] <= Repeat(c, |members|)[i]
    {
      assert members[i] in members && members[i] in live;
    }
    WithinCaps(Holdings(t, members), Repeat(c, |members|));
  }

  lemma {:induction false} WithinCaps(loads: seq<nat>, caps: seq<nat>)
    requires |loads| == |caps| && forall i :: 0 <= i < |loads| ==> loads[i] <= caps[i]
    ensures Excess(loads, caps) == 0
  {
    if loads != [] {
      WithinCaps(loads[1..], caps[1..]);
    }
  }

  // ── No plan of the same length is fairer ─────────────────────────────────

  lemma {:induction false} ShortAfterMove(own: Owners, order: seq<Pid>, nodes: seq<NodeId>, p: Pid, b: int, l: nat)
    requires (forall q :: q in order ==> q in own) && p in order && Distinct(order) && Distinct(nodes)
    ensures Short(LoadsOf(own[p := b], order, nodes), l) + (if b in nodes then 1 else 0)
         >= Short(LoadsOf(own, order, nodes), l)
  {
    if nodes != [] {
      var rest, own' := nodes[1..], own[p := b];
      assert nodes == [nodes[0]] + rest;
      LoadAfterMove(own, order, p, b, nodes[0]);
      ShortAfterMove(own, order, rest, p, b, l);
      assert b in nodes <==> b == nodes[0] || b in rest;
      assert LoadsOf(own, order, nodes)[1..] == LoadsOf(own, order, rest);
      assert LoadsOf(own', order, nodes)[1..] == LoadsOf(own', order, rest);
    }
  }

  lemma {:induction false} ShortAfterPlan(own: Owners, order: seq<Pid>, nodes: seq<NodeId>, plan: seq<Assign>, l: nat)
    requires Enumerates(order, own.Keys) && Distinct(nodes) && forall k :: 0 <= k < |plan| ==> plan[k].p in own
    ensures Apply(own, plan).Keys == own.Keys
    ensures Short(LoadsOf(Apply(own, plan), order, nodes), l) + |plan| >= Short(LoadsOf(own, order, nodes), l)
    decreases |plan|
  {
    if plan != [] {
      var own' := own[plan[0].p := plan[0].to];
      assert own'.Keys == own.Keys;
      ShortAfterMove(own, order, nodes, plan[0].p, plan[0].to, l);
      ShortAfterPlan(own', order, nodes, plan[1..], l);
    }
  }

  /** With no more moves, nothing leaves less missing below any level up to the ceiling. */
  lemma PlanIsFairest(table: Table, order: seq<Pid>, live: seq<NodeId>, other: Plan, l: nat)
    requires Enumerates(order, table.Keys) && forall k :: 0 <= k < |other| ==> other[k].0 in table
    requires |other| <= |PlanOf(table, order, live)| && l <= CeilingFor(table, live)
    ensures MissingBelow(After(table, order, live), live, l) <= MissingBelow(AssignAll(table, other), live, l)
  {
    hide CeilingFor, Members, PlanOf, LoadsOf, AssignAll, Short, Held, After;
    var members, own, t := Members(live), SettledOwners(table), AssignAll(table, other);
    PlanRaisesEveryLevel(table, order, live, l);
    MembersDistinct(live);
    AssignAllSettles(table, other);
    AssignAllOwners(table, other);
    ShortAfterPlan(own, order, members, AsAssigns(other), l);
    LoadsAreHoldings(table, order, members);
    LoadsAreHoldings(t, order, members);
  }

  // ── Once is enough, and every caller plans the same ──────────────────────

  lemma {:induction false} SumComplement(hs: seq<nat>, left: seq<nat>, c: nat)
    requires |hs| == |left| && forall i :: 0 <= i < |hs| ==> hs[i] + left[i] == c
    ensures Sum(hs) + Deep(left, 0) == |hs| * c
  {
    if hs != [] {
      SumComplement(hs[1..], left[1..], c);
      Distribute(|hs| - 1, c);
    }
  }

  lemma {:induction false} DeepIsSum(slots: seq<nat>)
    ensures Deep(slots, 0) == Sum(slots)
  {
    if slots != [] {
      DeepIsSum(slots[1..]);
    }
  }

  /** What the live members own between them does not change. */
  lemma PlanConserves(table: Table, order: seq<Pid>, live: seq<NodeId>)
    requires Enumerates(order, table.Keys) && live != []
    ensures Sum(Holdings(After(table, order, live), Members(live))) == Sum(Holdings(table, Members(live)))
  {
    hide Excess, Repeat, Members, Held, PlanOf, Left, Rooms, Deep, Sum, After, Ceiling;
    var members, c, left := Members(live), CeilingFor(table, live), Left(table, order, live);
    var hs := Holdings(table, members);
    PlanOutcome(table, order, live);
    LeftAtEveryDepth(table, order, live, 0);
    SumComplement(Holdings(After(table, order, live), members), left, c);
    DeepIsSum(Room(table, live));
    RoomsAt(c, hs);
    ExcessBalance(hs, Repeat(c, |members|));
    SumFlat(c, |members|);
    MembersDistinct(live);
    CeilingCovers(Sum(hs), |members|);
  }

  /** Planning again after the moves have completed finds nothing to do. */
  lemma PlanSettles(table: Table, order: seq<Pid>, live: seq<NodeId>)
    requires Enumerates(order, table.Keys)
    ensures After(table, order, live).Keys == table.Keys
    ensures PlanOf(After(table, order, live), order, live) == []
  {
    if live == [] {
      NoMembers(live);
    } else {
      var t := After(table, order, live);
      SameCeiling(table, order, live);
      PlanOutcome(table, order, live);
      PlanOutcome(t, order, live);
      hide Excess, Repeat, Members, Held, PlanOf, After, CeilingFor, Left, Holdings;
      forall n | n in live
        ensures Held(t, n) <= CeilingFor(t, live)
      {
        PlanReachesCeiling(table, order, live, n);
      }
      WithinCeiling(t, live, CeilingFor(t, live));
    }
  }

  lemma SameCeiling(table: Table, order: seq<Pid>, live: seq<NodeId>)
    requires Enumerates(order, table.Keys) && live != []
    ensures CeilingFor(After(table, order, live), live) == CeilingFor(table, live)
  {
    hide Members, After, Held, Sum, Ceiling;
    PlanConserves(table, order, live);
  }

  /** The hash map's iteration order, and the order and repetition of the live list, make no difference. */
  lemma PlanIsDeterministic(table: Table, order: seq<Pid>, order': seq<Pid>, live: seq<NodeId>, live': seq<NodeId>)
    requires Enumerates(order, table.Keys) && Enumerates(order', table.Keys)
    requires forall n :: n in live <==> n in live'
    ensures PlanOf(table, order, live) == PlanOf(table, order', live')
  {
    hide Members, Ascending, SortedSet, Unsorted, SortPlan, CeilingOf;
    AscendingUnique(Ascending(order), Ascending(order'));
    SameMembers(live, live');
  }

  lemma SameMembers(live: seq<NodeId>, live': seq<NodeId>)
    requires forall n :: n in live <==> n in live'
    ensures Members(live) == Members(live')
  {
    var s, s' := SortedSet(live), SortedSet(live');
    SortedSetAscends(live);
    SortedSetAscends(live');
    forall x
      ensures x in s <==> x in s'
    {
      assert x in live ==> x >= 0 && x in live';
      assert x in live' ==> x >= 0 && x in live;
    }
    AscendingUnique(s, s');
  }

  // ── Two members at the ceiling and one with nothing ──────────────────────

  function TwoTwoNone(): (table: Table) {
    map[0 := Owned(1), 1 := Owned(1), 2 := Owned(2), 3 := Owned(2)]
  }

  lemma TwoTwoNoneHoldings()
    ensures Holdings(TwoTwoNone(), [1, 2, 3]) == [2, 2, 0] && Sum([2, 2, 0]) == 4
  {
    var table := TwoTwoNone();
    assert OwnedBy(table, 1) == {0, 1} && OwnedBy(table, 2) == {2, 3} && OwnedBy(table, 3) == {};
    assert Sum([2, 2, 0][1..]) == 2 + Sum([0]) by { assert [2, 2, 0][1..] == [2, 0] && [2, 0][1..] == [0]; }
  }

  /** The plan can be empty while a member holds less than the floor. */
  lemma FloorMissed(order: seq<Pid>)
    requires Enumerates(order, TwoTwoNone().Keys)
    ensures PlanOf(TwoTwoNone(), order, [1, 2, 3]) == []
    ensures Held(After(TwoTwoNone(), order, [1, 2, 3]), 3) < FloorFor(TwoTwoNone(), [1, 2, 3])
  {
    hide PlanOf, Members, Held, Sum, Excess, Repeat, TwoTwoNone, Holdings;
    var table, live := TwoTwoNone(), [1, 2, 3];
    AscendingUnique(Members(live), live);
    TwoTwoNoneHoldings();
    var hs := Holdings(table, Members(live));
    PlanReachesCeiling(table, order, live, 3);
    SumFlat(2, 3);
    WithinCaps(hs, Repeat(2, 3));
    HoldingsAt(table, [1, 2, 3], 2);
  }

  lemma HoldingsAt(table: Table, members: seq<NodeId>, i: nat)
    requires i < |members|
    ensures Holdings(table, members)[i] == Held(table, members[i])
  {
  }
}
