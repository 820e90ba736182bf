/** `StateMachineStore` as it runs: fields updated in place, entry by entry. */
module StateMachineStore {
  import opened Wrappers
  import opened PartitionTable
  import opened Loads
  import opened ClusterState
  import opened RaftLogModel
  import opened StateMachine
  import Checkpoints
  import ComputeRebalance
  import ComputeRebalanceCode
  import InitialAssignment
  import PlanRebalance
  import PlanRebalanceCode

  class StateMachineStore {
    var state: ClusterSnapshot
    var lastApplied: Option<LogId>
    var membership: StoredMembership
    var snapshotIdx: nat
    var shared: ClusterSnapshot
    var watch: Option<Watch>
    var disk: Option<Disk>
    const key: Option<Key>

    ghost function View(): (st: Store)
      reads this
    {
      Store(Machine(state, lastApplied, membership), shared, watch, key, disk)
    }

    constructor (key: Option<Key>, disk: Option<Disk>)
      ensures View() == Store(Empty, Fresh, None, key, disk) && this.key == key
    {
      state, lastApplied, membership, snapshotIdx := Fresh, None, StoredMembership(None, {}), 0;
      shared, watch, this.disk, this.key := Fresh, None, disk, key;
    }

    /** Null when the persisted snapshot cannot be read. */
    static method NewPersistent(key: Option<Key>, disk: Disk) returns (store: StateMachineStore?)
      ensures store != null <==> Hydrate(key, disk).Some?
      ensures store != null ==> fresh(store) && store.View() == Hydrate(key, disk).value
    {
      store := new StateMachineStore(key, Some(disk));
      match disk {
        case None =>
        case Some((meta, data)) =>
          match Decode(key, data) {
            case Good(s) =>
              store.shared, store.state := s, s;
              store.lastApplied, store.membership := meta.lastLog, meta.membership;
            case _ => store := null;
          }
      }
    }

    /** Send the sorted list of partitions this node serves, if it differs from the last one sent. */
    method BroadcastOwnedPartitions(ord: Order)
      requires Iterates(ord)
      modifies `watch
      ensures watch == Notify(ord, old(watch), state.table)
    {
      hide On, PlanRebalance.Ascending;
      if watch.Some? {
        var owned := PartitionsForNode(ord(state.table), state.table, watch.value.node);
        owned := PlanRebalance.Ascending(owned);
        if watch.value.current != owned {
          watch := Some(Watch(watch.value.node, owned, watch.value.wakes + 1));
        }
      }
    }

    /** True when the request panics. */
    method ApplyRequest(ord: Order, req: Request) returns (panicked: bool, resp: Response)
      requires Iterates(ord)
      modifies `state
      ensures panicked == ClusterState.Apply(ord, old(state), req).Panics?
      ensures panicked ==> state == old(state)
      ensures !panicked ==> ClusterState.Apply(ord, old(state), req) == Applied(state, resp)
    {
      hide Merge, ComputeRebalance.Moves, ComputeRebalance.ApplyMoves, ComputeRebalance.AssignAll,
           InitialAssignment.RoundRobin;
      panicked, resp := false, Ok;
      match req {
        case AssignPartition(p, n) =>
          state := state.(table := state.table[p := Owned(n)]);
        case BeginTransfer(p, source, target) =>
          if p in state.table && state.table[p].Owned? && state.table[p].node == source {
            state := state.(table := state.table[p := Transferring(source, target)]);
          } else {
            resp := Error;
          }
        case CompleteTransfer(p, n) =>
          if p in state.table && state.table[p].Transferring? && state.table[p].target == n {
            state := state.(table := state.table[p := Owned(n)]);
          } else if !(p in state.table && state.table[p] == Owned(n)) {
            resp := Error;
          }
        case AbortTransfer(p, n) =>
          state := state.(table := state.table[p := Owned(n)]);
        case UpdateConfig(k, v) =>
          state := state.(config := state.config[k := v]);
        case SubmitCheckpoint(offsets) =>
          var merged := Checkpoints.MergeOffsets(state.offsets, offsets);
          state := state.(offsets := merged);
        case RebalancePartitions(nodes) =>
          var table := Rebalance(ord(state.table), state.table, nodes);
          state := state.(table := table);
        case Registry(_) =>
          resp := Error;
        case InitialAssign(count, nodes) =>
          if state.table == map[] {
            if nodes == [] {
              return true, Error;
            }
            var table := AssignEach(InitialAssignment.RoundRobin(count, nodes));
            state := state.(table := table);
          }
      }
    }

    /** Apply a batch, then publish: the read copy and the watch move once per batch. False after a panic. */
    method ApplyBatch(ord: Order, registry: seq<nat> -> Response, log: seq<Committed>)
      returns (ok: bool, responses: seq<Response>)
      requires Iterates(ord)
      modifies this
      ensures ok == AfterApply(ord, old(View()), log).Some?
      ensures ok ==> View() == AfterApply(ord, old(View()), log).value && |responses| == |log|
      ensures forall k :: 0 <= k < |responses| ==> RepliesAt(ord, registry, old(View()).m, log, responses, k)
      ensures snapshotIdx == old(snapshotIdx)
    {
      hide ApplyAll, Notify, ClusterState.Apply, Iterates, RepliesAt;
      responses, ok := [], true;
      ghost var start := Machine(state, lastApplied, membership);
      ApplyNone(ord, start, log);
      for k := 0 to |log|
        invariant shared == old(shared) && watch == old(watch) && disk == old(disk) && snapshotIdx == old(snapshotIdx)
        invariant |responses| == k && ApplyAll(ord, start, log[..k]) == Some(Machine(state, lastApplied, membership))
        invariant forall j :: 0 <= j < k ==> RepliesAt(ord, registry, start, log, responses, j)
      {
        var e := log[k];
        ghost var before, replied := Machine(state, lastApplied, membership), responses;
        ApplyOne(ord, start, log, k);
        lastApplied := Some(e.id);
        state := state.(lastIndex := e.id.index, lastTerm := e.id.term);
        match e.payload {
          case Blank =>
            responses := responses + [Ok];
          case Normal(req) =>
            var resp: Response;
            if req.Registry? {
              resp := registry(req.payload);
            } else {
              var panicked;
              panicked, resp := ApplyRequest(ord, req);
              if panicked {
                PanicStays(ord, start, log, k);
                return false, responses;
              }
            }
            responses := responses + [resp];
          case Membership(nodes) =>
            membership := StoredMembership(Some(e.id), nodes);
            responses := responses + [Ok];
        }
        RepliesOneMore(ord, registry, start, log, replied, Told(ord, registry, before, e));
      }
      assert log[..|log|] == log;
      shared := state;
      BroadcastOwnedPartitions(ord);
    }

    /** A point-in-time copy for the builder. */
    method GetSnapshotBuilder() returns (m: Machine)
      modifies `snapshotIdx
      ensures m == View().m && snapshotIdx == old(snapshotIdx) + 1
    {
      snapshotIdx := snapshotIdx + 1;
      m := Machine(state, lastApplied, membership);
    }

    /** The snapshot of the builder's copy, persisted when a store is configured. */
    method BuildSnapshot(m: Machine) returns (meta: Meta, data: Data)
      modifies `disk
      ensures View() == AfterBuild(old(View()), m)
      ensures meta == BuildMeta(m) && data == BuildData(key, m)
    {
      data := Data(key, Some(m.state));
      meta := Meta(m.lastApplied, m.membership);
      if disk.Some? {
        disk := Some(Some((meta, data)));
      }
    }

    /** Nothing before the first entry; otherwise the snapshot of the current state. */
    method GetCurrentSnapshot() returns (r: Option<(Meta, Data)>)
      ensures r == if View().m.lastApplied.None? then None else Some((BuildMeta(View().m), BuildData(key, View().m)))
    {
      if lastApplied.None? {
        return None;
      }
      r := Some((Meta(lastApplied, membership), Data(key, Some(state))));
    }

    /** False when the bytes fail the seal or do not decode. */
    method InstallSnapshot(ord: Order, meta: Meta, data: Data) returns (ok: bool)
      requires Iterates(ord)
      modifies this
      ensures ok == Decode(key, data).Good?
      ensures View() == AfterInstall(ord, old(View()), meta, data)
      ensures snapshotIdx == old(snapshotIdx)
    {
      hide Notify, Iterates;
      if key.Some? && data.seal != key {
        return false;
      }
      if disk.Some? {
        disk := Some(Some((meta, data)));
      }
      if data.seal != key || data.content.None? {
        return false;
      }
      state := data.content.value;
      lastApplied, membership := meta.lastLog, meta.membership;
      shared := state;
      BroadcastOwnedPartitions(ord);
      ok := true;
    }
  }

  // ── Loops over the table ─────────────────────────────────────────────────

  method PartitionsForNode(order: seq<Pid>, table: Table, node: NodeId) returns (ps: seq<Pid>)
    requires Enumerates(order, table.Keys)
    ensures ps == On(ComputeRebalance.ActiveOwners(table), order, node)
  {
    hide On;
    PlanRebalanceCode.NothingOn(ComputeRebalance.ActiveOwners(table), [node]);
    ps := [];
    ghost var own := ComputeRebalance.ActiveOwners(table);
    for k := 0 to |order|
      invariant forall p :: p in order[..k] ==> p in own
      invariant ps == On(own, order[..k], node)
    {
      var p := order[k];
      assert p in order && order[..k + 1] == order[..k] + [p];
      PlanRebalanceCode.OnAppend(own, order[..k], p, node);
      if ActiveNode(table[p]) == node {
        ps := ps + [p];
      }
    }
    assert order[..|order|] == order;
  }

  method Rebalance(order: seq<Pid>, table: Table, nodes: seq<NodeId>) returns (t: Table)
    requires Enumerates(order, table.Keys)
    ensures t == ComputeRebalance.ApplyMoves(table, ComputeRebalance.Moves(table, order, nodes))
  {
    hide ComputeRebalance.Moves;
    var moves := ComputeRebalanceCode.Compute(table, order, nodes);
    t := table;
    for k := 0 to |moves|
      invariant ComputeRebalance.ApplyMoves(t, moves[k..]) == ComputeRebalance.ApplyMoves(table, moves)
    {
      assert moves[k..][1..] == moves[k + 1..];
      t := t[moves[k].p := Owned(moves[k].to)];
    }
  }

  method AssignEach(plan: PlanRebalance.Plan) returns (t: Table)
    ensures t == ComputeRebalance.AssignAll(map[], plan)
  {
    t := map[];
    for k := 0 to |plan|
      invariant ComputeRebalance.AssignAll(t, plan[k..]) == ComputeRebalance.AssignAll(map[], plan)
    {
      assert plan[k..][1..] == plan[k + 1..];
      t := t[plan[k].0 := Owned(plan[k].1)];
    }
  }

  /** The `k`-th response is the reply to entry `k` on the machine the entries before it leave. */
  ghost predicate RepliesAt(ord: Order, registry: seq<nat> -> Response, m: Machine, log: seq<Committed>,
                            responses: seq<Response>, k: nat)
    requires Iterates(ord)
  {
    && k < |log| && k < |responses| && ApplyAll(ord, m, log[..k]).Some?
    && responses[k] == Told(ord, registry, ApplyAll(ord, m, log[..k]).value, log[k])
  }

  lemma RepliesOneMore(ord: Order, registry: seq<nat> -> Response, m: Machine, log: seq<Committed>,
                       responses: seq<Response>, resp: Response)
    requires Iterates(ord) && |responses| < |log| && ApplyAll(ord, m, log[..|responses|]).Some?
    requires resp == Told(ord, registry, ApplyAll(ord, m, log[..|responses|]).value, log[|responses|])
    requires forall k :: 0 <= k < |responses| ==> RepliesAt(ord, registry, m, log, responses, k)
    ensures forall k :: 0 <= k < |responses| + 1 ==> RepliesAt(ord, registry, m, log, responses + [resp], k)
  {
    hide Iterates, ApplyAll, Told;
    forall k | 0 <= k < |responses|
      ensures RepliesAt(ord, registry, m, log, responses + [resp], k)
    {
      assert RepliesAt(ord, registry, m, log, responses, k);
    }
  }

  lemma ApplyOne(ord: Order, m: Machine, log: seq<Committed>, k: nat)
    requires Iterates(ord) && k < |log|
    ensures ApplyAll(ord, m, log[..k + 1])
         == var r := ApplyAll(ord, m, log[..k]); if r.None? then None else ApplyEntry(ord, r.value, log[k])
  {
    hide Iterates, ApplyAll, ApplyEntry;
    assert log[..k + 1] == log[..k] + [log[k]];
    ApplyConcat(ord, m, log[..k], [log[k]]);
    if ApplyAll(ord, m, log[..k]).Some? {
      ApplySingle(ord, ApplyAll(ord, m, log[..k]).value, log[k]);
    }
  }

  lemma ApplyNone(ord: Order, m: Machine, log: seq<Committed>)
    requires Iterates(ord)
    ensures ApplyAll(ord, m, log[..0]) == Some(m)
  {
  }

  lemma PanicStays(ord: Order, m: Machine, log: seq<Committed>, k: nat)
    requires Iterates(ord) && k < |log| && ApplyAll(ord, m, log[..k + 1]).None?
    ensures ApplyAll(ord, m, log).None?
  {
    hide Iterates, ApplyAll;
    assert log == log[..k + 1] + log[k + 1..];
    ApplyConcat(ord, m, log[..k + 1], log[k + 1..]);
  }
}
