/** The replicated cluster state and what each committed request does to it. */
module ClusterState {
  import opened Wrappers
  import opened PartitionTable
  import opened Loads
  import ComputeRebalance
  import InitialAssignment

  type I64 = x: int | -0x8000_0000_0000_0000 <= x < 0x8000_0000_0000_0000
  type U64 = x: int | 0 <= x < 0x1_0000_0000_0000_0000
  type U16 = x: int | 0 <= x < 0x1_0000

  datatype Request =
    | AssignPartition(p: Pid, node: NodeId)
    | BeginTransfer(p: Pid, source: NodeId, target: NodeId)
    | CompleteTransfer(p: Pid, newOwner: NodeId)
    | AbortTransfer(p: Pid, revertTo: NodeId)
    | UpdateConfig(key: string, value: string)
    | SubmitCheckpoint(sourceOffsets: map<Pid, I64>)
    | RebalancePartitions(nodes: seq<NodeId>)
    | InitialAssign(count: U16, nodes: seq<NodeId>)
    | Registry(payload: seq<nat>)

  /** Error texts are not kept apart. */
  datatype Response = Ok | Error

  datatype ClusterSnapshot = ClusterSnapshot(
    table: Table,
    lastIndex: nat,
    lastTerm: nat,
    offsets: map<Pid, U64>,
    poh: Option<seq<nat>>,
    config: map<string, string>)

  const Fresh := ClusterSnapshot(map[], 0, 0, map[], None, map[])

  /** A hash map's iteration order, as a function of its contents. */
  type Order = Table -> seq<Pid>

  ghost predicate Iterates(ord: Order) {
    forall t: Table :: Enumerates(ord(t), t.Keys)
  }

  // ── Checkpoint offsets ───────────────────────────────────────────────────

  /** The casts of the source, wrap-around included. */
  function AsI64(u: U64): (i: I64) {
    if u < 0x8000_0000_0000_0000 then u else u - 0x1_0000_0000_0000_0000
  }

  function AsU64(i: I64): (u: U64) {
    if i >= 0 then i else i + 0x1_0000_0000_0000_0000
  }

  function Advance(offsets: map<Pid, U64>, p: Pid, offset: I64): (u: U64) {
    var entry := if p in offsets then offsets[p] else 0;
    if offset > AsI64(entry) then AsU64(offset) else entry
  }

  function Merge(offsets: map<Pid, U64>, submitted: map<Pid, I64>): (merged: map<Pid, U64>) {
    map p | p in offsets.Keys + submitted.Keys ::
      if p in submitted then Advance(offsets, p, submitted[p]) else offsets[p]
  }

  // ── Applying a request ───────────────────────────────────────────────────

  /** The new state and the reply, or the panic an empty node list causes. */
  datatype Outcome = Applied(state: ClusterSnapshot, response: Response) | Panics

  function AfterBegin(table: Table, p: Pid, source: NodeId, target: NodeId): (r: (Table, Response)) {
    if p in table && table[p] == Owned(source) then (table[p := Transferring(source, target)], Ok) else (table, Error)
  }

  function AfterComplete(table: Table, p: Pid, newOwner: NodeId): (r: (Table, Response)) {
    if p in table && table[p].Transferring? && table[p].target == newOwner then (table[p := Owned(newOwner)], Ok)
    else if p in table && table[p] == Owned(newOwner) then (table, Ok)
    else (table, Error)
  }

  function AfterRebalance(ord: Order, table: Table, nodes: seq<NodeId>): (t: Table)
    requires Iterates(ord)
  {
    ComputeRebalance.ApplyMoves(table, ComputeRebalance.Moves(table, ord(table), nodes))
  }

  function Apply(ord: Order, s: ClusterSnapshot, req: Request): (r: Outcome)
    requires Iterates(ord)
  {
    match req
    case AssignPartition(p, n) => Applied(s.(table := s.table[p := Owned(n)]), Ok)
    case BeginTransfer(p, source, target) =>
      var (t, resp) := AfterBegin(s.table, p, source, target);
      Applied(s.(table := t), resp)
    case CompleteTransfer(p, n) =>
      var (t, resp) := AfterComplete(s.table, p, n);
      Applied(s.(table := t), resp)
    case AbortTransfer(p, n) => Applied(s.(table := s.table[p := Owned(n)]), Ok)
    case UpdateConfig(k, v) => Applied(s.(config := s.config[k := v]), Ok)
    case SubmitCheckpoint(offsets) => Applied(s.(offsets := Merge(s.offsets, offsets)), Ok)
    case RebalancePartitions(nodes) => Applied(s.(table := AfterRebalance(ord, s.table, nodes)), Ok)
    case InitialAssign(count, nodes) =>
      if s.table != map[] then Applied(s, Ok)
      else if nodes == [] then Panics
      else Applied(s.(table := ComputeRebalance.AssignAll(map[], InitialAssignment.RoundRobin(count, nodes))), Ok)
    case Registry(_) => Applied(s, Error)
  }

  // ── What a single request may do ─────────────────────────────────────────

  /** The node serving `p`. */
  function ActiveOf(table: Table, p: Pid): (n: Option<NodeId>) {
    if p in table then Some(ActiveNode(table[p])) else None
  }

  /** No request of any kind removes a partition. */
  lemma PartitionsRemain(ord: Order, s: ClusterSnapshot, req: Request)
    requires Iterates(ord) && Apply(ord, s, req).Applied?
    ensures s.table.Keys <= Apply(ord, s, req).state.table.Keys
  {
    hide ComputeRebalance.Moves, ComputeRebalance.ApplyMoves;
    if req.RebalancePartitions? {
      RebalanceKeeps(ord(s.table), s.table, req.nodes);
    }
  }

  lemma RebalanceKeeps(order: seq<Pid>, table: Table, nodes: seq<NodeId>)
    requires Enumerates(order, table.Keys)
    ensures ComputeRebalance.ApplyMoves(table, ComputeRebalance.Moves(table, order, nodes)).Keys == table.Keys
  {
    hide *;
    hide ComputeRebalance.Moves;
    RebalanceMovesKnown(order, table, nodes);
    ComputeRebalance.ApplyMovesKeys(table, ComputeRebalance.Moves(table, order, nodes));
  }

  lemma ZipKnown(own: Owners, ps: seq<Pid>, slots: seq<NodeId>)
    requires forall p :: p in ps ==> p in own
    ensures var moves := ComputeRebalance.Zip(own, ps, slots);
            forall k :: 0 <= k < |moves| ==> moves[k].p in own
  {
    assert forall i :: 0 <= i < |ps| ==> ps[i] in ps;
  }

  lemma RebalanceMovesKnown(order: seq<Pid>, table: Table, nodes: seq<NodeId>)
    requires Enumerates(order, table.Keys)
    ensures var moves := ComputeRebalance.Moves(table, order, nodes);
            forall k :: 0 <= k < |moves| ==> moves[k].p in table
  {
    if nodes != [] && |table| > 0 {
      hide ComputeRebalance.Sources, ComputeRebalance.Slots, ComputeRebalance.TargetMap, ComputeRebalance.Caps,
           ComputeRebalance.Zip, LoadsOf;
      var own := ComputeRebalance.ActiveOwners(table);
      var caps := ComputeRebalance.Caps(ComputeRebalance.TargetMap(|table|, |nodes|, nodes), nodes);
      ComputeRebalance.SourcesKnown(own, order, nodes, caps);
      var loads := LoadsOf(own, order, nodes);
      ZipKnown(own, ComputeRebalance.Sources(own, order, nodes, caps), ComputeRebalance.Slots(nodes, loads, caps));
    }
  }

  /** A rejected request leaves the whole state as it was. */
  lemma RejectedChangesNothing(ord: Order, s: ClusterSnapshot, req: Request)
    requires Iterates(ord) && Apply(ord, s, req).Applied? && Apply(ord, s, req).response == Error
    ensures Apply(ord, s, req).state == s
  {
  }

  // ── When a partition changes hands ───────────────────────────────────────

  /** `p` is among the partitions a rebalance moves. */
  ghost predicate Rebalanced(order: seq<Pid>, table: Table, nodes: seq<NodeId>, p: Pid)
    requires Enumerates(order, table.Keys)
  {
    var moves := ComputeRebalance.Moves(table, order, nodes);
    exists k :: 0 <= k < |moves| && moves[k].p == p
  }

  /** The requests that hand `p` to another node, read off the table before them. */
  ghost predicate HandsOver(ord: Order, table: Table, req: Request, p: Pid)
    requires Iterates(ord) && p in table
  {
    match req
    case AssignPartition(q, n) => q == p && n != ActiveNode(table[p])
    case AbortTransfer(q, n) => q == p && n != ActiveNode(table[p])
    case CompleteTransfer(q, n) => q == p && table[p].Transferring? && table[p].target == n && table[p].source != n
    case RebalancePartitions(nodes) => Rebalanced(ord(table), table, nodes, p)
    case _ => false
  }

  lemma RebalanceHandsOver(order: seq<Pid>, table: Table, nodes: seq<NodeId>, p: Pid)
    requires Enumerates(order, table.Keys) && Distinct(nodes) && p in table
    ensures var t := ComputeRebalance.ApplyMoves(table, ComputeRebalance.Moves(table, order, nodes));
            && p in t && (ActiveNode(t[p]) != ActiveNode(table[p]) <==> Rebalanced(order, table, nodes, p))
            && (Rebalanced(order, table, nodes, p) ==> ActiveNode(t[p]) in nodes)
  {
    hide ComputeRebalance.Moves, ComputeRebalance.ApplyMoves, Strays, LoadsOf, Excess, ComputeRebalance.Caps,
         ComputeRebalance.TargetMap;
    var moves := ComputeRebalance.Moves(table, order, nodes);
    if nodes == [] {
      NoNodesNoMoves(order, table);
      ComputeRebalance.ApplyMovesElsewhere(table, moves, p);
    } else {
      ComputeRebalance.RebalanceMovesOnce(table, order, nodes);
      if k :| 0 <= k < |moves| && moves[k].p == p {
        ComputeRebalance.ApplyMovesAt(table, moves, k);
      } else {
        ComputeRebalance.ApplyMovesElsewhere(table, moves, p);
      }
    }
  }

  lemma NoNodesNoMoves(order: seq<Pid>, table: Table)
    requires Enumerates(order, table.Keys)
    ensures ComputeRebalance.Moves(table, order, []) == []
  {
  }

  /** A partition changes hands exactly on those requests, and goes to the node they name. Rebalances list distinct
      nodes. */
  lemma ChangesHandsIff(ord: Order, s: ClusterSnapshot, req: Request, p: Pid)
    requires Iterates(ord) && p in s.table && Apply(ord, s, req).Applied?
    requires req.RebalancePartitions? ==> Distinct(req.nodes)
    ensures ActiveOf(Apply(ord, s, req).state.table, p) != ActiveOf(s.table, p) <==> HandsOver(ord, s.table, req, p)
    ensures HandsOver(ord, s.table, req, p) ==>
              var to := ActiveOf(Apply(ord, s, req).state.table, p);
              match req
              case AssignPartition(_, n) => to == Some(n)
              case AbortTransfer(_, n) => to == Some(n)
              case CompleteTransfer(_, n) => to == Some(n)
              case RebalancePartitions(nodes) => to.Some? && to.value in nodes
              case _ => true
  {
    hide ComputeRebalance.Moves, ComputeRebalance.ApplyMoves, Rebalanced;
    if req.RebalancePartitions? {
      RebalanceHandsOver(ord(s.table), s.table, req.nodes, p);
    }
  }

  /** Accepted or not, and what the reply promises: a begun transfer still runs at its source, a completed one is
      settled at the target and may be completed again, an abort settles where it says. */
  lemma ReplyMeansDone(ord: Order, s: ClusterSnapshot, p: Pid, a: NodeId, b: NodeId)
    requires Iterates(ord)
    ensures var r := Apply(ord, s, BeginTransfer(p, a, b));
            && (r.response == Ok <==> p in s.table && s.table[p] == Owned(a))
            && (r.response == Ok ==> r.state.table[p] == Transferring(a, b))
            && (r.response == Ok ==> ActiveOf(r.state.table, p) == ActiveOf(s.table, p))
            && (r.response == Ok ==> Apply(ord, r.state, BeginTransfer(p, a, b)).response == Error)
    ensures var r := Apply(ord, s, CompleteTransfer(p, b));
            && (r.response == Ok <==> p in r.state.table && r.state.table[p] == Owned(b))
            && (r.response == Ok ==> Apply(ord, r.state, CompleteTransfer(p, b)) == r)
    ensures var r := Apply(ord, s, AbortTransfer(p, a));
            r.response == Ok && Apply(ord, r.state, BeginTransfer(p, a, b)).response == Ok
  {
    hide Iterates;
  }

  /** Only a transfer can be refused, begun or completed, and a registry command that should not come here. */
  lemma OthersAreAccepted(ord: Order, s: ClusterSnapshot, req: Request)
    requires Iterates(ord) && Apply(ord, s, req).Applied?
    ensures req.Registry? ==> Apply(ord, s, req) == Applied(s, Error)
    ensures !req.BeginTransfer? && !req.CompleteTransfer? && !req.Registry? ==> Apply(ord, s, req).response == Ok
  {
    hide Iterates, Merge, AfterRebalance, ComputeRebalance.AssignAll;
  }

  /** A request for one partition leaves every other entry alone; and the table, the offsets and the configuration
      never change together. */
  lemma RequestsStayApart(ord: Order, s: ClusterSnapshot, req: Request, q: Pid)
    requires Iterates(ord) && Apply(ord, s, req).Applied?
    ensures var t := Apply(ord, s, req).state;
            && (IsTransferRequest(req) || req.AssignPartition? ==>
                  req.p == q || ((q in t.table <==> q in s.table) && (q in s.table ==> t.table[q] == s.table[q])))
            && (t.table == s.table || (t.offsets == s.offsets && t.config == s.config))
            && (t.offsets == s.offsets || t.config == s.config)
            && t.lastIndex == s.lastIndex && t.lastTerm == s.lastTerm && t.poh == s.poh
  {
    hide Iterates, Merge, AfterRebalance, ComputeRebalance.AssignAll;
  }

  // ── Committed logs ───────────────────────────────────────────────────────

  /** The state after a log, or nothing once a request has panicked. */
  ghost function RunLog(ord: Order, s: ClusterSnapshot, log: seq<Request>): (r: Option<ClusterSnapshot>)
    requires Iterates(ord)
  {
    if log == [] then Some(s)
    else
      match RunLog(ord, s, log[..|log| - 1])
      case None => None
      case Some(before) =>
        match Apply(ord, before, log[|log| - 1])
        case Panics => None
        case Applied(after, _) => Some(after)
  }

  /** Source and target of the last `BeginTransfer` of `p` the log accepted. */
  ghost function LastBegun(ord: Order, s: ClusterSnapshot, log: seq<Request>, p: Pid): (t: Option<(NodeId, NodeId)>)
    requires Iterates(ord)
  {
    if log == [] then None
    else
      var init, req := log[..|log| - 1], log[|log| - 1];
      var before := RunLog(ord, s, init);
      if req.BeginTransfer? && req.p == p && before.Some?
         && AfterBegin(before.value.table, p, req.source, req.target).1 == Ok
      then Some((req.source, req.target))
      else LastBegun(ord, s, init, p)
  }

  lemma OnlyBeginsTransfer(ord: Order, s: ClusterSnapshot, req: Request, p: Pid)
    requires Iterates(ord) && Apply(ord, s, req).Applied?
    requires var t := Apply(ord, s, req).state.table; p in t && t[p].Transferring?
    ensures var t := Apply(ord, s, req).state.table;
            || (p in s.table && s.table[p] == t[p])
            || (&& req == BeginTransfer(p, t[p].source, t[p].target)
                && AfterBegin(s.table, p, t[p].source, t[p].target).1 == Ok)
  {
    hide ComputeRebalance.Moves, ComputeRebalance.ApplyMoves, ComputeRebalance.AssignAll, InitialAssignment.RoundRobin;
    if req.RebalancePartitions? {
      ComputeRebalance.ApplyMovesSettle(s.table, ComputeRebalance.Moves(s.table, ord(s.table), req.nodes), p);
    }
    if req.InitialAssign? && s.table == map[] {
      InitialAssignment.InitialIsDealt(req.count, req.nodes);
    }
  }

  /** Whatever the log held, a partition in transfer is in the transfer its last accepted `BeginTransfer` started. */
  lemma {:induction false} InTransferAsBegun(ord: Order, log: seq<Request>, p: Pid)
    requires Iterates(ord) && RunLog(ord, Fresh, log).Some?
    requires p in RunLog(ord, Fresh, log).value.table && RunLog(ord, Fresh, log).value.table[p].Transferring?
    ensures var o := RunLog(ord, Fresh, log).value.table[p]; LastBegun(ord, Fresh, log, p) == Some((o.source, o.target))
  {
    hide Apply, AfterBegin;
    if log != [] {
      var init, req := log[..|log| - 1], log[|log| - 1];
      var before := RunLog(ord, Fresh, init).value;
      OnlyBeginsTransfer(ord, before, req, p);
      if p in before.table && before.table[p] == RunLog(ord, Fresh, log).value.table[p] {
        InTransferAsBegun(ord, init, p);
        BeginNeedsOwned(before.table, p);
      }
    }
  }

  lemma BeginNeedsOwned(table: Table, p: Pid)
    requires p in table && table[p].Transferring?
    ensures forall a, b :: AfterBegin(table, p, a, b).1 == Error
  {
  }

  predicate IsTransferRequest(req: Request) {
    req.BeginTransfer? || req.CompleteTransfer? || req.AbortTransfer?
  }

  /** The abort names the source of the transfer in flight. */
  predicate FaithfulAbort(table: Table, req: Request) {
    req.AbortTransfer? ==> req.p in table && table[req.p].Transferring? && table[req.p].source == req.revertTo
  }

  /** After any log at all, a transfer request with a faithful abort hands `p` over only by completing the transfer
      that the last accepted `BeginTransfer` of `p` started, from its source to its target. */
  lemma OnlyCompletionHandsOver(ord: Order, log: seq<Request>, req: Request, p: Pid)
    requires Iterates(ord) && RunLog(ord, Fresh, log).Some? && IsTransferRequest(req)
    requires var t := RunLog(ord, Fresh, log).value.table; p in t && FaithfulAbort(t, req)
    requires Apply(ord, RunLog(ord, Fresh, log).value, req).Applied?
    requires ActiveOf(Apply(ord, RunLog(ord, Fresh, log).value, req).state.table, p)
          != ActiveOf(RunLog(ord, Fresh, log).value.table, p)
    ensures LastBegun(ord, Fresh, log, p).Some?
    ensures var (source, target) := LastBegun(ord, Fresh, log, p).value;
            && req == CompleteTransfer(p, target)
            && ActiveOf(RunLog(ord, Fresh, log).value.table, p) == Some(source)
            && ActiveOf(Apply(ord, RunLog(ord, Fresh, log).value, req).state.table, p) == Some(target)
  {
    hide RunLog, LastBegun, Iterates;
    var s := RunLog(ord, Fresh, log).value;
    ChangesHandsIff(ord, s, req, p);
    InTransferAsBegun(ord, log, p);
  }

  /** The guard on aborts is needed: one that arrives after the completion takes the partition back. */
  lemma LateAbortTakesBack(ord: Order)
    requires Iterates(ord)
    ensures var log := [AssignPartition(0, 1), BeginTransfer(0, 1, 2), CompleteTransfer(0, 2)];
            && RunLog(ord, Fresh, log).Some? && RunLog(ord, Fresh, log).value.table == map[0 := Owned(2)]
            && RunLog(ord, Fresh, log + [AbortTransfer(0, 1)]).Some?
            && RunLog(ord, Fresh, log + [AbortTransfer(0, 1)]).value.table == map[0 := Owned(1)]
  {
    hide Iterates, RunLog;
    var a, b, c, d := AssignPartition(0, 1), BeginTransfer(0, 1, 2), CompleteTransfer(0, 2), AbortTransfer(0, 1);
    assert [] + [a] == [a] && [a] + [b] == [a, b] && [a, b] + [c] == [a, b, c];
    RunNothing(ord, Fresh);
    RunOneMore(ord, Fresh, [], a);
    RunOneMore(ord, Fresh, [a], b);
    RunOneMore(ord, Fresh, [a, b], c);
    RunOneMore(ord, Fresh, [a, b, c], d);
  }

  lemma RunNothing(ord: Order, s: ClusterSnapshot)
    requires Iterates(ord)
    ensures RunLog(ord, s, []) == Some(s)
  {
  }

  lemma RunOneMore(ord: Order, s: ClusterSnapshot, log: seq<Request>, req: Request)
    requires Iterates(ord) && RunLog(ord, s, log).Some? && Apply(ord, RunLog(ord, s, log).value, req).Applied?
    ensures RunLog(ord, s, log + [req]) == Some(Apply(ord, RunLog(ord, s, log).value, req).state)
  {
    assert (log + [req])[..|log|] == log;
  }
}
