/** What the replicated state is, told from the committed log alone. */
module CommittedLog {
  import opened Wrappers
  import opened PartitionTable
  import opened Loads
  import opened ClusterState
  import opened StateMachine
  import ComputeRebalance
  import InitialAssignment

  // ── The machine runs the log's requests ──────────────────────────────────

  /** The request an entry carries for the replicated state. */
  function RequestOf(e: Committed): (req: Option<Request>) {
    if e.payload.Normal? && !e.payload.req.Registry? then Some(e.payload.req) else None
  }

  function Requests(log: seq<Committed>): (reqs: seq<Request>) {
    if log == [] then []
    else
      var req := RequestOf(log[|log| - 1]);
      Requests(log[..|log| - 1]) + if req.Some? then [req.value] else []
  }

  /** Equal but for the stamped index and term. */
  predicate SameButStamp(s: ClusterSnapshot, t: ClusterSnapshot) {
    s == t.(lastIndex := s.lastIndex, lastTerm := s.lastTerm)
  }

  /** No request reads the stamp. */
  lemma StampIgnored(ord: Order, s: ClusterSnapshot, t: ClusterSnapshot, req: Request)
    requires Iterates(ord) && SameButStamp(s, t)
    ensures var a, b := ClusterState.Apply(ord, s, req), ClusterState.Apply(ord, t, req);
            && (a.Panics? <==> b.Panics?)
            && (a.Applied? ==> SameButStamp(a.state, b.state) && a.response == b.response)
  {
    hide Iterates, Merge, AfterRebalance, ComputeRebalance.AssignAll, InitialAssignment.RoundRobin;
  }

  lemma RunOne(ord: Order, s: ClusterSnapshot, reqs: seq<Request>, req: Request)
    requires Iterates(ord)
    ensures RunLog(ord, s, reqs + [req])
         == match RunLog(ord, s, reqs)
            case None => None
            case Some(before) =>
              match ClusterState.Apply(ord, before, req)
              case Panics => None
              case Applied(after, _) => Some(after)
  {
    hide Iterates, ClusterState.Apply;
    assert (reqs + [req])[..|reqs|] == reqs;
  }

  /** Applying a log is running its requests, in order and each once: the same state up to the stamp, and a panic
      exactly when they panic. */
  lemma {:induction false} ApplyAllIsRunLog(ord: Order, m: Machine, log: seq<Committed>)
    requires Iterates(ord)
    ensures match RunLog(ord, m.state, Requests(log))
            case None => ApplyAll(ord, m, log).None?
            case Some(s) => ApplyAll(ord, m, log).Some? && SameButStamp(ApplyAll(ord, m, log).value.state, s)
  {
    hide Iterates, ApplyAll, ClusterState.Apply;
    if log == [] {
      NothingToApply(ord, m);
    } else {
      var init, e := log[..|log| - 1], log[|log| - 1];
      ApplyAllIsRunLog(ord, m, init);
      OneMore(ord, m, init, e);
      assert log == init + [e];
      var reqs, req := Requests(init), RequestOf(e);
      if req.None? {
        assert reqs + [] == reqs;
      } else {
        RunOne(ord, m.state, reqs, req.value);
        if ApplyAll(ord, m, init).Some? {
          var before := ApplyAll(ord, m, init).value.state;
          StampIgnored(ord, before.(lastIndex := e.id.index, lastTerm := e.id.term),
                       RunLog(ord, m.state, reqs).value, req.value);
        }
      }
    }
  }

  lemma NothingToApply(ord: Order, m: Machine)
    requires Iterates(ord)
    ensures ApplyAll(ord, m, []) == Some(m) && RunLog(ord, m.state, []) == Some(m.state)
  {
  }

  lemma OneMore(ord: Order, m: Machine, init: seq<Committed>, e: Committed)
    requires Iterates(ord)
    ensures ApplyAll(ord, m, init + [e])
         == var before := ApplyAll(ord, m, init); if before.None? then None else ApplyEntry(ord, before.value, e)
  {
    hide Iterates, ApplyAll, ApplyEntry;
    ApplyConcat(ord, m, init, [e]);
    if ApplyAll(ord, m, init).Some? {
      ApplySingle(ord, ApplyAll(ord, m, init).value, e);
    }
  }

  // ── Configuration ────────────────────────────────────────────────────────

  /** The value of the last `UpdateConfig` of the key. */
  function LastConfig(log: seq<Committed>, key: string): (value: Option<string>) {
    if log == [] then None
    else
      var req := RequestOf(log[|log| - 1]);
      if req.Some? && req.value.UpdateConfig? && req.value.key == key then Some(req.value.value)
      else LastConfig(log[..|log| - 1], key)
  }

  function Get<K, V>(m: map<K, V>, k: K): (v: Option<V>) {
    if k in m then Some(m[k]) else None
  }

  lemma ConfigAfter(ord: Order, m: Machine, e: Committed, key: string)
    requires Iterates(ord) && ApplyEntry(ord, m, e).Some?
    ensures var req, value := RequestOf(e), Get(ApplyEntry(ord, m, e).value.state.config, key);
            if req.Some? && req.value.UpdateConfig? && req.value.key == key then value == Some(req.value.value)
            else value == Get(m.state.config, key)
  {
    hide Iterates, Merge, AfterRebalance, ComputeRebalance.AssignAll, InitialAssignment.RoundRobin;
  }

  /** Whatever else a log holds, each key has the value it was given last. */
  lemma {:induction false} ConfigIsLast(ord: Order, log: seq<Committed>, key: string)
    requires Iterates(ord) && ApplyAll(ord, Empty, log).Some?
    ensures Get(ApplyAll(ord, Empty, log).value.state.config, key) == LastConfig(log, key)
  {
    hide Iterates, ApplyAll, ApplyEntry;
    if log == [] {
      NothingToApply(ord, Empty);
    } else {
      var init, e := log[..|log| - 1], log[|log| - 1];
      assert log == init + [e];
      OneMore(ord, Empty, init, e);
      ConfigIsLast(ord, init, key);
      ConfigAfter(ord, ApplyAll(ord, Empty, init).value, e, key);
    }
  }

  // ── The table ────────────────────────────────────────────────────────────

  /** The request is accepted, and says something about `p`. */
  ghost predicate Settles(ord: Order, table: Table, req: Request, p: Pid)
    requires Iterates(ord)
  {
    match req
    case AssignPartition(q, _) => q == p
    case AbortTransfer(q, _) => q == p
    case BeginTransfer(q, source, _) => q == p && Get(table, p) == Some(Owned(source))
    case CompleteTransfer(q, n) =>
      q == p && p in table && (table[p] == Owned(n) || (table[p].Transferring? && table[p].target == n))
    case RebalancePartitions(nodes) => Rebalanced(ord(table), table, nodes, p)
    case InitialAssign(count, _) => table == map[] && p < count
    case _ => false
  }

  /** What an accepted request says about `p`. */
  ghost predicate Says(req: Request, p: Pid, o: Option<Ownership>) {
    match req
    case AssignPartition(_, n) => o == Some(Owned(n))
    case AbortTransfer(_, n) => o == Some(Owned(n))
    case BeginTransfer(_, source, target) => o == Some(Transferring(source, target))
    case CompleteTransfer(_, n) => o == Some(Owned(n))
    case RebalancePartitions(nodes) => o.Some? && o.value.Owned? && (Distinct(nodes) ==> o.value.node in nodes)
    case InitialAssign(_, nodes) => nodes != [] && o == Some(Owned(nodes[p % |nodes|]))
    case _ => false
  }

  lemma {:induction false} MovedIsOwned(table: Table, moves: seq<ComputeRebalance.Move>, k: nat)
    requires k < |moves|
    ensures var t := ComputeRebalance.ApplyMoves(table, moves); moves[k].p in t && t[moves[k].p].Owned?
    decreases |moves|
  {
    var t, p := table[moves[0].p := Owned(moves[0].to)], moves[k].p;
    if j :| 1 <= j < |moves| && moves[j].p == p {
      assert moves[1..][j - 1].p == p;
      MovedIsOwned(t, moves[1..], j - 1);
    } else {
      ComputeRebalance.ApplyMovesElsewhere(t, moves[1..], p);
    }
  }

  lemma RebalanceSays(order: seq<Pid>, table: Table, nodes: seq<NodeId>, p: Pid)
    requires Enumerates(order, table.Keys)
    ensures var t := ComputeRebalance.ApplyMoves(table, ComputeRebalance.Moves(table, order, nodes));
            if Rebalanced(order, table, nodes, p) then Says(RebalancePartitions(nodes), p, Get(t, p))
            else Get(t, p) == Get(table, p)
  {
    hide ComputeRebalance.Moves, ComputeRebalance.ApplyMoves;
    var moves := ComputeRebalance.Moves(table, order, nodes);
    if k :| 0 <= k < |moves| && moves[k].p == p {
      MovedIsOwned(table, moves, k);
      RebalanceMovesKnown(order, table, nodes);
      if Distinct(nodes) {
        RebalanceHandsOver(order, table, nodes, p);
      }
    } else {
      ComputeRebalance.ApplyMovesElsewhere(table, moves, p);
    }
  }

  lemma InitialSays(count: U16, nodes: seq<NodeId>, p: Pid)
    requires nodes != []
    ensures var t := ComputeRebalance.AssignAll(map[], InitialAssignment.RoundRobin(count, nodes));
            Get(t, p) == if p < count then Some(Owned(nodes[p % |nodes|])) else None
  {
    hide ComputeRebalance.AssignAll, InitialAssignment.RoundRobin;
    InitialAssignment.InitialIsDealt(count, nodes);
  }

  lemma EntryAfter(ord: Order, s: ClusterSnapshot, req: Request, p: Pid)
    requires Iterates(ord) && ClusterState.Apply(ord, s, req).Applied?
    ensures var o := Get(ClusterState.Apply(ord, s, req).state.table, p);
            if Settles(ord, s.table, req, p) then Says(req, p, o) else o == Get(s.table, p)
  {
    hide ComputeRebalance.Moves, ComputeRebalance.ApplyMoves, ComputeRebalance.AssignAll, InitialAssignment.RoundRobin,
         Merge;
    if req.RebalancePartitions? {
      RebalanceSays(ord(s.table), s.table, req.nodes, p);
    } else if req.InitialAssign? && s.table == map[] {
      InitialSays(req.count, req.nodes, p);
    }
  }

  /** The last request of the log that was accepted and said something about `p`. */
  ghost function LastSettled(ord: Order, log: seq<Committed>, p: Pid): (req: Option<Request>)
    requires Iterates(ord)
  {
    if log == [] then None
    else
      var init, req := log[..|log| - 1], RequestOf(log[|log| - 1]);
      var before := ApplyAll(ord, Empty, init);
      if req.Some? && before.Some? && Settles(ord, before.value.state.table, req.value, p) then req
      else LastSettled(ord, init, p)
  }

  lemma TableAfter(ord: Order, m: Machine, e: Committed, p: Pid)
    requires Iterates(ord) && ApplyEntry(ord, m, e).Some?
    ensures var o, req := Get(ApplyEntry(ord, m, e).value.state.table, p), RequestOf(e);
            if req.Some? && Settles(ord, m.state.table, req.value, p) then Says(req.value, p, o)
            else o == Get(m.state.table, p)
  {
    hide Iterates, ClusterState.Apply, Settles, Says;
    if RequestOf(e).Some? {
      EntryAfter(ord, m.state.(lastIndex := e.id.index, lastTerm := e.id.term), RequestOf(e).value, p);
    }
  }

  /** After every log, each partition's entry is what the last accepted request about it said, and a partition nobody
      said anything about has none. */
  lemma {:induction false} TableIsAsLastSettled(ord: Order, log: seq<Committed>, p: Pid)
    requires Iterates(ord) && ApplyAll(ord, Empty, log).Some?
    ensures var o, last := Get(ApplyAll(ord, Empty, log).value.state.table, p), LastSettled(ord, log, p);
            if last.Some? then Says(last.value, p, o) else o == None
  {
    hide Iterates, ApplyAll, ApplyEntry, Settles, Says;
    if log == [] {
      NothingToApply(ord, Empty);
    } else {
      var init, e := log[..|log| - 1], log[|log| - 1];
      assert log == init + [e];
      OneMore(ord, Empty, init, e);
      TableIsAsLastSettled(ord, init, p);
      TableAfter(ord, ApplyAll(ord, Empty, init).value, e, p);
    }
  }

  // ── Panics and replies ───────────────────────────────────────────────────

  /** An entry panics exactly when it asks for an initial assignment to no nodes while the table is empty. */
  lemma PanicsIff(ord: Order, m: Machine, e: Committed)
    requires Iterates(ord)
    ensures ApplyEntry(ord, m, e).None?
       <==> RequestOf(e).Some? && RequestOf(e).value.InitialAssign? && RequestOf(e).value.nodes == []
            && m.state.table == map[]
  {
    hide Iterates, Merge, AfterRebalance, ComputeRebalance.AssignAll, InitialAssignment.RoundRobin;
  }

  /** Every reply but a registry applier's is `Ok`, except to a transfer begun away from its owner, or
      completed where neither in flight nor done; and a request that is refused leaves everything but the
      stamp as it was. */
  lemma RefusedIff(ord: Order, registry: seq<nat> -> Response, m: Machine, e: Committed)
    requires Iterates(ord) && ApplyEntry(ord, m, e).Some?
    ensures !(e.payload.Normal? && e.payload.req.Registry?) ==>
              (Told(ord, registry, m, e) == Error <==>
               && RequestOf(e).Some? && (RequestOf(e).value.BeginTransfer? || RequestOf(e).value.CompleteTransfer?)
               && !Settles(ord, m.state.table, RequestOf(e).value, RequestOf(e).value.p))
    ensures Told(ord, registry, m, e) == Error && RequestOf(e).Some? ==>
              SameButStamp(ApplyEntry(ord, m, e).value.state, m.state)
    ensures e.payload.Normal? && e.payload.req.Registry? ==>
              && Told(ord, registry, m, e) == registry(e.payload.req.payload)
              && SameButStamp(ApplyEntry(ord, m, e).value.state, m.state)
  {
    hide Iterates, Merge, AfterRebalance, ComputeRebalance.AssignAll, InitialAssignment.RoundRobin;
  }
}
