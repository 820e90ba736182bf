/** The phases of one partition transfer. */
module Transfer {
  import opened Wrappers
  import opened PartitionTable

  datatype TransferState =
    | Idle
    | BulkSync(source: NodeId, target: NodeId, progress: nat, total: nat)
    | Cutover(source: NodeId, target: NodeId)
    | Complete(newOwner: NodeId)
    | Aborted(revertedTo: NodeId)

  predicate Active(s: TransferState) {
    s.BulkSync? || s.Cutover?
  }

  function Begun(s: TransferState, source: NodeId, target: NodeId): (r: Option<TransferState>) {
    if s.Idle? then Some(BulkSync(source, target, 0, 0)) else None
  }

  function CutOver(s: TransferState): (r: Option<TransferState>) {
    if s.BulkSync? then Some(Cutover(s.source, s.target)) else None
  }

  function Completed(s: TransferState): (r: Option<TransferState>) {
    if s.Cutover? then Some(Complete(s.target)) else None
  }

  function AbortedFrom(s: TransferState): (r: Option<TransferState>) {
    if Active(s) then Some(Aborted(s.source)) else None
  }

  // ── The life of a tracker ────────────────────────────────────────────────

  datatype TrackerCall =
    | Begins(source: NodeId, target: NodeId)
    | CutsOver
    | Finishes
    | Aborts
    | Progresses(bytes: nat, total: nat)
    | Resets

  function Progressed(s: TransferState, bytes: nat, total: nat): (s': TransferState) {
    if s.BulkSync? then s.(progress := bytes, total := total) else s
  }

  /** The state after a call that succeeds; nothing for one that is refused. */
  function AfterCall(s: TransferState, c: TrackerCall): (r: Option<TransferState>) {
    match c
    case Begins(a, b) => Begun(s, a, b)
    case CutsOver => CutOver(s)
    case Finishes => Completed(s)
    case Aborts => AbortedFrom(s)
    case Progresses(n, total) => Some(Progressed(s, n, total))
    case Resets => Some(Idle)
  }

  /** The state after a sequence of calls on a new tracker; refused calls leave it alone. */
  function AfterCalls(calls: seq<TrackerCall>): (s: TransferState) {
    if calls == [] then Idle
    else
      var s := AfterCalls(calls[..|calls| - 1]);
      var r := AfterCall(s, calls[|calls| - 1]);
      if r.Some? then r.value else s
  }

  /** The phase changes since the last reset, in order. */
  function Phases(calls: seq<TrackerCall>): (w: seq<TrackerCall>) {
    if calls == [] then []
    else
      var init, c := calls[..|calls| - 1], calls[|calls| - 1];
      if c.Resets? then []
      else if c.Progresses? || AfterCall(AfterCalls(init), c).None? then Phases(init)
      else Phases(init) + [c]
  }

  /** The histories a transfer can have: begun, cut over, finished, in that order, and aborted at any point between. */
  predicate IsHistory(w: seq<TrackerCall>) {
    || w == []
    || (w[0].Begins? &&
        (w[1..] == [] || w[1..] == [CutsOver] || w[1..] == [CutsOver, Finishes] || w[1..] == [Aborts]
         || w[1..] == [CutsOver, Aborts]))
  }

  /** The state a history leaves, up to the progress of a bulk sync. */
  predicate IsLeftBy(w: seq<TrackerCall>, s: TransferState)
    requires IsHistory(w)
  {
    if w == [] then s == Idle
    else
      var a, b := w[0].source, w[0].target;
      if |w| == 1 then s.BulkSync? && s.source == a && s.target == b
      else if w[|w| - 1] == CutsOver then s == Cutover(a, b)
      else if w[|w| - 1] == Finishes then s == Complete(b)
      else s == Aborted(a)
  }

  lemma HistoryGoesOn(w: seq<TrackerCall>, s: TransferState, c: TrackerCall)
    requires IsHistory(w) && IsLeftBy(w, s) && !c.Resets? && !c.Progresses?
    ensures AfterCall(s, c).Some? <==> IsHistory(w + [c])
    ensures AfterCall(s, c).Some? ==> IsLeftBy(w + [c], AfterCall(s, c).value)
  {
    if w == [] {
      assert w + [c] == [c];
    } else {
      var rest := w[1..] + [c];
      assert (w + [c])[1..] == rest;
      if w[1..] == [] {
        assert rest == [c];
      } else if w[1..] == [CutsOver] {
        assert rest == [CutsOver, c];
      } else {
        assert rest[0] == w[1] && |rest| >= 2 && (rest[0] == Aborts || |rest| == 3);
      }
    }
  }

  /** Whatever is called on a tracker, in whatever order: a call is accepted exactly when it continues the history, and
      the state is the one the history leaves. */
  lemma {:induction false} TrackerFollowsHistory(calls: seq<TrackerCall>, c: TrackerCall)
    ensures IsHistory(Phases(calls)) && IsLeftBy(Phases(calls), AfterCalls(calls))
    ensures !c.Resets? && !c.Progresses? ==>
              (AfterCall(AfterCalls(calls), c).Some? <==> IsHistory(Phases(calls) + [c]))
  {
    hide AfterCall, IsHistory, IsLeftBy;
    if calls == [] {
      FreshHistory();
    } else {
      var init, last := calls[..|calls| - 1], calls[|calls| - 1];
      TrackerFollowsHistory(init, last);
      if last.Resets? || last.Progresses? {
        QuietCall(Phases(init), AfterCalls(init), last);
      } else {
        HistoryGoesOn(Phases(init), AfterCalls(init), last);
      }
    }
    if !c.Resets? && !c.Progresses? {
      HistoryGoesOn(Phases(calls), AfterCalls(calls), c);
    }
  }

  lemma FreshHistory()
    ensures IsHistory([]) && IsLeftBy([], Idle)
  {
  }

  lemma QuietCall(w: seq<TrackerCall>, s: TransferState, c: TrackerCall)
    requires IsHistory(w) && IsLeftBy(w, s) && (c.Resets? || c.Progresses?)
    ensures AfterCall(s, c).Some? && IsHistory([])
    ensures if c.Resets? then IsLeftBy([], AfterCall(s, c).value) else IsLeftBy(w, AfterCall(s, c).value)
    ensures c.Progresses? && s.BulkSync? ==>
              AfterCall(s, c).value.progress == c.bytes && AfterCall(s, c).value.total == c.total
  {
  }

  class TransferTracker {
    const partition: Pid
    var state: TransferState

    constructor (partition: Pid)
      ensures this.partition == partition && state == Idle
    {
      this.partition := partition;
      state := Idle;
    }

    method Begin(source: NodeId, target: NodeId) returns (ok: bool)
      modifies this
      ensures ok == Begun(old(state), source, target).Some?
      ensures state == if ok then Begun(old(state), source, target).value else old(state)
    {
      ok := state.Idle?;
      if ok {
        state := BulkSync(source, target, 0, 0);
      }
    }

    method BeginCutover() returns (ok: bool)
      modifies this
      ensures ok == CutOver(old(state)).Some?
      ensures state == if ok then CutOver(old(state)).value else old(state)
    {
      ok := state.BulkSync?;
      if ok {
        state := Cutover(state.source, state.target);
      }
    }

    /** The new owner, if the transfer was in cutover. */
    method Finish() returns (owner: Option<NodeId>)
      modifies this
      ensures owner.Some? <==> Completed(old(state)).Some?
      ensures state == if owner.Some? then Completed(old(state)).value else old(state)
      ensures owner.Some? ==> state == Complete(owner.value)
    {
      match state {
        case Cutover(_, target) =>
          state := Complete(target);
          owner := Some(target);
        case _ => owner := None;
      }
    }

    /** The node the partition reverts to, if a transfer was active. */
    method Abort() returns (reverted: Option<NodeId>)
      modifies this
      ensures reverted.Some? <==> AbortedFrom(old(state)).Some?
      ensures state == if reverted.Some? then AbortedFrom(old(state)).value else old(state)
      ensures reverted.Some? ==> state == Aborted(reverted.value)
    {
      match state {
        case BulkSync(source, _, _, _) =>
          state := Aborted(source);
          reverted := Some(source);
        case Cutover(source, _) =>
          state := Aborted(source);
          reverted := Some(source);
        case _ => reverted := None;
      }
    }

    method UpdateProgress(bytes: nat, total: nat)
      modifies this
      ensures state == Progressed(old(state), bytes, total)
    {
      if state.BulkSync? {
        state := state.(progress := bytes, total := total);
      }
    }

    method Reset()
      modifies this
      ensures state == Idle
    {
      state := Idle;
    }
  }
}
