/** How a drive ends: when it succeeds, when it fails, and that it ends. */
module DriverOutcome {
  import opened Naturals
  import opened Wrappers
  import opened PartitionTable
  import opened ClusterState
  import opened Transfer
  import opened Driver

  // ── One move ─────────────────────────────────────────────────────────────

  /** The drive is giving up, or has. */
  predicate Failing(pc: Pc) {
    pc.Aborting? || pc.ProposeAbort? || pc.AwaitAbort? || pc == Cleaning(false) || pc == Returned(false)
  }

  /** A completion for `n` would be refused: the partition is neither on its way to `n` nor there. */
  predicate Refused(entry: Option<Ownership>, n: NodeId) {
    entry.None? || (entry.value != Owned(n) && !(entry.value.Transferring? && entry.value.target == n))
  }

  /** What makes a drive give up: it is not for this node or the partition is being driven already; an awaited call
      fails; or the completion is refused. */
  predicate Breaks(me: NodeId, d: Drive, slot: Option<TransferState>, entry: Option<Ownership>, ok: bool) {
    match d.pc
    case Entering => d.target != me || slot.Some?
    case Connecting => !ok
    case BulkWait => !ok
    case PohWait => !ok
    case CutWait => !ok
    case AwaitComplete => !ok || Refused(entry, d.target)
    case _ => false
  }

  /** How far a drive that has not failed has come. */
  function Rank(pc: Pc): (n: nat) {
    match pc
    case Connecting => 1
    case BeginBulk => 2
    case BulkWait => 3
    case BeginCut => 4
    case PohWait => 5
    case CutWait => 6
    case ProposeComplete => 7
    case AwaitComplete => 8
    case MarkComplete => 9
    case Cleaning(_) => 10
    case Returned(_) => 11
    case _ => 0
  }

  const MOVES := 11

  lemma MoveFailsIff(me: NodeId, d: Drive, slot: Option<TransferState>, entry: Option<Ownership>, ok: bool)
    requires Fits(me, d, slot, entry)
    ensures var pc := DriveStep(me, d, slot, entry, ok).pc;
            && (Failing(pc) <==> Failing(d.pc) || Breaks(me, d, slot, entry, ok))
            && (!Failing(pc) ==> Rank(pc) == Min(MOVES, Rank(d.pc) + 1))
  {
    hide TrailFits, EntryFits;
  }

  /** At most how many moves are left before the drive returns. */
  function Left(pc: Pc): (n: nat) {
    match pc
    case Returned(_) => 0
    case Cleaning(_) => 1
    case AwaitAbort => 2
    case MarkComplete => 2
    case ProposeAbort => 3
    case Aborting => 4
    case _ => 13 - Rank(pc)
  }

  lemma MoveNearsEnd(me: NodeId, d: Drive, slot: Option<TransferState>, entry: Option<Ownership>, ok: bool)
    ensures var pc := DriveStep(me, d, slot, entry, ok).pc; d.pc.Returned? || Left(pc) < Left(d.pc)
    ensures d.pc.Returned? ==> DriveStep(me, d, slot, entry, ok).pc == d.pc
  {
  }

  // ── One label ────────────────────────────────────────────────────────────

  ghost predicate BreaksNow(s: Sys, l: Label, i: nat) {
    && l.Advance? && l.id == i && i < |s.drives|
    && Breaks(s.me, s.drives[i], Slot(s.trackers, s.drives[i].p), Entry(s.table, s.drives[i].p), l.ok)
  }

  predicate Turn(l: Label, i: nat) {
    l.Advance? && l.id == i
  }

  lemma LabelMoves(s: Sys, l: Label, i: nat)
    requires Inv(s) && i < |s.drives|
    ensures var d, s' := s.drives[i], Step(s, l);
            && i < |s'.drives| && s'.drives[i].p == d.p && s'.drives[i].source == d.source
            && s'.drives[i].target == d.target
            && (d.touched ==> s'.drives[i].touched)
            && (Failing(s'.drives[i].pc) <==> Failing(d.pc) || BreaksNow(s, l, i))
            && (!Failing(s'.drives[i].pc) ==>
                  Rank(s'.drives[i].pc) == Min(MOVES, Rank(d.pc) + if Turn(l, i) then 1 else 0))
            && Left(s'.drives[i].pc) <= Left(d.pc)
            && (Turn(l, i) && !d.pc.Returned? ==> Left(s'.drives[i].pc) < Left(d.pc))
  {
    hide DriveStep, Fits, Entry, Slot, Put, InFlight, Breaks;
    var d := s.drives[i];
    assert DriveOk(s, d);
    if Turn(l, i) {
      MoveFailsIff(s.me, d, Slot(s.trackers, d.p), Entry(s.table, d.p), l.ok);
      MoveNearsEnd(s.me, d, Slot(s.trackers, d.p), Entry(s.table, d.p), l.ok);
    }
  }

  // ── Whole runs ───────────────────────────────────────────────────────────

  /** Some move of drive `i` in the run is one that makes it give up. */
  ghost predicate EverBreaks(s: Sys, ls: seq<Label>, i: nat)
    decreases |ls|
  {
    ls != [] && (BreaksNow(s, ls[0], i) || EverBreaks(Step(s, ls[0]), ls[1..], i))
  }

  /** How many moves drive `i` makes. */
  function Turns(ls: seq<Label>, i: nat): (n: nat)
    decreases |ls|
  {
    if ls == [] then 0 else (if Turn(ls[0], i) then 1 else 0) + Turns(ls[1..], i)
  }

  lemma {:induction false} RunMoves(s: Sys, ls: seq<Label>, i: nat)
    requires Inv(s) && i < |s.drives|
    ensures var d, s' := s.drives[i], Run(s, ls);
            && i < |s'.drives| && s'.drives[i].p == d.p && s'.drives[i].source == d.source
            && s'.drives[i].target == d.target
            && (d.touched ==> s'.drives[i].touched)
            && (Failing(s'.drives[i].pc) <==> Failing(d.pc) || EverBreaks(s, ls, i))
            && (!Failing(s'.drives[i].pc) ==> Rank(s'.drives[i].pc) == Min(MOVES, Rank(d.pc) + Turns(ls, i)))
            && (Turns(ls, i) >= Left(d.pc) ==> s'.drives[i].pc.Returned?)
    decreases |ls|
  {
    hide Inv, Step, BreaksNow, Failing, Rank, Turn;
    RankBound(s.drives[i].pc);
    if ls != [] {
      LabelMoves(s, ls[0], i);
      StepKeepsInv(s, ls[0]);
      RunMoves(Step(s, ls[0]), ls[1..], i);
    }
  }

  lemma RankBound(pc: Pc)
    ensures Rank(pc) <= MOVES && (Left(pc) == 0 <==> pc.Returned?)
  {
  }

  /** A drive fails exactly when one of its moves breaks it, over every interleaving with other drives, other writers
      and proposals in doubt. */
  lemma {:induction false} FailsIffFrom(s: Sys, ls: seq<Label>, i: nat)
    requires Inv(s) && i >= |s.drives| && i < |Run(s, ls).drives|
    ensures Failing(Run(s, ls).drives[i].pc) <==> EverBreaks(s, ls, i)
    decreases |ls|
  {
    hide Inv, BreaksNow, Failing, DriveStep;
    var s' := Step(s, ls[0]);
    StepKeepsInv(s, ls[0]);
    assert !BreaksNow(s, ls[0], i) by { NotYet(s, ls[0], i); }
    if i < |s'.drives| {
      assert s'.drives[i].pc == Entering;
      RunMoves(s', ls[1..], i);
      assert !Failing(Entering) by { NotFailing(); }
    } else {
      FailsIffFrom(s', ls[1..], i);
    }
  }

  lemma NotYet(s: Sys, l: Label, i: nat)
    requires i >= |s.drives|
    ensures !BreaksNow(s, l, i)
  {
  }

  lemma NotFailing()
    ensures !Failing(Entering)
  {
  }

  /** A drive that has returned failed if and only if it was refused at the start, one of its awaited calls failed, or
      its completion was refused. */
  lemma FailsIff(me: NodeId, table: Table, ls: seq<Label>, i: nat)
    requires i < |Run(Boot(me, table), ls).drives| && Run(Boot(me, table), ls).drives[i].pc.Returned?
    ensures !Run(Boot(me, table), ls).drives[i].pc.ok <==> EverBreaks(Boot(me, table), ls, i)
  {
    hide Run, EverBreaks;
    FailsIffFrom(Boot(me, table), ls, i);
  }

  /** Every drive returns: thirteen moves of its own are enough, whatever happens. */
  lemma DriveReturns(s: Sys, ls: seq<Label>, i: nat)
    requires Inv(s) && i < |s.drives| && Turns(ls, i) >= 13
    ensures i < |Run(s, ls).drives| && Run(s, ls).drives[i].pc.Returned?
  {
    hide Inv, Run, Turns;
    RunMoves(s, ls, i);
  }

  // ── The transfer that goes well ──────────────────────────────────────────

  /** Every awaited call of drive `i` succeeds, and nobody is driving its partition when it starts. */
  ghost predicate Smooth(s: Sys, ls: seq<Label>, i: nat)
    decreases |ls|
  {
    ls == [] || (SmoothNow(s, ls[0], i) && Smooth(Step(s, ls[0]), ls[1..], i))
  }

  ghost predicate SmoothNow(s: Sys, l: Label, i: nat) {
    Turn(l, i) && i < |s.drives| ==>
      l.ok && (s.drives[i].pc.Entering? ==> s.drives[i].target == s.me && s.drives[i].p !in s.trackers)
  }

  lemma SmoothIsUnbroken(s: Sys, l: Label, i: nat)
    requires Inv(s) && i < |s.drives| && !s.drives[i].touched && SmoothNow(s, l, i)
    ensures !BreaksNow(s, l, i)
  {
    hide TrailFits, TrackerFits, Exclusive, NoLeak;
    assert DriveOk(s, s.drives[i]);
  }

  lemma {:induction false} SmoothNeverBreaks(s: Sys, ls: seq<Label>, i: nat)
    requires Inv(s) && i < |s.drives| && Smooth(s, ls, i)
    requires i < |Run(s, ls).drives| && !Run(s, ls).drives[i].touched
    ensures !EverBreaks(s, ls, i)
    decreases |ls|
  {
    hide Inv, Step, BreaksNow, SmoothNow, Failing, Rank, Turn;
    if ls != [] {
      RunMoves(s, ls, i);
      SmoothIsUnbroken(s, ls[0], i);
      StepKeepsInv(s, ls[0]);
      LabelMoves(s, ls[0], i);
      SmoothNeverBreaks(Step(s, ls[0]), ls[1..], i);
    }
  }

  /** For every partition and source, and over every interleaving: a called drive whose partition nobody else touches,
      whose awaited calls all succeed and which makes its eleven moves returns success, and the partition is owned by
      the target. */
  lemma UndisturbedSucceeds(s: Sys, p: Pid, source: NodeId, ls: seq<Label>)
    requires Inv(s)
    requires var s0, i := Step(s, Call(p, source, s.me)), |s.drives|;
             && Smooth(s0, ls, i) && Turns(ls, i) >= MOVES
             && i < |Run(s0, ls).drives| && !Run(s0, ls).drives[i].touched
    ensures var s' := Run(Step(s, Call(p, source, s.me)), ls);
            s'.drives[|s.drives|].pc == Returned(true) && Entry(s'.table, p) == Some(Owned(s.me))
  {
    hide Run, Smooth, Turns, EverBreaks, TrailFits, TrackerFits, Exclusive, NoLeak;
    var s0, i := Step(s, Call(p, source, s.me)), |s.drives|;
    CallKeepsInv(s, p, source, s.me);
    SmoothNeverBreaks(s0, ls, i);
    RunMoves(s0, ls, i);
    RunKeepsInv(s0, ls);
    var s' := Run(s0, ls);
    assert DriveOk(s', s'.drives[i]);
    assert Rank(s'.drives[i].pc) == MOVES;
  }

  function Times(l: Label, n: nat): (ls: seq<Label>) {
    seq(n, _ => l)
  }

  lemma {:induction false} AloneIsSmooth(s: Sys, i: nat, n: nat)
    requires Inv(s) && i < |s.drives| && !s.drives[i].touched
    requires s.drives[i].pc.Entering? ==> s.drives[i].target == s.me && s.drives[i].p !in s.trackers
    ensures var ls := Times(Advance(i, true), n);
            && Smooth(s, ls, i) && Turns(ls, i) == n
            && i < |Run(s, ls).drives| && !Run(s, ls).drives[i].touched
    decreases n
  {
    hide Inv, DriveStep, Put;
    if n > 0 {
      var l := Advance(i, true);
      assert Times(l, n)[1..] == Times(l, n - 1);
      var s' := Step(s, l);
      StepKeepsInv(s, l);
      assert !s'.drives[i].touched && s'.drives[i].p == s.drives[i].p;
      NeverEntersAgain(s.me, s.drives[i], Slot(s.trackers, s.drives[i].p), Entry(s.table, s.drives[i].p));
      AloneIsSmooth(s', i, n - 1);
    }
  }

  lemma NeverEntersAgain(me: NodeId, d: Drive, slot: Option<TransferState>, entry: Option<Ownership>)
    ensures !DriveStep(me, d, slot, entry, true).pc.Entering?
  {
  }

  /** In particular, left alone and with nothing failing, a drive of a transfer to this node hands the partition
      over. */
  lemma AloneSucceeds(me: NodeId, table: Table, p: Pid, source: NodeId)
    requires p in table && table[p] == Transferring(source, me)
    ensures var s' := Run(Boot(me, table), [Call(p, source, me)] + Times(Advance(0, true), MOVES));
            |s'.drives| > 0 && s'.drives[0].pc == Returned(true) && Entry(s'.table, p) == Some(Owned(me))
  {
    hide Run, Smooth, Turns, Times, Inv;
    var s, ls := Boot(me, table), Times(Advance(0, true), MOVES);
    RunFirst(s, Call(p, source, me), ls);
    BootInv(me, table);
    CallKeepsInv(s, p, source, me);
    AloneIsSmooth(Step(s, Call(p, source, me)), 0, MOVES);
    UndisturbedSucceeds(s, p, source, ls);
  }

  lemma BootInv(me: NodeId, table: Table)
    ensures Inv(Boot(me, table))
  {
  }

  // ── Proposals in doubt ───────────────────────────────────────────────────

  /** A proposal whose outcome the drive never learns may still commit: the drive fails, and yet the partition goes to
      its target; or the abort that seemed to fail gives it back later. */
  lemma DoubtfulProposalsLand(s: Sys, i: nat)
    requires i < |s.drives| && s.drives[i].p in s.table
    ensures var d, s' := s.drives[i], Step(s, Advance(i, false));
            && (d.pc.AwaitComplete? && !Refused(Entry(s.table, d.p), d.target) ==>
                  && Failing(s'.drives[i].pc) && s'.table == s.table && |s'.orphans| == |s.orphans| + 1
                  && Step(s', OrphanCommits(|s.orphans|)).table == s.table[d.p := Owned(d.target)])
            && (d.pc.AwaitAbort? ==>
                  && s'.drives[i].pc == Cleaning(false) && s'.table == s.table && |s'.orphans| == |s.orphans| + 1
                  && Step(s', OrphanCommits(|s.orphans|)).table == s.table[d.p := Owned(d.source)])
  {
    var d := s.drives[i];
    assert s.table[d.p := s.table[d.p]] == s.table;
  }

  /** A completion in doubt that commits later hands the partition over exactly when it is in transfer to that node from
      another; and no other partition is concerned. */
  lemma OrphanCompletionTakesIff(s: Sys, k: nat, q: Pid)
    requires k < |s.orphans| && s.orphans[k].CompleteTransfer?
    ensures var (p, n, t) := (s.orphans[k].p, s.orphans[k].newOwner, Step(s, OrphanCommits(k)).table);
            && (ActiveOf(t, p) != ActiveOf(s.table, p) <==>
                p in s.table && s.table[p].Transferring? && s.table[p].target == n && s.table[p].source != n)
            && (Entry(t, p) == Some(Owned(n)) <==> !Refused(Entry(s.table, p), n))
            && (q != p ==> Entry(t, q) == Entry(s.table, q))
  {
  }

  /** How many proposals of the run end in doubt. */
  ghost function Doubts(s: Sys, ls: seq<Label>): (n: nat)
    decreases |ls|
  {
    if ls == [] then 0
    else (if InDoubt(s, ls[0]) then 1 else 0) + Doubts(Step(s, ls[0]), ls[1..])
  }

  /** The awaited proposal reports failure. */
  predicate InDoubt(s: Sys, l: Label) {
    && l.Advance? && l.id < |s.drives| && !l.ok
    && (s.drives[l.id].pc.AwaitComplete? || s.drives[l.id].pc.AwaitAbort?)
  }

  /** How many of them commit after all. */
  ghost function LateCommits(s: Sys, ls: seq<Label>): (n: nat)
    decreases |ls|
  {
    if ls == [] then 0
    else
      (if ls[0].OrphanCommits? && ls[0].k < |s.orphans| then 1 else 0) + LateCommits(Step(s, ls[0]), ls[1..])
  }

  lemma DoubtOne(s: Sys, l: Label)
    ensures |Step(s, l).orphans| + (if l.OrphanCommits? && l.k < |s.orphans| then 1 else 0)
         == |s.orphans| + if InDoubt(s, l) then 1 else 0
  {
    hide DriveStep, Put;
    if l.Advance? && l.id < |s.drives| {
      var d := s.drives[l.id];
      LeavesDoubt(s.me, d, Slot(s.trackers, d.p), Entry(s.table, d.p), l.ok);
    }
  }

  lemma LeavesDoubt(me: NodeId, d: Drive, slot: Option<TransferState>, entry: Option<Ownership>, ok: bool)
    ensures DriveStep(me, d, slot, entry, ok).orphan.Some? <==> !ok && (d.pc.AwaitComplete? || d.pc.AwaitAbort?)
  {
    hide Begun, CutOver, Completed, AbortedFrom;
  }

  /** Every proposal in doubt commits at most once, and none is invented: those that have committed and those still open
      are the ones the run left in doubt. */
  lemma {:induction false} DoubtsAddUp(s: Sys, ls: seq<Label>)
    ensures |Run(s, ls).orphans| + LateCommits(s, ls) == |s.orphans| + Doubts(s, ls)
    decreases |ls|
  {
    hide Step, InDoubt;
    if ls != [] {
      DoubtOne(s, ls[0]);
      DoubtsAddUp(Step(s, ls[0]), ls[1..]);
    }
  }

  // ── Tracker errors ───────────────────────────────────────────────────────

  /** The tracker call a drive makes at its place, if it makes one. */
  function CallAt(d: Drive): (c: Option<TrackerCall>) {
    match d.pc
    case BeginBulk => Some(Begins(d.source, d.target))
    case BeginCut => Some(CutsOver)
    case MarkComplete => Some(Finishes)
    case Aborting => Some(Aborts)
    case _ => None
  }

  predicate Propagated(pc: Pc) {
    pc.BeginBulk? || pc.BeginCut?
  }

  /** The tracker refuses the drive's call, or is missing where the error is propagated. */
  predicate TrackerRefuses(d: Drive, slot: Option<TransferState>) {
    CallAt(d).Some? && if slot.Some? then AfterCall(slot.value, CallAt(d).value).None? else Propagated(d.pc)
  }

  lemma TrackerAnswer(me: NodeId, d: Drive, slot: Option<TransferState>, entry: Option<Ownership>, ok: bool)
    ensures var e, c := DriveStep(me, d, slot, entry, ok), CallAt(d);
            && e.error == TrackerRefuses(d, slot)
            && (e.error ==> e.slot == slot && (Propagated(d.pc) ==> e.pc == Cleaning(false)))
            && (c.Some? && !e.error && slot.Some? ==> e.slot == AfterCall(slot.value, c.value))
            && (!Propagated(d.pc) && c.Some? ==> e.pc == if d.pc.Aborting? then ProposeAbort else Cleaning(true))
  {
    hide Begun, CutOver, Completed, AbortedFrom, CompleteEntry;
  }

  /** The count of tracker errors is honest: it rises exactly when a tracker refuses the drive's call, or when the
      tracker is missing where its error would be propagated. An error that is propagated ends the drive; another does
      not stop it. */
  lemma ErrorsAreCounted(s: Sys, i: nat, ok: bool)
    requires i < |s.drives|
    ensures var d, s' := s.drives[i], Step(s, Advance(i, ok));
            var c, slot := CallAt(d), Slot(s.trackers, d.p);
            var refused := TrackerRefuses(d, slot);
            && s'.trackerErrors == s.trackerErrors + (if refused then 1 else 0)
            && (refused && Propagated(d.pc) ==> s'.drives[i].pc == Cleaning(false))
            && (c.Some? && !refused && slot.Some? ==> Slot(s'.trackers, d.p) == AfterCall(slot.value, c.value))
            && (refused ==> Slot(s'.trackers, d.p) == slot)
            && (!Propagated(d.pc) && c.Some? ==>
                  s'.drives[i].pc == if d.pc.Aborting? then ProposeAbort else Cleaning(true))
  {
    hide DriveStep, TrackerRefuses, Propagated, CallAt, AfterCall, Entry;
    var d := s.drives[i];
    TrackerAnswer(s.me, d, Slot(s.trackers, d.p), Entry(s.table, d.p), ok);
  }

  /** So is the record of a completion's outcome: refused exactly when the partition was neither on its way to the
      target nor there, and otherwise applied as owned by the target. */
  lemma OutcomeIsRecorded(s: Sys, i: nat)
    requires i < |s.drives| && s.drives[i].pc.AwaitComplete?
    ensures var d, s' := s.drives[i], Step(s, Advance(i, true));
            var refused := Refused(Entry(s.table, d.p), d.target);
            && s'.drives[i].trail == Then(d.trail, if refused then Rejected else AppliedAs(Owned(d.target)))
            && Entry(s'.table, d.p) == if refused then Entry(s.table, d.p) else Some(Owned(d.target))
  {
  }
}
