/** The target-side transfer driver of one node: any number of drives, interleaved with each other and with everyone
    else's writes to the replicated partition table. */
module Driver {
  import opened Wrappers
  import opened PartitionTable
  import opened ClusterState
  import opened Transfer

  /** Where a drive is, between two awaits. */
  datatype Pc =
    | Entering          // about to claim the partition
    | Connecting        // resolving and dialling the source
    | BeginBulk         // tracker: idle to bulk sync
    | BulkWait          // receiving segments
    | BeginCut          // tracker: bulk sync to cutover
    | PohWait           // receiving and installing the chain state
    | CutWait           // waiting for the source to drain and freeze
    | ProposeComplete
    | AwaitComplete
    | MarkComplete      // tracker: cutover to complete
    | Aborting          // tracker: to aborted
    | ProposeAbort
    | AwaitAbort
    | Cleaning(ok: bool) // about to give the partition up
    | Returned(ok: bool)

  /** What a drive has done that others can see, in order. */
  datatype Mark =
    | Began
    | BulkOk
    | PohOk
    | CutOk
    | AskedComplete
    | AppliedAs(owner: Ownership)
    | Rejected
    | AskedAbort
    | Gave(ok: bool)

  /** The marks so far, oldest innermost. */
  datatype Trail = Start | Then(past: Trail, mark: Mark)

  /** `touched`: someone else has changed the partition's entry since the drive was called, or it was not this
      transfer then. */
  datatype Drive = Drive(p: Pid, source: NodeId, target: NodeId, pc: Pc, trail: Trail, touched: bool)

  /** `trackerErrors` counts tracker transitions that returned an error, propagated or discarded. `orphans` are
      proposals whose outcome the proposer never learned: they may still commit. */
  datatype Sys = Sys(
    me: NodeId,
    table: Table,
    trackers: map<Pid, TransferState>,
    drives: seq<Drive>,
    orphans: seq<Request>,
    trackerErrors: nat)

  datatype Label =
    | Call(p: Pid, source: NodeId, target: NodeId)
    | Advance(id: nat, ok: bool)   // `ok` is what the awaited call returns
    | OthersWrite(table: Table)    // anybody else's committed requests
    | OrphanCommits(k: nat)

  function Entry(t: Table, p: Pid): (o: Option<Ownership>) {
    if p in t then Some(t[p]) else None
  }

  function Slot(ts: map<Pid, TransferState>, p: Pid): (t: Option<TransferState>) {
    if p in ts then Some(ts[p]) else None
  }

  function Put<V>(m: map<Pid, V>, p: Pid, v: Option<V>): (m': map<Pid, V>) {
    if v.Some? then m[p := v.value] else m - {p}
  }

  function Touch(d: Drive, before: Table, after: Table): (d': Drive) {
    d.(touched := d.touched || Entry(before, d.p) != Entry(after, d.p))
  }

  /** What one move of a drive does: its next place and marks, its tracker slot and table entry afterwards, a proposal
      left in doubt, and whether a tracker transition failed. */
  datatype Effect = Effect(
    pc: Pc,
    mark: Option<Mark>,
    slot: Option<TransferState>,
    entry: Option<Ownership>,
    orphan: Option<Request>,
    error: bool)

  /** Only the drive moves. */
  function Moves(pc: Pc, mark: Option<Mark>, slot: Option<TransferState>, entry: Option<Ownership>): (e: Effect) {
    Effect(pc, mark, slot, entry, None, false)
  }

  /** A tracker transition whose error is propagated: the drive goes on to `pc`, or gives up. */
  function Tracks(r: Option<TransferState>, pc: Pc, mark: Option<Mark>, slot: Option<TransferState>,
                  entry: Option<Ownership>): (e: Effect)
  {
    if r.Some? then Effect(pc, mark, r, entry, None, false) else Effect(Cleaning(false), None, slot, entry, None, true)
  }

  /** A tracker transition whose error is discarded. */
  function TracksQuietly(r: Option<TransferState>, pc: Pc, slot: Option<TransferState>,
                         entry: Option<Ownership>): (e: Effect) {
    if slot.None? then Effect(pc, None, slot, entry, None, false)
    else if r.Some? then Effect(pc, None, r, entry, None, false)
    else Effect(pc, None, slot, entry, None, true)
  }

  /** `CompleteTransfer` on one entry of the table. */
  function CompleteEntry(entry: Option<Ownership>, n: NodeId): (r: (Option<Ownership>, Response)) {
    if entry.Some? && entry.value.Transferring? && entry.value.target == n then (Some(Owned(n)), Ok)
    else if entry == Some(Owned(n)) then (entry, Ok)
    else (entry, Error)
  }

  /** That is what the state machine does. */
  lemma CompleteIsApplied(t: Table, p: Pid, n: NodeId)
    ensures AfterComplete(t, p, n) == (Put(t, p, CompleteEntry(Entry(t, p), n).0), CompleteEntry(Entry(t, p), n).1)
  {
    assert p !in t ==> t - {p} == t;
    assert p in t ==> t[p := t[p]] == t;
  }

  function DriveStep(me: NodeId, d: Drive, slot: Option<TransferState>, entry: Option<Ownership>,
                     ok: bool): (e: Effect) {
    match d.pc
    case Entering =>
      if d.target != me || slot.Some? then Moves(Returned(false), Some(Gave(false)), slot, entry)
      else Moves(Connecting, None, Some(Idle), entry)
    case Connecting => Moves(if ok then BeginBulk else Cleaning(false), None, slot, entry)
    case BeginBulk =>
      var r := if slot.Some? then Begun(slot.value, d.source, d.target) else None;
      Tracks(r, BulkWait, Some(Began), slot, entry)
    case BulkWait => if ok then Moves(BeginCut, Some(BulkOk), slot, entry) else Moves(Aborting, None, slot, entry)
    case BeginCut => Tracks(if slot.Some? then CutOver(slot.value) else None, PohWait, None, slot, entry)
    case PohWait => if ok then Moves(CutWait, Some(PohOk), slot, entry) else Moves(Aborting, None, slot, entry)
    case CutWait => if ok then Moves(ProposeComplete, Some(CutOk), slot, entry) else Moves(Aborting, None, slot, entry)
    case ProposeComplete => Moves(AwaitComplete, Some(AskedComplete), slot, entry)
    case AwaitComplete =>
      if !ok then Effect(Aborting, None, slot, entry, Some(CompleteTransfer(d.p, d.target)), false)
      else
        var (after, resp) := CompleteEntry(entry, d.target);
        if resp == Ok && after.Some? then Moves(MarkComplete, Some(AppliedAs(after.value)), slot, after)
        else Moves(Aborting, Some(Rejected), slot, after)
    case MarkComplete => TracksQuietly(if slot.Some? then Completed(slot.value) else None, Cleaning(true), slot, entry)
    case Aborting => TracksQuietly(if slot.Some? then AbortedFrom(slot.value) else None, ProposeAbort, slot, entry)
    case ProposeAbort => Moves(AwaitAbort, Some(AskedAbort), slot, entry)
    case AwaitAbort =>
      if ok then Moves(Cleaning(false), None, slot, Some(Owned(d.source)))
      else Effect(Cleaning(false), None, slot, entry, Some(AbortTransfer(d.p, d.source)), false)
    case Cleaning(result) => Moves(Returned(result), Some(Gave(result)), None, entry)
    case Returned(_) => Moves(d.pc, None, slot, entry)
  }

  /** Others see the new table; drives of the same partition notice that its entry changed. */
  function Others(drives: seq<Drive>, before: Table, after: Table): (ds: seq<Drive>)
    ensures |ds| == |drives| && forall i :: 0 <= i < |ds| ==> ds[i] == Touch(drives[i], before, after)
  {
    seq(|drives|, i requires 0 <= i < |drives| => Touch(drives[i], before, after))
  }

  function Moved(d: Drive, e: Effect): (d': Drive) {
    d.(pc := e.pc, trail := if e.mark.Some? then Then(d.trail, e.mark.value) else d.trail)
  }

  function AdvanceDrive(s: Sys, id: nat, ok: bool): (s': Sys)
    requires id < |s.drives|
  {
    var d := s.drives[id];
    var e := DriveStep(s.me, d, Slot(s.trackers, d.p), Entry(s.table, d.p), ok);
    var table := Put(s.table, d.p, e.entry);
    Sys(s.me, table, Put(s.trackers, d.p, e.slot), Others(s.drives, s.table, table)[id := Moved(d, e)],
        if e.orphan.Some? then s.orphans + [e.orphan.value] else s.orphans,
        s.trackerErrors + if e.error then 1 else 0)
  }

  function CommitOrphan(t: Table, req: Request): (t': Table) {
    match req
    case CompleteTransfer(p, n) => AfterComplete(t, p, n).0
    case AbortTransfer(p, n) => t[p := Owned(n)]
    case _ => t
  }

  /** A committed write by someone else. */
  function Write(s: Sys, after: Table): (s': Sys) {
    s.(table := after, drives := Others(s.drives, s.table, after))
  }

  function Step(s: Sys, l: Label): (s': Sys) {
    match l
    case Call(p, source, target) =>
      var stale := Entry(s.table, p) != Some(Transferring(source, target));
      s.(drives := s.drives + [Drive(p, source, target, Entering, Start, stale)])
    case Advance(id, ok) => if id < |s.drives| then AdvanceDrive(s, id, ok) else s
    case OthersWrite(t) => Write(s, t)
    case OrphanCommits(k) =>
      if k < |s.orphans|
      then Write(s, CommitOrphan(s.table, s.orphans[k])).(orphans := s.orphans[..k] + s.orphans[k + 1..])
      else s
  }

  function Run(s: Sys, ls: seq<Label>): (s': Sys)
    decreases |ls|
  {
    if ls == [] then s else Run(Step(s, ls[0]), ls[1..])
  }

  function Boot(me: NodeId, table: Table): (s: Sys) {
    Sys(me, table, map[], [], [], 0)
  }

  // ── What every reachable state satisfies ─────────────────────────────────

  /** The drive holds its partition's tracker slot. */
  predicate InFlight(d: Drive) {
    !d.pc.Entering? && !d.pc.Returned?
  }

  predicate TrackerFits(d: Drive, t: TransferState) {
    match d.pc
    case Entering => true
    case Connecting => t == Idle
    case BeginBulk => t == Idle
    case BulkWait => t == BulkSync(d.source, d.target, 0, 0)
    case BeginCut => t == BulkSync(d.source, d.target, 0, 0)
    case PohWait => t == Cutover(d.source, d.target)
    case CutWait => t == Cutover(d.source, d.target)
    case ProposeComplete => t == Cutover(d.source, d.target)
    case AwaitComplete => t == Cutover(d.source, d.target)
    case MarkComplete => t == Cutover(d.source, d.target)
    case Aborting => t == BulkSync(d.source, d.target, 0, 0) || t == Cutover(d.source, d.target)
    case ProposeAbort => t == Aborted(d.source)
    case AwaitAbort => t == Aborted(d.source)
    case Cleaning(ok) => ok ==> t == Complete(d.target)
    case Returned(_) => true
  }

  function First(): (t: Trail) { Then(Start, Began) }

  function Second(): (t: Trail) { Then(First(), BulkOk) }

  function Third(): (t: Trail) { Then(Second(), PohOk) }

  /** Bulk sync, chain state and cutover done, in that order. */
  function AllThree(): (t: Trail) { Then(Third(), CutOk) }

  function Asked(): (t: Trail) { Then(AllThree(), AskedComplete) }

  /** Everything done and accepted: the table read `Owned(target)` right after. */
  function Success(target: NodeId): (t: Trail) { Then(Asked(), AppliedAs(Owned(target))) }

  /** Some step failed after the bulk sync had begun. */
  predicate Failed(t: Trail) {
    t == First() || t == Second() || t == Third() || t == Asked() || t == Then(Asked(), Rejected)
  }

  /** Failed, and an abort was asked for; or never got as far as the bulk sync. */
  predicate GaveUp(t: Trail) {
    t == Start || (t.Then? && t.mark == AskedAbort && Failed(t.past))
  }

  predicate TrailFits(d: Drive) {
    var t := d.trail;
    match d.pc
    case Entering => t == Start
    case Connecting => t == Start
    case BeginBulk => t == Start
    case BulkWait => t == First()
    case BeginCut => t == Second()
    case PohWait => t == Second()
    case CutWait => t == Third()
    case ProposeComplete => t == AllThree()
    case AwaitComplete => t == Asked()
    case MarkComplete => t == Success(d.target)
    case Aborting => Failed(t)
    case ProposeAbort => Failed(t)
    case AwaitAbort => t.Then? && t.mark == AskedAbort && Failed(t.past)
    case Cleaning(ok) => if ok then t == Success(d.target) else GaveUp(t)
    case Returned(ok) => t.Then? && t.mark == Gave(ok) && if ok then t.past == Success(d.target) else GaveUp(t.past)
  }

  /** The partition's entry is still the transfer the drive was called for, up to the point where the drive itself
      changes it. */
  predicate EntryFits(d: Drive, entry: Option<Ownership>) {
    !d.touched ==>
      if d.pc.MarkComplete? || d.pc == Cleaning(true) || d.pc == Returned(true) then entry == Some(Owned(d.target))
      else if d.pc == Cleaning(false) || d.pc == Returned(false) then
        entry == Some(Owned(d.source)) || entry == Some(Transferring(d.source, d.target))
      else entry == Some(Transferring(d.source, d.target))
  }

  predicate Fits(me: NodeId, d: Drive, slot: Option<TransferState>, entry: Option<Ownership>) {
    && TrailFits(d) && EntryFits(d, entry)
    && (InFlight(d) ==> d.target == me && slot.Some? && TrackerFits(d, slot.value))
  }

  ghost predicate DriveOk(s: Sys, d: Drive) {
    Fits(s.me, d, Slot(s.trackers, d.p), Entry(s.table, d.p))
  }

  ghost predicate Exclusive(s: Sys) {
    forall i, j :: 0 <= i < j < |s.drives| && InFlight(s.drives[i]) && InFlight(s.drives[j]) ==>
      s.drives[i].p != s.drives[j].p
  }

  /** No tracker outlives its drive. */
  ghost predicate NoLeak(s: Sys) {
    forall p :: p in s.trackers ==> exists i :: 0 <= i < |s.drives| && InFlight(s.drives[i]) && s.drives[i].p == p
  }

  ghost predicate Inv(s: Sys) {
    && (forall i :: 0 <= i < |s.drives| ==> DriveOk(s, s.drives[i]))
    && Exclusive(s) && NoLeak(s)
    && s.trackerErrors == 0
  }

  // ── One drive moves ──────────────────────────────────────────────────────

  /** Before anything is proposed. */
  predicate Early(pc: Pc) {
    pc.Entering? || pc.Connecting? || pc.BeginBulk? || pc.BulkWait? || pc.BeginCut? || pc.PohWait? || pc.CutWait?
  }

  lemma EarlyTrail(me: NodeId, d: Drive, slot: Option<TransferState>, entry: Option<Ownership>, ok: bool)
    requires Fits(me, d, slot, entry) && Early(d.pc)
    ensures TrailFits(Moved(d, DriveStep(me, d, slot, entry, ok)))
  {
    hide EntryFits, Completed, AbortedFrom, CompleteEntry, TracksQuietly;
  }

  lemma LateTrail(me: NodeId, d: Drive, slot: Option<TransferState>, entry: Option<Ownership>, ok: bool)
    requires Fits(me, d, slot, entry) && !Early(d.pc)
    ensures TrailFits(Moved(d, DriveStep(me, d, slot, entry, ok)))
  {
    hide EntryFits, TrackerFits, Begun, CutOver, Completed, AbortedFrom, Tracks;
  }

  lemma EarlyMove(me: NodeId, d: Drive, slot: Option<TransferState>, entry: Option<Ownership>, ok: bool)
    requires Fits(me, d, slot, entry) && Early(d.pc)
    ensures var e := DriveStep(me, d, slot, entry, ok);
            EntryFits(Moved(d, e), e.entry) && !e.error
            && (InFlight(Moved(d, e)) ==> d.target == me && e.slot.Some? && TrackerFits(Moved(d, e), e.slot.value))
  {
    hide TrailFits, Completed, AbortedFrom, CompleteEntry, TracksQuietly;
  }

  lemma LateMove(me: NodeId, d: Drive, slot: Option<TransferState>, entry: Option<Ownership>, ok: bool)
    requires Fits(me, d, slot, entry) && !Early(d.pc)
    ensures var e := DriveStep(me, d, slot, entry, ok);
            EntryFits(Moved(d, e), e.entry) && !e.error
            && (InFlight(Moved(d, e)) ==> d.target == me && e.slot.Some? && TrackerFits(Moved(d, e), e.slot.value))
  {
    hide TrailFits, Begun, CutOver, Tracks;
  }

  /** No tracker transition fails, and the drive fits its next place. */
  lemma MoveFits(me: NodeId, d: Drive, slot: Option<TransferState>, entry: Option<Ownership>, ok: bool)
    requires Fits(me, d, slot, entry)
    ensures var e := DriveStep(me, d, slot, entry, ok); Fits(me, Moved(d, e), e.slot, e.entry) && !e.error
  {
    hide TrailFits, EntryFits, TrackerFits, DriveStep;
    if Early(d.pc) {
      EarlyTrail(me, d, slot, entry, ok);
      EarlyMove(me, d, slot, entry, ok);
    } else {
      LateTrail(me, d, slot, entry, ok);
      LateMove(me, d, slot, entry, ok);
    }
  }

  /** A drive takes the slot of its partition only when it is free, and frees it only when it returns. */
  lemma SlotFollowsFlight(me: NodeId, d: Drive, slot: Option<TransferState>, entry: Option<Ownership>, ok: bool)
    requires Fits(me, d, slot, entry)
    ensures var e := DriveStep(me, d, slot, entry, ok);
            && (InFlight(Moved(d, e)) && !InFlight(d) ==> slot.None?)
            && (InFlight(d) && !InFlight(Moved(d, e)) ==> e.slot.None?)
            && (!InFlight(d) && !InFlight(Moved(d, e)) ==> e.slot == slot)
  {
    hide TrailFits, EntryFits, TrackerFits, Begun, CutOver, Completed, AbortedFrom, CompleteEntry;
  }

  // ── The whole system moves ───────────────────────────────────────────────

  /** A drive that is not the one moving still fits. */
  lemma OtherStillFits(me: NodeId, d: Drive, slot: Option<TransferState>, before: Table, after: Table)
    requires Fits(me, d, slot, Entry(before, d.p))
    ensures Fits(me, Touch(d, before, after), slot, Entry(after, d.p))
    ensures InFlight(Touch(d, before, after)) == InFlight(d)
  {
  }

  lemma AdvanceKeepsDrives(s: Sys, id: nat, ok: bool, j: nat)
    requires Inv(s) && id < |s.drives| && j < |s.drives|
    ensures var s' := AdvanceDrive(s, id, ok); DriveOk(s', s'.drives[j])
  {
    hide DriveStep, Fits, Entry, Slot, Put, InFlight;
    var s', d, c := AdvanceDrive(s, id, ok), s.drives[id], s.drives[j];
    var slot, entry := Slot(s.trackers, d.p), Entry(s.table, d.p);
    var e := DriveStep(s.me, d, slot, entry, ok);
    MoveFits(s.me, d, slot, entry, ok);
    SlotAndEntry(s, s', d.p, e, c.p);
    assert DriveOk(s, d) && DriveOk(s, c);
    if j != id {
      OtherStillFits(s.me, c, Slot(s.trackers, c.p), s.table, s'.table);
      if c.p == d.p {
        SlotFollowsFlight(s.me, d, slot, entry, ok);
        FlightNeedsSlot(s.me, c, slot, entry);
        assert !(InFlight(c) && InFlight(d));
        AnySlotFits(s.me, Touch(c, s.table, s'.table), slot, e.slot, e.entry);
      }
    }
  }

  lemma FlightNeedsSlot(me: NodeId, d: Drive, slot: Option<TransferState>, entry: Option<Ownership>)
    requires Fits(me, d, slot, entry)
    ensures InFlight(d) ==> slot.Some?
  {
  }

  lemma AnySlotFits(me: NodeId, d: Drive, slot: Option<TransferState>, slot': Option<TransferState>,
                    entry: Option<Ownership>)
    requires Fits(me, d, slot, entry)
    ensures !InFlight(d) ==> Fits(me, d, slot', entry)
  {
  }

  lemma SlotAndEntry(s: Sys, s': Sys, p: Pid, e: Effect, q: Pid)
    requires s'.trackers == Put(s.trackers, p, e.slot) && s'.table == Put(s.table, p, e.entry)
    ensures Slot(s'.trackers, q) == if q == p then e.slot else Slot(s.trackers, q)
    ensures Entry(s'.table, q) == if q == p then e.entry else Entry(s.table, q)
  {
  }

  lemma AdvanceKeepsExclusive(s: Sys, id: nat, ok: bool)
    requires Inv(s) && id < |s.drives|
    ensures Exclusive(AdvanceDrive(s, id, ok)) && AdvanceDrive(s, id, ok).trackerErrors == 0
  {
    hide DriveStep, Fits, Entry, Slot, Put;
    var s', d := AdvanceDrive(s, id, ok), s.drives[id];
    var slot, entry := Slot(s.trackers, d.p), Entry(s.table, d.p);
    assert DriveOk(s, d);
    MoveFits(s.me, d, slot, entry, ok);
    SlotFollowsFlight(s.me, d, slot, entry, ok);
    forall j | 0 <= j < |s.drives| && s.drives[j].p == d.p
      ensures InFlight(s.drives[j]) ==> slot.Some?
    {
      assert DriveOk(s, s.drives[j]);
      FlightNeedsSlot(s.me, s.drives[j], slot, entry);
    }
  }

  lemma AdvanceKeepsNoLeak(s: Sys, id: nat, ok: bool)
    requires Inv(s) && id < |s.drives|
    ensures NoLeak(AdvanceDrive(s, id, ok))
  {
    hide DriveStep, Fits, Entry, Exclusive;
    var s', d := AdvanceDrive(s, id, ok), s.drives[id];
    var slot, entry := Slot(s.trackers, d.p), Entry(s.table, d.p);
    assert DriveOk(s, d);
    SlotFollowsFlight(s.me, d, slot, entry, ok);
    forall p | p in s'.trackers
      ensures exists i :: 0 <= i < |s'.drives| && InFlight(s'.drives[i]) && s'.drives[i].p == p
    {
      if p == d.p && InFlight(s'.drives[id]) {
        assert s'.drives[id].p == p;
      } else {
        assert p in s.trackers;
        var i :| 0 <= i < |s.drives| && InFlight(s.drives[i]) && s.drives[i].p == p;
        assert i != id;
        assert InFlight(s'.drives[i]) && s'.drives[i].p == p;
      }
    }
  }

  lemma WriteKeepsInv(s: Sys, after: Table)
    requires Inv(s)
    ensures Inv(Write(s, after))
  {
    hide Fits, InFlight;
    var s' := Write(s, after);
    forall i | 0 <= i < |s'.drives|
      ensures DriveOk(s', s'.drives[i])
      ensures InFlight(s'.drives[i]) == InFlight(s.drives[i]) && s'.drives[i].p == s.drives[i].p
    {
      assert DriveOk(s, s.drives[i]);
      OtherStillFits(s.me, s.drives[i], Slot(s.trackers, s.drives[i].p), s.table, after);
    }
    forall p | p in s'.trackers
      ensures exists i :: 0 <= i < |s'.drives| && InFlight(s'.drives[i]) && s'.drives[i].p == p
    {
      var i :| 0 <= i < |s.drives| && InFlight(s.drives[i]) && s.drives[i].p == p;
      assert InFlight(s'.drives[i]) && s'.drives[i].p == p;
    }
  }

  lemma CallKeepsInv(s: Sys, p: Pid, source: NodeId, target: NodeId)
    requires Inv(s)
    ensures Inv(Step(s, Call(p, source, target)))
  {
    var s' := Step(s, Call(p, source, target));
    var last := |s.drives|;
    assert DriveOk(s', s'.drives[last]);
    hide Fits;
    forall i | 0 <= i < last
      ensures s'.drives[i] == s.drives[i] && DriveOk(s', s'.drives[i])
    {
      assert DriveOk(s, s.drives[i]);
    }
    forall p | p in s'.trackers
      ensures exists i :: 0 <= i < |s'.drives| && InFlight(s'.drives[i]) && s'.drives[i].p == p
    {
      var i :| 0 <= i < |s.drives| && InFlight(s.drives[i]) && s.drives[i].p == p;
      assert InFlight(s'.drives[i]) && s'.drives[i].p == p;
    }
  }

  lemma StepKeepsInv(s: Sys, l: Label)
    requires Inv(s)
    ensures Inv(Step(s, l)) && Step(s, l).me == s.me
  {
    hide DriveOk, Exclusive, NoLeak, DriveStep, AdvanceDrive;
    match l {
      case Call(p, source, target) => CallKeepsInv(s, p, source, target);
      case Advance(id, ok) =>
        if id < |s.drives| {
          AdvanceKeepsAll(s, id, ok);
        }
      case OthersWrite(t) => WriteKeepsInv(s, t);
      case OrphanCommits(k) =>
        if k < |s.orphans| {
          WriteKeepsInv(s, CommitOrphan(s.table, s.orphans[k]));
          OrphansAside(Write(s, CommitOrphan(s.table, s.orphans[k])), s.orphans[..k] + s.orphans[k + 1..]);
        }
    }
  }

  lemma AdvanceKeepsAll(s: Sys, id: nat, ok: bool)
    requires Inv(s) && id < |s.drives|
    ensures Inv(AdvanceDrive(s, id, ok)) && AdvanceDrive(s, id, ok).me == s.me
  {
    AdvanceKeepsExclusive(s, id, ok);
    AdvanceKeepsNoLeak(s, id, ok);
    hide DriveOk, Exclusive, NoLeak, DriveStep;
    forall j | 0 <= j < |s.drives|
      ensures var s' := AdvanceDrive(s, id, ok); DriveOk(s', s'.drives[j])
    {
      AdvanceKeepsDrives(s, id, ok, j);
    }
  }

  lemma OrphansAside(s: Sys, orphans: seq<Request>)
    requires Inv(s)
    ensures Inv(s.(orphans := orphans))
  {
  }

  /** Every reachable state, over every interleaving. */
  lemma {:induction false} RunKeepsInv(s: Sys, ls: seq<Label>)
    requires Inv(s)
    ensures Inv(Run(s, ls)) && Run(s, ls).me == s.me
    decreases |ls|
  {
    hide Inv, Step;
    if ls != [] {
      StepKeepsInv(s, ls[0]);
      RunKeepsInv(Step(s, ls[0]), ls[1..]);
    }
  }

  // ── The theorems ─────────────────────────────────────────────────────────

  /** At most one drive per partition is in flight. */
  lemma OneDrivePerPartition(me: NodeId, table: Table, ls: seq<Label>, i: nat, j: nat)
    requires var s := Run(Boot(me, table), ls); i < |s.drives| && j < |s.drives| && i != j
    requires var s := Run(Boot(me, table), ls); InFlight(s.drives[i]) && InFlight(s.drives[j])
    ensures var s := Run(Boot(me, table), ls); s.drives[i].p != s.drives[j].p
  {
    hide Run, DriveOk;
    RunKeepsInv(Boot(me, table), ls);
  }

  /** No tracker transition ever fails, whether its error would be propagated or discarded; and no slot is left
      behind. */
  lemma TrackersNeverFail(me: NodeId, table: Table, ls: seq<Label>)
    ensures Run(Boot(me, table), ls).trackerErrors == 0
    ensures NoLeak(Run(Boot(me, table), ls))
  {
    hide Run, DriveOk;
    RunKeepsInv(Boot(me, table), ls);
  }

  predicate Has(t: Trail, m: Mark) {
    t.Then? && (t.mark == m || Has(t.past, m))
  }

  /** The part of the trail before the last `m`. */
  function UpTo(t: Trail, m: Mark): (past: Trail) {
    if t == Start then Start else if t.mark == m then t.past else UpTo(t.past, m)
  }

  /** `CompleteTransfer` is proposed only after bulk sync, chain state and cutover have all succeeded, in that order. */
  lemma CompleteOnlyAfterAll(me: NodeId, table: Table, ls: seq<Label>, i: nat)
    requires var s := Run(Boot(me, table), ls); i < |s.drives| && Has(s.drives[i].trail, AskedComplete)
    ensures var s := Run(Boot(me, table), ls); UpTo(s.drives[i].trail, AskedComplete) == AllThree()
  {
    hide Run;
    RunKeepsInv(Boot(me, table), ls);
    var d := Run(Boot(me, table), ls).drives[i];
    TrailOfComplete(d);
  }

  /** What the trails a drive can leave contain. */
  lemma KnownTrails(n: NodeId, q: Mark)
    ensures !Has(Start, q) && (Has(First(), q) <==> q == Began)
    ensures Has(Second(), q) <==> q == Began || q == BulkOk
    ensures Has(Third(), q) <==> q == Began || q == BulkOk || q == PohOk
    ensures Has(Asked(), q) <==> q == Began || q == BulkOk || q == PohOk || q == CutOk || q == AskedComplete
    ensures Has(Then(Asked(), Rejected), q) <==> Has(Asked(), q) || q == Rejected
    ensures Has(Success(n), q) <==> Has(Asked(), q) || q == AppliedAs(Owned(n))
  {
  }

  lemma FailedTrails(t: Trail, q: Mark)
    requires Failed(t)
    ensures Has(t, Began)
    ensures Has(t, q) ==> q == Began || q == BulkOk || q == PohOk || q == CutOk || q == AskedComplete || q == Rejected
    ensures q == AskedComplete && Has(t, q) ==> UpTo(t, q) == AllThree()
  {
    KnownTrails(0, q);
    KnownTrails(0, Began);
    assert UpTo(Asked(), AskedComplete) == AllThree();
    assert UpTo(Then(Asked(), Rejected), AskedComplete) == AllThree();
  }

  lemma TrailOfComplete(d: Drive)
    requires TrailFits(d) && Has(d.trail, AskedComplete)
    ensures UpTo(d.trail, AskedComplete) == AllThree()
  {
    var t := d.trail;
    KnownTrails(d.target, AskedComplete);
    assert UpTo(Success(d.target), AskedComplete) == AllThree();
    if Failed(t) {
      FailedTrails(t, AskedComplete);
    } else if t.past.Then? && Failed(t.past) && Has(t.past, AskedComplete) {
      FailedTrails(t.past, AskedComplete);
    } else if t.past.Then? && t.past.past.Then? && Failed(t.past.past) && Has(t.past.past, AskedComplete) {
      FailedTrails(t.past.past, AskedComplete);
    }
  }

  /** A drive that returns success did all of it, the table read `Owned(target)` right after its entry was applied, and
      it asked for no abort. One that returns failure was never applied, and asked for an abort exactly when it had
      begun the bulk sync: a source that cannot be resolved or reached is left as it is. */
  lemma OkMeansOwned(me: NodeId, table: Table, ls: seq<Label>, i: nat)
    requires var s := Run(Boot(me, table), ls); i < |s.drives| && s.drives[i].pc.Returned?
    ensures var d := Run(Boot(me, table), ls).drives[i];
            && (d.pc.ok <==> d.trail == Then(Success(d.target), Gave(true)))
            && (Has(d.trail, AppliedAs(Owned(d.target))) ==> d.pc.ok)
            && (d.pc.ok ==> !Has(d.trail, AskedAbort))
            && (!d.pc.ok ==> (Has(d.trail, AskedAbort) <==> Has(d.trail, Began)))
  {
    hide Run;
    RunKeepsInv(Boot(me, table), ls);
    var d := Run(Boot(me, table), ls).drives[i];
    TrailOfReturn(d);
  }

  lemma TrailOfReturn(d: Drive)
    requires TrailFits(d) && d.pc.Returned?
    ensures d.pc.ok <==> d.trail == Then(Success(d.target), Gave(true))
    ensures Has(d.trail, AppliedAs(Owned(d.target))) ==> d.pc.ok
    ensures d.pc.ok ==> !Has(d.trail, AskedAbort)
    ensures !d.pc.ok ==> (Has(d.trail, AskedAbort) <==> Has(d.trail, Began))
  {
    var applied := AppliedAs(Owned(d.target));
    KnownTrails(d.target, AskedAbort);
    if !d.pc.ok {
      FailureTrail(d.trail.past, applied);
      assert forall q :: Has(d.trail, q) <==> q == Gave(false) || Has(d.trail.past, q);
    }
  }

  lemma FailureTrail(t: Trail, applied: Mark)
    requires GaveUp(t) && applied.AppliedAs?
    ensures !Has(t, applied) && (Has(t, AskedAbort) <==> Has(t, Began))
  {
    if t != Start {
      FailedTrails(t.past, applied);
      assert Has(t, applied) <==> Has(t.past, applied);
      assert Has(t, Began) <==> Has(t.past, Began);
    }
  }

  /** In any state, a drive's abort takes the partition from the node serving it exactly when that node is not the
      source the drive was called with. */
  lemma AbortTakesIff(s: Sys, i: nat)
    requires i < |s.drives| && s.drives[i].pc.AwaitAbort? && s.drives[i].p in s.table
    ensures var d, t := s.drives[i], Step(s, Advance(i, true)).table;
            && ActiveOf(t, d.p) == Some(d.source)
            && (ActiveOf(t, d.p) != ActiveOf(s.table, d.p) <==> ActiveOf(s.table, d.p) != Some(d.source))
  {
  }

  /** The same for an abort whose proposer gave up on it and that commits later. */
  lemma OrphanAbortTakesIff(s: Sys, k: nat)
    requires k < |s.orphans| && s.orphans[k].AbortTransfer? && s.orphans[k].p in s.table
    ensures var (p, n, t) := (s.orphans[k].p, s.orphans[k].revertTo, Step(s, OrphanCommits(k)).table);
            && ActiveOf(t, p) == Some(n)
            && (ActiveOf(t, p) != ActiveOf(s.table, p) <==> ActiveOf(s.table, p) != Some(n))
  {
  }

  /** And a completion hands the partition over exactly when it is in transfer to the drive's target from another
      node. */
  lemma CompletionTakesIff(s: Sys, i: nat)
    requires i < |s.drives| && s.drives[i].pc.AwaitComplete?
    ensures var d, t := s.drives[i], Step(s, Advance(i, true)).table;
            ActiveOf(t, d.p) != ActiveOf(s.table, d.p) <==>
            && d.p in s.table && s.table[d.p].Transferring?
            && s.table[d.p].target == d.target && s.table[d.p].source != d.target
  {
  }

  /** As long as nobody else touches the partition, completing is accepted and hands it from source to target, and
      an abort names the source of the transfer in flight and takes it from nobody. */
  lemma UndisturbedHandover(me: NodeId, table: Table, ls: seq<Label>, i: nat)
    requires var s := Run(Boot(me, table), ls); i < |s.drives| && InFlight(s.drives[i]) && !s.drives[i].touched
    ensures var s := Run(Boot(me, table), ls);
            var d := s.drives[i];
            && (d.pc.AwaitComplete? ==>
                  && ActiveOf(s.table, d.p) == Some(d.source)
                  && AfterComplete(s.table, d.p, d.target) == (s.table[d.p := Owned(d.target)], Ok))
            && (d.pc.AwaitAbort? ==>
                  && FaithfulAbort(s.table, AbortTransfer(d.p, d.source))
                  && ActiveOf(Step(s, Advance(i, true)).table, d.p) == ActiveOf(s.table, d.p))
            && (d.pc == Cleaning(true) ==> ActiveOf(s.table, d.p) == Some(d.target))
            && (d.pc == Cleaning(false) ==> ActiveOf(s.table, d.p) == Some(d.source))
  {
    hide Run, TrailFits, TrackerFits, Step;
    RunKeepsInv(Boot(me, table), ls);
    var s := Run(Boot(me, table), ls);
    assert DriveOk(s, s.drives[i]);
    if s.drives[i].pc.AwaitAbort? {
      AbortTakesIff(s, i);
    }
  }

  // ── A drive does not look again ──────────────────────────────────────────

  lemma RunFirst(s: Sys, l: Label, ls: seq<Label>)
    ensures Run(s, [l] + ls) == Run(Step(s, l), ls)
  {
    assert ([l] + ls)[0] == l && ([l] + ls)[1..] == ls;
  }

  function OneDrive(owner: Ownership, slot: Option<TransferState>, pc: Pc, trail: Trail, touched: bool): (s: Sys) {
    Sys(9, map[0 := owner], if slot.Some? then map[0 := slot.value] else map[],
        [Drive(0, 1, 9, pc, trail, touched)], [], 0)
  }

  lemma OneAdvances(owner: Ownership, slot: Option<TransferState>, pc: Pc, trail: Trail, touched: bool, ok: bool)
    ensures var s := OneDrive(owner, slot, pc, trail, touched);
            var e := DriveStep(9, s.drives[0], slot, Some(owner), ok);
            e.entry.Some? && e.orphan.None? && !e.error ==>
              Step(s, Advance(0, ok)) == OneDrive(e.entry.value, e.slot, e.pc, Moved(s.drives[0], e).trail, touched)
  {
  }

  lemma OneDisturbed(owner: Ownership, other: Ownership, slot: Option<TransferState>, pc: Pc, trail: Trail)
    requires owner != other
    ensures Step(OneDrive(owner, slot, pc, trail, false), OthersWrite(map[0 := other]))
         == OneDrive(other, slot, pc, trail, true)
  {
  }

  lemma OneCalled()
    ensures Step(Boot(9, map[0 := Transferring(1, 9)]), Call(0, 1, 9))
         == OneDrive(Transferring(1, 9), None, Entering, Start, false)
  {
  }

  function FromBulk(): (ls: seq<Label>) {
    [OthersWrite(map[0 := Owned(2)])] + ([Advance(0, false)] + ([Advance(0, true)] + ([Advance(0, true)] + [])))
  }

  function Disturbed(): (ls: seq<Label>) {
    [Call(0, 1, 9)] + ([Advance(0, true)] + ([Advance(0, true)] + ([Advance(0, true)] + FromBulk())))
  }

  lemma ReachesBulk()
    ensures Run(Boot(9, map[0 := Transferring(1, 9)]), Disturbed())
         == Run(OneDrive(Transferring(1, 9), Some(BulkSync(1, 9, 0, 0)), BulkWait, First(), false), FromBulk())
  {
    hide Run, Step, FromBulk;
    var o := Transferring(1, 9);
    OneCalled();
    var ok := Advance(0, true);
    RunFirst(Boot(9, map[0 := o]), Call(0, 1, 9), [ok] + ([ok] + ([ok] + FromBulk())));
    OneAdvances(o, None, Entering, Start, false, true);
    RunFirst(OneDrive(o, None, Entering, Start, false), ok, [ok] + ([ok] + FromBulk()));
    OneAdvances(o, Some(Idle), Connecting, Start, false, true);
    RunFirst(OneDrive(o, Some(Idle), Connecting, Start, false), ok, [ok] + FromBulk());
    OneAdvances(o, Some(Idle), BeginBulk, Start, false, true);
    RunFirst(OneDrive(o, Some(Idle), BeginBulk, Start, false), ok, FromBulk());
  }

  lemma BulkToAbort()
    ensures Run(OneDrive(Transferring(1, 9), Some(BulkSync(1, 9, 0, 0)), BulkWait, First(), false), FromBulk())
         == OneDrive(Owned(2), Some(Aborted(1)), AwaitAbort, Then(First(), AskedAbort), true)
  {
    hide Run, Step;
    var o, o', b := Transferring(1, 9), Owned(2), Some(BulkSync(1, 9, 0, 0));
    OneDisturbed(o, o', b, BulkWait, First());
    var ok, failed := Advance(0, true), Advance(0, false);
    RunFirst(OneDrive(o, b, BulkWait, First(), false), OthersWrite(map[0 := o']), [failed] + ([ok] + ([ok] + [])));
    OneAdvances(o', b, BulkWait, First(), true, false);
    RunFirst(OneDrive(o', b, BulkWait, First(), true), failed, [ok] + ([ok] + []));
    OneAdvances(o', b, Aborting, First(), true, true);
    RunFirst(OneDrive(o', b, Aborting, First(), true), Advance(0, true), [Advance(0, true)] + []);
    OneAdvances(o', Some(Aborted(1)), ProposeAbort, First(), true, true);
    RunFirst(OneDrive(o', Some(Aborted(1)), ProposeAbort, First(), true), Advance(0, true), []);
    RunNothing(OneDrive(o', Some(Aborted(1)), AwaitAbort, Then(First(), AskedAbort), true));
  }

  lemma RunNothing(s: Sys)
    ensures Run(s, []) == s
  {
  }

  /** If the transfer is given up and the partition assigned to node 2 while node 9's drive is still receiving, the
      drive's abort takes the partition from node 2 and gives it to the old source. */
  lemma StaleAbortSteals() returns (ls: seq<Label>)
    ensures var s := Run(Boot(9, map[0 := Transferring(1, 9)]), ls);
            && s.table == map[0 := Owned(2)] && |s.drives| == 1 && s.drives[0].pc == AwaitAbort
            && Step(s, Advance(0, true)).table == map[0 := Owned(1)]
  {
    hide Run, Step, Disturbed;
    ls := Disturbed();
    ReachesBulk();
    BulkToAbort();
    OneAdvances(Owned(2), Some(Aborted(1)), AwaitAbort, Then(First(), AskedAbort), true, true);
  }
}
