/** The cached store against the in-memory one, over every run with crashes, restarts and a purge that blocks on its
    own lock. */
module RaftLogRuns {
  import opened Wrappers
  import Bytes
  import opened RaftKeys
  import opened RaftLogModel
  import opened RaftLogStore

  // ── The cached last id ───────────────────────────────────────────────────

  function Ids(entries: seq<Entry>): (ids: seq<LogId>)
    ensures |ids| == |entries| && forall k :: 0 <= k < |ids| ==> ids[k] == entries[k].id
  {
    if entries == [] then [] else Ids(entries[..|entries| - 1]) + [entries[|entries| - 1].id]
  }

  /** The cache keeps the previous id unless the new index is higher. */
  function Keep(prev: Option<LogId>, id: LogId): (r: Option<LogId>) {
    if prev.Some? && prev.value.index >= id.index then prev else Some(id)
  }

  function NewLast(last: Option<LogId>, entries: seq<Entry>): (r: Option<LogId>) {
    if entries == [] then last else Keep(NewLast(last, entries[..|entries| - 1]), entries[|entries| - 1].id)
  }

  /** The store itself keeps the latest entry written at an index. */
  function Latest(last: Option<LogId>, entries: seq<Entry>): (r: Option<LogId>) {
    if entries == [] then last
    else
      var prev, id := Latest(last, entries[..|entries| - 1]), entries[|entries| - 1].id;
      if prev.Some? && prev.value.index > id.index then prev else Some(id)
  }

  lemma {:induction false} AppendedSnoc(log: Log, es: seq<Entry>, e: Entry)
    ensures Appended(log, es + [e]) == Appended(log, es)[e.id.index := e]
    decreases |es|
  {
    if es == [] {
      assert es + [e] == [e];
      assert Appended(log[e.id.index := e], [e][1..]) == log[e.id.index := e];
    } else {
      assert (es + [e])[1..] == es[1..] + [e];
      AppendedSnoc(log[es[0].id.index := es[0]], es[1..], e);
    }
  }

  lemma LastIdAfterPut(log: Log, e: Entry)
    requires Indexed(log)
    ensures var last := LastId(log);
            LastId(log[e.id.index := e]) == if last.Some? && last.value.index > e.id.index then last else Some(e.id)
  {
    var log' := log[e.id.index := e];
    assert e.id.index in log'.Keys;
    assert log'.Keys == log.Keys + {e.id.index};
    var m := Max(log'.Keys);
    if log.Keys != {} {
      var n := Max(log.Keys);
    }
  }

  lemma {:induction false} LastIdAfterAppend(log: Log, entries: seq<Entry>)
    requires Indexed(log)
    ensures LastId(Appended(log, entries)) == Latest(LastId(log), entries)
  {
    hide LastId;
    if entries != [] {
      var init, e := entries[..|entries| - 1], entries[|entries| - 1];
      assert entries == init + [e];
      LastIdAfterAppend(log, init);
      AppendedIndexed(log, init);
      AppendedSnoc(log, init, e);
      LastIdAfterPut(Appended(log, init), e);
    }
  }

  /** The cached last id, then the appended ids. */
  function Seen(last: Option<LogId>, entries: seq<Entry>): (ids: seq<LogId>) {
    (if last.Some? then [last.value] else []) + Ids(entries)
  }

  ghost predicate FirstAtTop(ids: seq<LogId>, a: nat) {
    && a < |ids|
    && (forall j :: 0 <= j < |ids| ==> ids[j].index <= ids[a].index)
    && (forall j :: 0 <= j < a ==> ids[j].index < ids[a].index)
  }

  ghost predicate LastAtTop(ids: seq<LogId>, b: nat) {
    && b < |ids|
    && (forall j :: 0 <= j < |ids| ==> ids[j].index <= ids[b].index)
    && (forall j :: b < j < |ids| ==> ids[j].index < ids[b].index)
  }

  /** At the highest index in sight, the first id and the last are the same. */
  ghost predicate TopAgrees(last: Option<LogId>, entries: seq<Entry>) {
    var ids := Seen(last, entries);
    forall a: nat, b: nat :: FirstAtTop(ids, a) && LastAtTop(ids, b) ==> ids[a] == ids[b]
  }

  lemma SeenSnoc(last: Option<LogId>, entries: seq<Entry>)
    requires entries != []
    ensures Seen(last, entries) == Seen(last, entries[..|entries| - 1]) + [entries[|entries| - 1].id]
  {
  }

  lemma FirstSnoc(ids: seq<LogId>, a: nat, id: LogId)
    requires FirstAtTop(ids, a)
    ensures FirstAtTop(ids + [id], if ids[a].index >= id.index then a else |ids|)
  {
  }

  lemma LastSnoc(ids: seq<LogId>, b: nat, id: LogId)
    requires LastAtTop(ids, b)
    ensures LastAtTop(ids + [id], if ids[b].index > id.index then b else |ids|)
  {
  }

  lemma {:induction false} NewLastIsFirst(last: Option<LogId>, entries: seq<Entry>)
    ensures var ids := Seen(last, entries);
            if ids == [] then NewLast(last, entries) == None
            else exists a: nat :: FirstAtTop(ids, a) && NewLast(last, entries) == Some(ids[a])
  {
    var ids := Seen(last, entries);
    if entries == [] {
      if last.Some? {
        assert FirstAtTop(ids, 0);
      }
    } else {
      var init, id := entries[..|entries| - 1], entries[|entries| - 1].id;
      var before := Seen(last, init);
      NewLastIsFirst(last, init);
      SeenSnoc(last, entries);
      hide Seen;
      if before == [] {
        assert FirstAtTop(ids, 0);
      } else {
        hide FirstAtTop;
        var a: nat :| FirstAtTop(before, a) && NewLast(last, init) == Some(before[a]);
        TopInRange(before, a);
        FirstSnoc(before, a, id);
      }
    }
  }

  lemma TopInRange(ids: seq<LogId>, a: nat)
    ensures FirstAtTop(ids, a) || LastAtTop(ids, a) ==> a < |ids|
  {
  }

  lemma {:induction false} LatestIsLast(last: Option<LogId>, entries: seq<Entry>)
    ensures var ids := Seen(last, entries);
            if ids == [] then Latest(last, entries) == None
            else exists b: nat :: LastAtTop(ids, b) && Latest(last, entries) == Some(ids[b])
  {
    var ids := Seen(last, entries);
    if entries == [] {
      if last.Some? {
        assert LastAtTop(ids, 0);
      }
    } else {
      var init, id := entries[..|entries| - 1], entries[|entries| - 1].id;
      var before := Seen(last, init);
      LatestIsLast(last, init);
      SeenSnoc(last, entries);
      hide Seen;
      if before == [] {
        assert LastAtTop(ids, 0);
      } else {
        hide LastAtTop;
        var b: nat :| LastAtTop(before, b) && Latest(last, init) == Some(before[b]);
        TopInRange(before, b);
        LastSnoc(before, b, id);
      }
    }
  }

  /** After an append the cached last id is right exactly when the top index has not been given two ids. */
  lemma AppendCacheIff(log: Log, entries: seq<Entry>)
    requires Indexed(log)
    ensures NewLast(LastId(log), entries) == LastId(Appended(log, entries)) <==> TopAgrees(LastId(log), entries)
  {
    hide LastId, Seen, NewLast, Latest;
    var last := LastId(log);
    var ids := Seen(last, entries);
    LastIdAfterAppend(log, entries);
    NewLastIsFirst(last, entries);
    LatestIsLast(last, entries);
    if ids != [] {
      var a: nat :| FirstAtTop(ids, a) && NewLast(last, entries) == Some(ids[a]);
      var b: nat :| LastAtTop(ids, b) && Latest(last, entries) == Some(ids[b]);
      forall c: nat, d: nat | FirstAtTop(ids, c) && LastAtTop(ids, d)
        ensures c == a && d == b
      {
        assert ids[a].index == ids[c].index && ids[b].index == ids[d].index;
      }
    }
  }

  /** Appending strictly beyond the last index, as Raft does, is always safe. */
  lemma AscendingAppendAgrees(last: Option<LogId>, entries: seq<Entry>)
    requires Ascending(entries)
    requires forall e :: e in entries && last.Some? ==> last.value.index < e.id.index
    ensures TopAgrees(last, entries)
  {
  }

  /** Overwriting the last entry with one of another term leaves the old id in the cache. */
  lemma OverwriteGoesStale()
    ensures var old', new' := Entry(LogId(1, 0, 5), 0), Entry(LogId(2, 0, 5), 0);
            var log: Log := map[5 := old'];
            && LastId(log) == Some(old'.id)
            && NewLast(LastId(log), [new']) == Some(old'.id)
            && LastId(Appended(log, [new'])) == Some(new'.id)
  {
    var old', new' := Entry(LogId(1, 0, 5), 0), Entry(LogId(2, 0, 5), 0);
    var log: Log := map[5 := old'];
    assert log.Keys == {5};
    LastIdAfterAppend(log, [new']);
    assert [new'][..0] == [];
  }

  // ── One operation on the cached store ────────────────────────────────────

  /** How long the read guard taken in `purge`'s condition lives: through the block it guards, or only for the read. */
  datatype GuardScope = HeldThroughBlock | DroppedAfterRead

  /** The operation asks for the write lock on the last id while its own read guard is alive. */
  predicate Blocks(scope: GuardScope, last: Option<LogId>, op: Op) {
    scope.HeldThroughBlock? && op.Purge? && last.Some? && last.value.index <= op.upTo.index
  }

  /** The cache after the operation, which has left the database as `db`. */
  ghost function Cached(cache: Cache, db: Db, op: Op): (cache': Cache)
    requires WellFormed(db)
  {
    match op
    case SaveVote(v) => cache.(vote := Some(v))
    case SaveCommitted(c) => cache.(committed := c)
    case Append(es) => cache.(last := NewLast(cache.last, es))
    case Truncate(_) => cache.(last := LastId(LogOf(db)))
    case Purge(id) =>
      cache.(lastPurged := Some(id),
             last := if cache.last.Some? && cache.last.value.index <= id.index then None else cache.last)
    case _ => cache
  }

  /** What the cached store answers: markers from the cache, ranges from a scan. */
  ghost function CachedAnswer(db: Db, cache: Cache, op: Op): (r: Reply)
    requires WellFormed(db)
  {
    match op
    case ReadVote => VoteIs(cache.vote)
    case ReadCommitted => CommittedIs(cache.committed)
    case GetLogState => StateIs(cache.lastPurged, Or(cache.last, cache.lastPurged))
    case ReadRange(lo, hi) => Entries(RangeOf(LogOf(db), lo, hi))
    case _ => Ack
  }

  /** The cache `open` builds. */
  ghost function OpenCache(db: Db): (cache: Cache)
    requires WellFormed(db)
    ensures Mirrors(cache, ModelOf(db))
  {
    var m := ModelOf(db);
    Cache(m.vote, m.committed, m.lastPurged, LastId(m.log))
  }

  lemma LastIdAfterPurge(log: Log, upTo: Index)
    requires Indexed(log)
    ensures var last := LastId(log);
            LastId(Purged(log, upTo)) == if last.Some? && last.value.index <= upTo then None else last
  {
    var log' := Purged(log, upTo);
    if log.Keys != {} {
      var m := Max(log.Keys);
      if m <= upTo {
        assert log'.Keys == {};
      } else {
        assert m in log'.Keys;
        var n := Max(log'.Keys);
      }
    } else {
      assert log'.Keys == {};
    }
  }

  /** A mirroring cache still mirrors after any operation, except an append that gives the top index a second id. */
  lemma CacheKeepsUp(db: Db, cache: Cache, op: Op)
    requires WellFormed(db) && Mirrors(cache, ModelOf(db)) && WellFormed(Written(db, op))
    ensures Mirrors(Cached(cache, Written(db, op), op), Next(ModelOf(db), op))
       <==> (op.Append? ==> TopAgrees(LastId(LogOf(db)), op.entries))
  {
    hide WellFormed, LastId, TopAgrees, LogOf, Written, NewLast, Purged, Appended, Truncated;
    WriteRefines(db, op);
    match op {
      case Append(es) => AppendCacheIff(LogOf(db), es);
      case Purge(id) => LastIdAfterPurge(LogOf(db), id.index);
      case _ =>
    }
  }

  lemma BadRangeIsEmpty(log: Log, lo: Bound, hi: Bound)
    requires Indexed(log) && BadRange(lo, hi)
    ensures RangeOf(log, lo, hi) == []
  {
    RangeUnique(log, lo, hi, RangeOf(log, lo, hi), []);
  }

  /** The replies agree; where the in-memory store panics on a bad range, the cached one returns nothing. */
  predicate Agree(got: Option<Reply>, want: Option<Reply>) {
    if want == Some(Panicked) then got == Some(Entries([])) else got == want
  }

  lemma AnswersAgree(db: Db, cache: Cache, op: Op)
    requires WellFormed(db) && Mirrors(cache, ModelOf(db))
    ensures Agree(Some(CachedAnswer(db, cache, op)), Some(Answer(ModelOf(db), op)))
  {
    hide WellFormed, LastId, LogOf, RangeOf;
    if op.ReadRange? && BadRange(op.lo, op.hi) {
      BadRangeIsEmpty(LogOf(db), op.lo, op.hi);
    }
  }

  // ── Runs ─────────────────────────────────────────────────────────────────

  /** A crash interrupts an operation before or after its one atomic write; the process then opens the store again. */
  datatype Event = Do(op: Op) | Crash(op: Op, wrote: bool) | Restart

  /** A hung store waits for its own lock: callers get no answer until the process restarts. */
  datatype Node = Running(db: Db, cache: Cache) | Hung(db: Db)

  ghost predicate Sound(n: Node) {
    WellFormed(n.db)
  }

  ghost function Opened(db: Db): (n: Node)
    requires WellFormed(db)
  {
    Running(db, OpenCache(db))
  }

  ghost function Step(scope: GuardScope, n: Node, e: Event): (n': Node)
    requires Sound(n)
    ensures Sound(n')
  {
    match n
    case Hung(db) => if e.Do? then n else Opened(db)
    case Running(db, cache) =>
      match e
      case Restart => Opened(db)
      case Crash(op, wrote) =>
        WriteRefines(db, op);
        Opened(if wrote then Written(db, op) else db)
      case Do(op) =>
        WriteRefines(db, op);
        if Blocks(scope, cache.last, op) then Hung(Written(db, op))
        else Running(Written(db, op), Cached(cache, Written(db, op), op))
  }

  ghost function ReplyTo(scope: GuardScope, n: Node, e: Event): (r: Option<Reply>)
    requires Sound(n)
  {
    if n.Running? && e.Do? && !Blocks(scope, n.cache.last, e.op) then Some(CachedAnswer(n.db, n.cache, e.op)) else None
  }

  ghost function Run(scope: GuardScope, n: Node, es: seq<Event>): (n': Node)
    requires Sound(n)
    ensures Sound(n')
    decreases |es|
  {
    if es == [] then n else Run(scope, Step(scope, n, es[0]), es[1..])
  }

  ghost function Replies(scope: GuardScope, n: Node, es: seq<Event>): (rs: seq<Option<Reply>>)
    requires Sound(n)
    ensures |rs| == |es|
    decreases |es|
  {
    if es == [] then [] else [ReplyTo(scope, n, es[0])] + Replies(scope, Step(scope, n, es[0]), es[1..])
  }

  /** Reading never changes the store, a stale cache included. */
  lemma ReadsLeaveAlone(scope: GuardScope, n: Node, op: Op)
    requires Sound(n) && (op.ReadVote? || op.ReadCommitted? || op.ReadRange? || op.GetLogState?)
    ensures Step(scope, n, Do(op)) == n
  {
    hide WellFormed, LogOf, LastId;
  }

  /** The reference: the in-memory store, as if it kept its state across restarts. */
  datatype Ref = Up(m: LogModel) | Stuck(m: LogModel)

  ghost function RefStep(scope: GuardScope, r: Ref, e: Event): (r': Ref) {
    match r
    case Stuck(m) => if e.Do? then r else Up(m)
    case Up(m) =>
      match e
      case Restart => r
      case Crash(op, wrote) => Up(if wrote then Next(m, op) else m)
      case Do(op) => if Blocks(scope, LastId(m.log), op) then Stuck(Next(m, op)) else Up(Next(m, op))
  }

  ghost function RefReply(scope: GuardScope, r: Ref, e: Event): (p: Option<Reply>)
    requires Indexed(r.m.log)
  {
    if r.Up? && e.Do? && !Blocks(scope, LastId(r.m.log), e.op) then Some(Answer(r.m, e.op)) else None
  }

  lemma RefIndexed(scope: GuardScope, r: Ref, e: Event)
    requires Indexed(r.m.log)
    ensures Indexed(RefStep(scope, r, e).m.log)
  {
    if !e.Restart? {
      NextIndexed(r.m, e.op);
    }
  }

  ghost function RefRun(scope: GuardScope, r: Ref, es: seq<Event>): (r': Ref)
    decreases |es|
  {
    if es == [] then r else RefRun(scope, RefStep(scope, r, es[0]), es[1..])
  }

  ghost function RefReplies(scope: GuardScope, r: Ref, es: seq<Event>): (ps: seq<Option<Reply>>)
    requires Indexed(r.m.log)
    ensures |ps| == |es|
    decreases |es|
  {
    if es == [] then []
    else
      RefIndexed(scope, r, es[0]);
      [RefReply(scope, r, es[0])] + RefReplies(scope, RefStep(scope, r, es[0]), es[1..])
  }

  /** Same log, same markers; and while running, a cache that mirrors them. */
  ghost predicate Refines(n: Node, r: Ref) {
    && Sound(n) && ModelOf(n.db) == r.m
    && match n
       case Running(_, cache) => r.Up? && Mirrors(cache, r.m)
       case Hung(_) => r.Stuck?
  }

  /** The event does not append a second id at the top index. */
  ghost predicate Orderly(r: Ref, e: Event) {
    r.Up? && e.Do? && e.op.Append? ==> TopAgrees(LastId(r.m.log), e.op.entries)
  }

  ghost predicate OrderlyRun(scope: GuardScope, r: Ref, es: seq<Event>)
    decreases |es|
  {
    es == [] || (Orderly(r, es[0]) && OrderlyRun(scope, RefStep(scope, r, es[0]), es[1..]))
  }

  /** One event keeps the stores in step exactly when it is orderly. */
  lemma StepAgrees(scope: GuardScope, n: Node, r: Ref, e: Event)
    requires Refines(n, r)
    ensures Indexed(r.m.log)
    ensures Agree(ReplyTo(scope, n, e), RefReply(scope, r, e))
    ensures Refines(Step(scope, n, e), RefStep(scope, r, e)) <==> Orderly(r, e)
  {
    hide WellFormed, LastId, TopAgrees, LogOf, Written, NewLast, Cached, CachedAnswer, Answer;
    if !e.Restart? {
      WriteRefines(n.db, e.op);
    }
    if n.Running? && e.Do? {
      CacheKeepsUp(n.db, n.cache, e.op);
      AnswersAgree(n.db, n.cache, e.op);
    }
  }

  /** Every orderly run, with crashes and restarts anywhere, gets the replies of the in-memory store and ends in its
      state. */
  lemma {:induction false} RunsAgree(scope: GuardScope, n: Node, r: Ref, es: seq<Event>)
    requires Refines(n, r) && OrderlyRun(scope, r, es)
    ensures Indexed(r.m.log)
    ensures forall k :: 0 <= k < |es| ==> Agree(Replies(scope, n, es)[k], RefReplies(scope, r, es)[k])
    ensures Refines(Run(scope, n, es), RefRun(scope, r, es))
    decreases |es|
  {
    hide Sound, Step, RefStep, Agree, Orderly, ReplyTo, RefReply, Refines;
    RefinesIndexed(n, r);
    if es != [] {
      StepAgrees(scope, n, r, es[0]);
      RunsAgree(scope, Step(scope, n, es[0]), RefStep(scope, r, es[0]), es[1..]);
    }
  }

  lemma RefinesIndexed(n: Node, r: Ref)
    requires Refines(n, r)
    ensures Indexed(r.m.log) && Sound(n)
  {
  }

  lemma OpenRefines(db: Db)
    requires WellFormed(db)
    ensures Refines(Opened(db), Up(ModelOf(db)))
  {
  }

  /** A crash at any point of any orderly run recovers exactly the state before or after the interrupted operation. */
  lemma CrashRecovers(scope: GuardScope, db: Db, es: seq<Event>, op: Op, wrote: bool)
    requires WellFormed(db) && OrderlyRun(scope, Up(ModelOf(db)), es)
    ensures var m := RefRun(scope, Up(ModelOf(db)), es).m;
            var n := Step(scope, Run(scope, Opened(db), es), Crash(op, wrote));
            && n.Running? && Mirrors(n.cache, ModelOf(n.db))
            && (ModelOf(n.db) == m || ModelOf(n.db) == Next(m, op))
            && (wrote && RefRun(scope, Up(ModelOf(db)), es).Up? ==> ModelOf(n.db) == Next(m, op))
  {
    hide WellFormed, LastId, LogOf, Written, OrderlyRun, Run, RefRun;
    OpenRefines(db);
    RunsAgree(scope, Opened(db), Up(ModelOf(db)), es);
    WriteRefines(Run(scope, Opened(db), es).db, op);
  }

  /** With the guard held, a purge hangs exactly when it empties a log that had entries; with it dropped, never. */
  lemma PurgeHangsIff(scope: GuardScope, n: Node, r: Ref, id: LogId)
    requires Refines(n, r) && r.Up?
    ensures Step(scope, n, Do(Purge(id))).Hung?
       <==> scope.HeldThroughBlock? && r.m.log != map[] && Next(r.m, Purge(id)).log == map[]
  {
    hide WellFormed, LogOf, Written, Cached;
    var log := r.m.log;
    RefinesIndexed(n, r);
    LastIdAfterPurge(log, id.index);
    LastIdNone(log);
    LastIdNone(Purged(log, id.index));
  }

  lemma LastIdNone(log: Log)
    ensures LastId(log) == None <==> log == map[]
  {
    assert log.Keys == {} <==> log == map[];
  }

  /** A hung purge is already durable: the restart finds it done. */
  lemma RestartFinishesPurge(scope: GuardScope, n: Node, r: Ref, id: LogId)
    requires Refines(n, r) && r.Up? && Step(scope, n, Do(Purge(id))).Hung?
    ensures Refines(Step(scope, Step(scope, n, Do(Purge(id))), Restart), Up(Next(r.m, Purge(id))))
  {
    hide WellFormed, LogOf, Written, LastId;
    StepAgrees(scope, n, r, Do(Purge(id)));
  }

  /** Keys of other users of the shared database are never touched. */
  lemma OthersUntouched(db: Db, op: Op, k: Bytes.Bytes)
    requires !HasLogPrefix(k) && k != VoteKey() && k != CommittedKey() && k != LastPurgedKey()
    ensures k in db <==> k in Written(db, op)
    ensures k in db ==> db[k] == Written(db, op)[k]
  {
    hide VoteKey, CommittedKey, LastPurgedKey, LogPrefix;
    if op.Append? {
      PutsElsewhere(db, op.entries, k);
    }
  }

  lemma {:induction false} PutsElsewhere(db: Db, es: seq<Entry>, k: Bytes.Bytes)
    requires !HasLogPrefix(k)
    ensures k in db <==> k in WriteBatch(db, Puts(es))
    ensures k in db ==> db[k] == WriteBatch(db, Puts(es))[k]
    decreases |es|
  {
    hide LogKey, HasLogPrefix;
    MarkersApart();
    if es != [] {
      assert HasLogPrefix(LogKey(es[0].id.index));
      assert Puts(es)[1..] == Puts(es[1..]);
      PutsElsewhere(db[LogKey(es[0].id.index) := EntryBlob(es[0])], es[1..], k);
    }
  }
}
