/** `L3RaftLogStore` on values: what each operation writes, what it caches, and what `open` reads back. */
module RaftLogStore {
  import opened Wrappers
  import opened Bytes
  import opened RaftKeys
  import opened RaftLogModel

  /** Stored values, by what they were serialized from; reading one as the wrong kind fails. */
  datatype Blob = VoteBlob(vote: Vote) | IdBlob(id: LogId) | EntryBlob(entry: Entry) | OtherBlob(n: nat)

  type Db = map<Bytes, Blob>

  datatype Write = Put(key: Bytes, value: Blob) | Delete(key: Bytes)

  /** The atomic batch, in order. */
  function WriteBatch(db: Db, ops: seq<Write>): (db': Db)
    decreases |ops|
  {
    if ops == [] then db
    else WriteBatch(match ops[0] case Put(k, v) => db[k := v] case Delete(k) => db - {k}, ops[1..])
  }

  datatype Cache = Cache(vote: Option<Vote>, committed: Option<LogId>, lastPurged: Option<LogId>, last: Option<LogId>)

  // ── What the database means ──────────────────────────────────────────────

  /** Only log entries, each under its own key, live below the log prefix; the markers hold what they should.
      Anything may live elsewhere: the database is shared. */
  ghost predicate WellFormed(db: Db) {
    && (forall k :: k in db && HasLogPrefix(k) ==> db[k].EntryBlob? && k == LogKey(db[k].entry.id.index))
    && (VoteKey() in db ==> db[VoteKey()].VoteBlob?)
    && (CommittedKey() in db ==> db[CommittedKey()].IdBlob?)
    && (LastPurgedKey() in db ==> db[LastPurgedKey()].IdBlob?)
  }

  ghost function Indices(db: Db): (s: set<Index>) {
    set k | k in db && LogIndexFromKey(k).Some? :: LogIndexFromKey(k).value
  }

  lemma IndicesAre(db: Db, i: Index)
    ensures i in Indices(db) <==> LogKey(i) in db
  {
    hide LogKey, LogIndexFromKey;
    KeyRoundTrip(LogKey(i), i);
    if i in Indices(db) {
      var k :| k in db && LogIndexFromKey(k) == Some(i);
      KeyRoundTrip(k, i);
    }
  }

  /** The log the database holds. */
  ghost function LogOf(db: Db): (log: Log)
    requires WellFormed(db)
    ensures Indexed(log) && forall i :: i in log <==> LogKey(i) in db
    ensures forall i :: i in log ==> db[LogKey(i)] == EntryBlob(log[i])
  {
    MarkersApart();
    assert forall i :: i in Indices(db) <==> LogKey(i) in db by {
      forall i: Index
        ensures i in Indices(db) <==> LogKey(i) in db
      {
        IndicesAre(db, i);
      }
    }
    assert forall i :: i in Indices(db) ==> db[LogKey(i)].EntryBlob? && db[LogKey(i)].entry.id.index == i by {
      forall i | i in Indices(db)
        ensures db[LogKey(i)].EntryBlob? && db[LogKey(i)].entry.id.index == i
      {
        assert HasLogPrefix(LogKey(i));
        KeyInjective(i, db[LogKey(i)].entry.id.index);
      }
    }
    map i | i in Indices(db) :: db[LogKey(i)].entry
  }

  /** The abstract state is a function of the durable bytes alone. */
  ghost function ModelOf(db: Db): (m: LogModel)
    requires WellFormed(db)
  {
    LogModel(
      if VoteKey() in db then Some(db[VoteKey()].vote) else None,
      if CommittedKey() in db then Some(db[CommittedKey()].id) else None,
      if LastPurgedKey() in db then Some(db[LastPurgedKey()].id) else None,
      LogOf(db))
  }

  /** The cache mirrors the database: its last id is that of the highest-index stored entry. */
  ghost predicate Mirrors(cache: Cache, m: LogModel) {
    cache == Cache(m.vote, m.committed, m.lastPurged, LastId(m.log))
  }

  // ── Scanning ─────────────────────────────────────────────────────────────

  type Pairs = seq<(Bytes, Blob)>

  /** Key-ordered scan of everything under the log prefix. */
  ghost predicate IsScan(db: Db, raw: Pairs) {
    && (forall i, j :: 0 <= i < j < |raw| ==> Less(raw[i].0, raw[j].0))
    && (forall i :: 0 <= i < |raw| ==> HasLogPrefix(raw[i].0) && raw[i].0 in db && db[raw[i].0] == raw[i].1)
    && (forall k :: k in db && HasLogPrefix(k) ==> (k, db[k]) in raw)
  }

  /** In a well-formed database a scan is the log in index order. */
  lemma ScanIsLog(db: Db, raw: Pairs, i: nat)
    requires WellFormed(db) && IsScan(db, raw) && i < |raw|
    ensures raw[i].1.EntryBlob? && LogIndexFromKey(raw[i].0) == Some(raw[i].1.entry.id.index)
    ensures raw[i].1.entry.id.index in LogOf(db) && LogOf(db)[raw[i].1.entry.id.index] == raw[i].1.entry
    ensures forall j :: i < j < |raw| && raw[j].1.EntryBlob? ==> raw[i].1.entry.id.index < raw[j].1.entry.id.index
  {
    hide LogKey, LogIndexFromKey, HasLogPrefix, Less;
    var e := raw[i].1.entry;
    KeyRoundTrip(raw[i].0, e.id.index);
    forall j | i < j < |raw| && raw[j].1.EntryBlob?
      ensures e.id.index < raw[j].1.entry.id.index
    {
      KeyOrder(e.id.index, raw[j].1.entry.id.index);
    }
  }

  /** Nothing stored is missed. */
  lemma ScanHasAll(db: Db, raw: Pairs, n: Index)
    requires WellFormed(db) && IsScan(db, raw) && n in LogOf(db)
    ensures exists i :: 0 <= i < |raw| && raw[i] == (LogKey(n), EntryBlob(LogOf(db)[n]))
  {
  }

  /** The last pair of a scan is the entry with the highest index: no need to read the rest. */
  lemma LastOfScan(db: Db, raw: Pairs)
    requires WellFormed(db) && IsScan(db, raw)
    ensures raw == [] ==> LastId(LogOf(db)) == None
    ensures raw != [] ==> raw[|raw| - 1].1.EntryBlob? && LastId(LogOf(db)) == Some(raw[|raw| - 1].1.entry.id)
  {
    hide IsScan, LogKey, WellFormed;
    var log := LogOf(db);
    if raw == [] {
      if log.Keys != {} {
        ScanHasAll(db, raw, Max(log.Keys));
      }
    } else {
      ScanIsLog(db, raw, |raw| - 1);
      var last := raw[|raw| - 1].1.entry;
      assert last.id.index in log.Keys;
      var m := Max(log.Keys);
      ScanHasAll(db, raw, m);
      var i :| 0 <= i < |raw| && raw[i] == (LogKey(m), EntryBlob(log[m]));
      ScanIsLog(db, raw, i);
    }
  }

  // ── What each operation writes ───────────────────────────────────────────

  function Puts(entries: seq<Entry>): (ops: seq<Write>)
    ensures |ops| == |entries|
  {
    if entries == [] then [] else [Put(LogKey(entries[0].id.index), EntryBlob(entries[0]))] + Puts(entries[1..])
  }

  function Without(db: Db, lo: Bound, hi: Bound): (db': Db) {
    map k | k in db && !(LogIndexFromKey(k).Some? && Within(lo, hi, LogIndexFromKey(k).value)) :: db[k]
  }

  /** The database after the operation's one atomic write. */
  function Written(db: Db, op: Op): (db': Db) {
    match op
    case SaveVote(v) => db[VoteKey() := VoteBlob(v)]
    case SaveCommitted(c) => if c.Some? then db[CommittedKey() := IdBlob(c.value)] else db - {CommittedKey()}
    case Append(es) => WriteBatch(db, Puts(es))
    case Truncate(id) => Without(db, Included(id.index), Unbounded)
    case Purge(id) => Without(db, Unbounded, Included(id.index))[LastPurgedKey() := IdBlob(id)]
    case _ => db
  }

  lemma LogIs(db: Db, log: Log)
    requires WellFormed(db) && (forall i :: i in log <==> LogKey(i) in db)
    requires forall i :: i in log ==> db[LogKey(i)] == EntryBlob(log[i])
    ensures LogOf(db) == log
  {
    hide LogKey, LogOf, WellFormed;
    var got := LogOf(db);
    forall i | i in log
      ensures got[i] == log[i]
    {
      assert db[LogKey(i)] == EntryBlob(got[i]) == EntryBlob(log[i]);
    }
  }

  lemma PutEntry(db: Db, e: Entry)
    requires WellFormed(db)
    ensures var db' := db[LogKey(e.id.index) := EntryBlob(e)];
            && WellFormed(db')
            && ModelOf(db') == ModelOf(db).(log := LogOf(db)[e.id.index := e])
  {
    hide LogKey, VoteKey, CommittedKey, LastPurgedKey, HasLogPrefix;
    MarkersApart();
    var db' := db[LogKey(e.id.index) := EntryBlob(e)];
    forall i: Index
      ensures LogKey(i) == LogKey(e.id.index) <==> i == e.id.index
    {
      KeyInjective(i, e.id.index);
    }
    assert WellFormed(db');
    LogIs(db', LogOf(db)[e.id.index := e]);
  }

  lemma {:induction false} PutEntries(db: Db, es: seq<Entry>)
    requires WellFormed(db)
    ensures WellFormed(WriteBatch(db, Puts(es)))
    ensures ModelOf(WriteBatch(db, Puts(es))) == ModelOf(db).(log := Appended(LogOf(db), es))
    decreases |es|
  {
    hide WellFormed, LogKey;
    if es != [] {
      var db' := db[LogKey(es[0].id.index) := EntryBlob(es[0])];
      PutEntry(db, es[0]);
      PutEntries(db', es[1..]);
      assert Puts(es)[1..] == Puts(es[1..]);
    }
  }

  /** Writing a marker leaves the log and the other markers alone. */
  lemma PutMarker(db: Db, db': Db, k: Bytes)
    requires WellFormed(db) && !HasLogPrefix(k) && db' - {k} == db - {k}
    requires VoteKey() in db' ==> db'[VoteKey()].VoteBlob?
    requires CommittedKey() in db' ==> db'[CommittedKey()].IdBlob?
    requires LastPurgedKey() in db' ==> db'[LastPurgedKey()].IdBlob?
    ensures WellFormed(db') && LogOf(db') == LogOf(db)
  {
    hide LogKey, VoteKey, CommittedKey, LastPurgedKey, HasLogPrefix;
    MarkersApart();
    forall j | j != k
      ensures j in db <==> j in db'
      ensures j in db ==> db[j] == db'[j]
    {
      assert j in db - {k} <==> j in db' - {k};
      if j in db {
        assert (db - {k})[j] == db[j] && (db' - {k})[j] == db'[j];
      }
    }
    LogIs(db', LogOf(db));
  }

  lemma Removed(db: Db, lo: Bound, hi: Bound)
    requires WellFormed(db)
    ensures WellFormed(Without(db, lo, hi))
    ensures ModelOf(Without(db, lo, hi))
         == ModelOf(db).(log := map i | i in LogOf(db) && !Within(lo, hi, i) :: LogOf(db)[i])
  {
    hide LogKey, VoteKey, CommittedKey, LastPurgedKey, Within;
    MarkersApart();
    var db' := Without(db, lo, hi);
    forall i: Index
      ensures LogIndexFromKey(LogKey(i)) == Some(i)
    {
      KeyRoundTrip(LogKey(i), i);
    }
    assert WellFormed(db');
    LogIs(db', map i | i in LogOf(db) && !Within(lo, hi, i) :: LogOf(db)[i]);
  }

  /** The durable state moves exactly as the model does. */
  lemma WriteRefines(db: Db, op: Op)
    requires WellFormed(db)
    ensures WellFormed(Written(db, op)) && ModelOf(Written(db, op)) == Next(ModelOf(db), op)
  {
    hide LogKey, WellFormed, LogOf, Without, VoteKey, CommittedKey, LastPurgedKey, HasLogPrefix;
    MarkersApart();
    match op {
      case SaveVote(v) => VoteWritten(db, v);
      case SaveCommitted(c) => CommittedWritten(db, c);
      case Append(es) => PutEntries(db, es);
      case Truncate(id) => TruncateWritten(db, id);
      case Purge(id) => PurgeWritten(db, id);
      case _ =>
    }
  }

  lemma VoteWritten(db: Db, v: Vote)
    requires WellFormed(db)
    ensures var db' := Written(db, SaveVote(v)); WellFormed(db') && ModelOf(db') == ModelOf(db).(vote := Some(v))
  {
    hide LogKey, VoteKey, CommittedKey, LastPurgedKey, HasLogPrefix;
    MarkersApart();
    PutMarker(db, Written(db, SaveVote(v)), VoteKey());
  }

  lemma CommittedWritten(db: Db, c: Option<LogId>)
    requires WellFormed(db)
    ensures var db' := Written(db, SaveCommitted(c)); WellFormed(db') && ModelOf(db') == ModelOf(db).(committed := c)
  {
    hide LogKey, VoteKey, CommittedKey, LastPurgedKey, HasLogPrefix;
    MarkersApart();
    PutMarker(db, Written(db, SaveCommitted(c)), CommittedKey());
  }

  lemma PurgeMarked(db: Db, id: LogId)
    requires WellFormed(db)
    ensures var db' := db[LastPurgedKey() := IdBlob(id)];
            WellFormed(db') && ModelOf(db') == ModelOf(db).(lastPurged := Some(id))
  {
    hide LogKey, VoteKey, CommittedKey, LastPurgedKey, HasLogPrefix;
    MarkersApart();
    PutMarker(db, db[LastPurgedKey() := IdBlob(id)], LastPurgedKey());
  }

  lemma CutsAre(log: Log, at: Index)
    ensures Truncated(log, at) == map i | i in log && !Within(Included(at), Unbounded, i) :: log[i]
    ensures Purged(log, at) == map i | i in log && !Within(Unbounded, Included(at), i) :: log[i]
  {
  }

  lemma TruncateWritten(db: Db, id: LogId)
    requires WellFormed(db)
    ensures var db' := Written(db, Truncate(id));
            WellFormed(db') && ModelOf(db') == ModelOf(db).(log := Truncated(LogOf(db), id.index))
  {
    hide WellFormed, Without, Within, LogOf, Truncated;
    Removed(db, Included(id.index), Unbounded);
    CutsAre(LogOf(db), id.index);
  }

  lemma PurgeWritten(db: Db, id: LogId)
    requires WellFormed(db)
    ensures var db' := Written(db, Purge(id));
            WellFormed(db') && ModelOf(db') == ModelOf(db).(log := Purged(LogOf(db), id.index), lastPurged := Some(id))
  {
    hide WellFormed, Without, Within, LogOf, Purged;
    Removed(db, Unbounded, Included(id.index));
    CutsAre(LogOf(db), id.index);
    PurgeMarked(Without(db, Unbounded, Included(id.index)), id);
  }
}
