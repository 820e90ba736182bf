/** `L3RaftLogStore` as it runs: a database and four cached cells, updated in place by loops over scans. */
module RaftLogL3 {
  import opened Wrappers
  import opened Bytes
  import opened RaftKeys
  import opened RaftLogModel
  import opened RaftLogStore
  import opened RaftLogRuns

  // ── The key-ordered prefix scan the database promises ────────────────────

  function InsertPair(a: (Bytes, Blob), raw: Pairs): (r: Pairs) {
    if raw == [] || Less(a.0, raw[0].0) then [a] + raw else [raw[0]] + InsertPair(a, raw[1..])
  }

  ghost predicate InKeyOrder(raw: Pairs) {
    forall i, j :: 0 <= i < j < |raw| ==> Less(raw[i].0, raw[j].0)
  }

  lemma {:induction false} InsertPairSorted(a: (Bytes, Blob), raw: Pairs)
    requires InKeyOrder(raw) && forall i :: 0 <= i < |raw| ==> raw[i].0 != a.0
    ensures InKeyOrder(InsertPair(a, raw))
    ensures forall p :: p in InsertPair(a, raw) <==> p == a || p in raw
  {
    hide Less;
    if raw == [] {
    } else if Less(a.0, raw[0].0) {
      forall i | 0 < i < |raw|
        ensures Less(a.0, raw[i].0)
      {
        LessTransitive(a.0, raw[0].0, raw[i].0);
      }
    } else {
      LessTotal(a.0, raw[0].0);
      InsertPairSorted(a, raw[1..]);
      assert forall p :: p in raw <==> p == raw[0] || p in raw[1..];
      var r := InsertPair(a, raw[1..]);
      assert forall i :: 0 <= i < |r| ==> r[i] in r;
    }
  }

  method ScanPrefix(db: Db) returns (raw: Pairs)
    ensures IsScan(db, raw)
  {
    hide Less, HasLogPrefix;
    raw := [];
    var rest := db.Keys;
    while rest != {}
      invariant rest <= db.Keys && InKeyOrder(raw)
      invariant forall p :: p in raw <==> HasLogPrefix(p.0) && p.0 in db && p.0 !in rest && db[p.0] == p.1
    {
      var k :| k in rest;
      if HasLogPrefix(k) {
        InsertPairSorted((k, db[k]), raw);
        raw := InsertPair((k, db[k]), raw);
      }
      rest := rest - {k};
    }
    assert forall i :: 0 <= i < |raw| ==> raw[i] in raw;
  }

  // ── Batches ──────────────────────────────────────────────────────────────

  lemma {:induction false} WriteBatchSnoc(db: Db, ops: seq<Write>, k: Bytes)
    ensures WriteBatch(db, ops + [Delete(k)]) == WriteBatch(db, ops) - {k}
    decreases |ops|
  {
    if ops == [] {
      assert ops + [Delete(k)] == [Delete(k)];
      assert WriteBatch(db - {k}, [Delete(k)][1..]) == db - {k};
    } else {
      assert (ops + [Delete(k)])[1..] == ops[1..] + [Delete(k)];
      WriteBatchSnoc(match ops[0] case Put(j, v) => db[j := v] case Delete(j) => db - {j}, ops[1..], k);
    }
  }

  predicate Doomed(k: Bytes, lo: Bound, hi: Bound) {
    LogIndexFromKey(k).Some? && Within(lo, hi, LogIndexFromKey(k).value)
  }

  /** Delete every scanned key whose index lies within the bounds. */
  method Deletes(db: Db, lo: Bound, hi: Bound) returns (ops: seq<Write>)
    ensures WriteBatch(db, ops) == Without(db, lo, hi)
  {
    hide LogIndexFromKey, Within, HasLogPrefix, WriteBatch;
    var raw := ScanPrefix(db);
    ops := [];
    ghost var gone: set<Bytes> := {};
    BatchOfNothing(db);
    for i := 0 to |raw|
      invariant WriteBatch(db, ops) == db - gone
      invariant forall k :: k in gone ==> Doomed(k, lo, hi)
      invariant forall j :: 0 <= j < i && Doomed(raw[j].0, lo, hi) ==> raw[j].0 in gone
    {
      var k := raw[i].0;
      var idx := LogIndexFromKey(k);
      if idx.Some? {
        if Within(lo, hi, idx.value) {
          WriteBatchSnoc(db, ops, k);
          ops := ops + [Delete(k)];
          gone := gone + {k};
        }
      }
    }
    forall k | k in db && Doomed(k, lo, hi)
      ensures k in gone
    {
      IndexedHasPrefix(k);
      assert (k, db[k]) in raw;
    }
    assert db - gone == Without(db, lo, hi);
  }

  lemma IndexedHasPrefix(k: Bytes)
    requires LogIndexFromKey(k).Some?
    ensures HasLogPrefix(k)
  {
  }

  lemma BatchOfNothing(db: Db)
    ensures WriteBatch(db, []) == db - {}
  {
  }

  /** The id in the last pair of a fresh scan; unreadable if that value is no entry. */
  method LastScanned(db: Db) returns (ok: bool, last: Option<LogId>)
    ensures WellFormed(db) ==> ok && last == LastId(LogOf(db))
  {
    hide WellFormed, LogOf, LastId, IsScan;
    var raw := ScanPrefix(db);
    if WellFormed(db) {
      LastOfScan(db, raw);
    }
    if raw == [] {
      return true, None;
    }
    match raw[|raw| - 1].1 {
      case EntryBlob(e) => return true, Some(e.id);
      case _ => return false, None;
    }
  }

  /** The puts of an append, and the last id to cache with them. */
  method AppendBatch(last: Option<LogId>, entries: seq<Entry>) returns (ops: seq<Write>, newLast: Option<LogId>)
    ensures ops == Puts(entries) && newLast == NewLast(last, entries)
    ensures ops == [] ==> newLast == last
  {
    hide LogKey, Puts, NewLast;
    ops, newLast := [], last;
    BatchStart(last, entries);
    for k := 0 to |entries|
      invariant |ops| == k && ops + Puts(entries[k..]) == Puts(entries)
      invariant newLast == NewLast(last, entries[..k])
    {
      var entry := entries[k];
      BatchNext(last, entries, k);
      newLast := if newLast.Some? && newLast.value.index >= entry.id.index then newLast else Some(entry.id);
      ops := ops + [Put(LogKey(entry.id.index), EntryBlob(entry))];
    }
    BatchEnd(entries);
  }

  lemma BatchStart(last: Option<LogId>, entries: seq<Entry>)
    ensures Puts(entries[0..]) == Puts(entries) && NewLast(last, entries[..0]) == last
  {
    assert entries[0..] == entries;
  }

  lemma BatchNext(last: Option<LogId>, entries: seq<Entry>, k: nat)
    requires k < |entries|
    ensures Puts(entries[k..]) == [Put(LogKey(entries[k].id.index), EntryBlob(entries[k]))] + Puts(entries[k + 1..])
    ensures NewLast(last, entries[..k + 1]) == Keep(NewLast(last, entries[..k]), entries[k].id)
  {
    assert entries[k..][1..] == entries[k + 1..];
    assert entries[..k + 1][..k] == entries[..k];
  }

  lemma BatchEnd(entries: seq<Entry>)
    ensures Puts(entries[|entries|..]) == [] && entries[..|entries|] == entries
  {
  }

  class L3RaftLogStore {
    var db: Db
    var vote: Option<Vote>
    var committed: Option<LogId>
    var lastPurged: Option<LogId>
    var last: Option<LogId>

    ghost predicate Valid()
      reads this
    {
      WellFormed(db)
    }

    ghost function State(): (n: Node)
      reads this
    {
      Running(db, Cache(vote, committed, lastPurged, last))
    }

    constructor (db: Db, cache: Cache)
      ensures State() == Running(db, cache)
    {
      this.db, vote, committed, lastPurged, last := db, cache.vote, cache.committed, cache.lastPurged, cache.last;
    }

    /** Read the markers and the tail of the log back; null when some value cannot be read. */
    static method Open(db: Db) returns (store: L3RaftLogStore?)
      ensures WellFormed(db) ==> store != null && fresh(store) && store.State() == Opened(db)
    {
      hide LogOf, LastId, VoteKey, CommittedKey, LastPurgedKey, HasLogPrefix, LogKey;
      var v, c, p := None, None, None;
      if VoteKey() in db {
        if !db[VoteKey()].VoteBlob? { return null; }
        v := Some(db[VoteKey()].vote);
      }
      if CommittedKey() in db {
        if !db[CommittedKey()].IdBlob? { return null; }
        c := Some(db[CommittedKey()].id);
      }
      if LastPurgedKey() in db {
        if !db[LastPurgedKey()].IdBlob? { return null; }
        p := Some(db[LastPurgedKey()].id);
      }
      var ok, l := LastScanned(db);
      if !ok {
        return null;
      }
      store := new L3RaftLogStore(db, Cache(v, c, p, l));
    }

    method TryGetLogEntries(lo: Bound, hi: Bound) returns (r: Reply)
      requires Valid()
      ensures Some(r) == ReplyTo(HeldThroughBlock, State(), Do(ReadRange(lo, hi)))
    {
      hide WellFormed, IsScan, Less, LogIndexFromKey, HasLogPrefix, LogOf, Within, LogKey, Lists, Scanned;
      var raw := ScanPrefix(db);
      var out: seq<Entry> := [];
      ghost var log := LogOf(db);
      ghost var seen: set<Index> := {};
      NothingScanned(log, raw, lo, hi);
      for i := 0 to |raw|
        invariant seen <= log.Keys && Lists(log, seen, lo, hi, out) && Scanned(raw, i, seen)
      {
        ScanIsLog(db, raw, i);
        ScannedAscending(db, raw, i, seen);
        ScannedOneMore(raw, i, seen);
        ghost var n := raw[i].1.entry.id.index;
        ListNext(log, seen, lo, hi, out, n);
        var idx := LogIndexFromKey(raw[i].0);
        if idx.None? {
          continue;
        }
        if Within(lo, hi, idx.value) {
          match raw[i].1 {
            case EntryBlob(e) => out := out + [e];
            case _ => return Unreadable;
          }
        }
        seen := seen + {n};
      }
      AllScanned(db, raw, seen);
      RangeUnique(log, lo, hi, out, RangeOf(log, lo, hi));
      r := Entries(out);
    }

    method GetLogState() returns (r: Reply)
      requires Valid()
      ensures Some(r) == ReplyTo(HeldThroughBlock, State(), Do(RaftLogModel.GetLogState))
      ensures r.StateIs? && r.lastPurged == lastPurged
      ensures Mirrors(State().cache, ModelOf(db)) && LogOf(db) == map[] ==> r.last == lastPurged
      ensures Mirrors(State().cache, ModelOf(db)) ==>
                forall i :: IsMax(LogOf(db).Keys, i) ==> r.last == Some(LogOf(db)[i].id)
    {
      r := StateIs(lastPurged, Or(last, lastPurged));
    }

    method ReadVote() returns (r: Reply)
      requires Valid()
      ensures Some(r) == ReplyTo(HeldThroughBlock, State(), Do(RaftLogModel.ReadVote))
    {
      r := VoteIs(vote);
    }

    method ReadCommitted() returns (r: Reply)
      requires Valid()
      ensures Some(r) == ReplyTo(HeldThroughBlock, State(), Do(RaftLogModel.ReadCommitted))
    {
      r := CommittedIs(committed);
    }

    method SaveVote(v: Vote)
      requires Valid()
      modifies this
      ensures Valid() && State() == Step(HeldThroughBlock, old(State()), Do(RaftLogModel.SaveVote(v)))
    {
      hide WellFormed, VoteKey, CommittedKey, LastPurgedKey;
      WriteRefines(db, RaftLogModel.SaveVote(v));
      db := db[VoteKey() := VoteBlob(v)];
      vote := Some(v);
    }

    method SaveCommitted(c: Option<LogId>)
      requires Valid()
      modifies this
      ensures Valid() && State() == Step(HeldThroughBlock, old(State()), Do(RaftLogModel.SaveCommitted(c)))
    {
      hide WellFormed, VoteKey, CommittedKey, LastPurgedKey;
      WriteRefines(db, RaftLogModel.SaveCommitted(c));
      match c {
        case Some(id) => db := db[CommittedKey() := IdBlob(id)];
        case None => db := db - {CommittedKey()};
      }
      committed := c;
    }

    method Append(entries: seq<Entry>)
      requires Valid()
      modifies this
      ensures Valid() && State() == Step(HeldThroughBlock, old(State()), Do(RaftLogModel.Append(entries)))
    {
      hide WellFormed, LogKey, Puts, NewLast;
      var ops, newLast := AppendBatch(last, entries);
      WriteRefines(db, RaftLogModel.Append(entries));
      if ops != [] {
        db := WriteBatch(db, ops);
        last := newLast;
      }
    }

    /** Returns false when a stored value could not be read back; in a valid store that never happens. */
    method Truncate(id: LogId) returns (ok: bool)
      requires Valid()
      modifies this
      ensures ok && Valid() && State() == Step(HeldThroughBlock, old(State()), Do(RaftLogModel.Truncate(id)))
    {
      hide WellFormed, LogOf, LastId;
      WriteRefines(db, RaftLogModel.Truncate(id));
      var ops := Deletes(db, Included(id.index), Unbounded);
      if ops != [] {
        db := WriteBatch(db, ops);
      }
      var newLast;
      ok, newLast := LastScanned(db);
      last := newLast;
    }

    /** Returns whether the call is stuck asking for a lock it holds; everything before that has taken effect. */
    method Purge(scope: GuardScope, id: LogId) returns (stuck: bool)
      requires Valid()
      modifies this
      ensures Valid() && stuck == Step(scope, old(State()), Do(RaftLogModel.Purge(id))).Hung?
      ensures db == Step(scope, old(State()), Do(RaftLogModel.Purge(id))).db
      ensures !stuck ==> State() == Step(scope, old(State()), Do(RaftLogModel.Purge(id)))
    {
      hide WellFormed, LogOf, LastPurgedKey, Without;
      WriteRefines(db, RaftLogModel.Purge(id));
      var ops := Deletes(db, Unbounded, Included(id.index));
      PutLast(db, ops, LastPurgedKey(), IdBlob(id));
      ops := ops + [Put(LastPurgedKey(), IdBlob(id))];
      db := WriteBatch(db, ops);
      lastPurged := Some(id);
      match last {
        case Some(current) =>
          if current.index <= id.index {
            if scope.HeldThroughBlock? {
              return true;
            }
            last := None;
          }
        case None =>
      }
      stuck := false;
    }
  }

  lemma {:induction false} PutLast(db: Db, ops: seq<Write>, k: Bytes, v: Blob)
    ensures WriteBatch(db, ops + [Put(k, v)]) == WriteBatch(db, ops)[k := v]
    decreases |ops|
  {
    if ops == [] {
      assert ops + [Put(k, v)] == [Put(k, v)];
      assert WriteBatch(db[k := v], [Put(k, v)][1..]) == db[k := v];
    } else {
      assert (ops + [Put(k, v)])[1..] == ops[1..] + [Put(k, v)];
      PutLast(match ops[0] case Put(j, w) => db[j := w] case Delete(j) => db - {j}, ops[1..], k, v);
    }
  }

  /** `seen` holds exactly the indices of the first `i` pairs. */
  ghost predicate Scanned(raw: Pairs, i: nat, seen: set<Index>)
    requires i <= |raw|
  {
    && (forall j :: 0 <= j < i && raw[j].1.EntryBlob? ==> raw[j].1.entry.id.index in seen)
    && (forall n :: n in seen ==> exists j :: 0 <= j < i && raw[j].1.EntryBlob? && raw[j].1.entry.id.index == n)
  }

  lemma NothingScanned(log: Log, raw: Pairs, lo: Bound, hi: Bound)
    ensures Scanned(raw, 0, {}) && Lists(log, {}, lo, hi, [])
  {
  }

  lemma ScannedAscending(db: Db, raw: Pairs, i: nat, seen: set<Index>)
    requires WellFormed(db) && IsScan(db, raw) && i < |raw| && Scanned(raw, i, seen)
    ensures raw[i].1.EntryBlob? && forall n :: n in seen ==> n < raw[i].1.entry.id.index
  {
    hide WellFormed, IsScan, LogOf;
    ScanIsLog(db, raw, i);
    forall n | n in seen
      ensures n < raw[i].1.entry.id.index
    {
      var j :| 0 <= j < i && raw[j].1.EntryBlob? && raw[j].1.entry.id.index == n;
      ScanIsLog(db, raw, j);
    }
  }

  lemma ScannedOneMore(raw: Pairs, i: nat, seen: set<Index>)
    requires i < |raw| && raw[i].1.EntryBlob? && Scanned(raw, i, seen)
    ensures Scanned(raw, i + 1, seen + {raw[i].1.entry.id.index})
  {
    var seen' := seen + {raw[i].1.entry.id.index};
    forall n | n in seen'
      ensures exists j :: 0 <= j < i + 1 && raw[j].1.EntryBlob? && raw[j].1.entry.id.index == n
    {
      if n in seen {
        var j :| 0 <= j < i && raw[j].1.EntryBlob? && raw[j].1.entry.id.index == n;
      }
    }
  }

  lemma ListNext(log: Log, seen: set<Index>, lo: Bound, hi: Bound, out: seq<Entry>, n: Index)
    requires Indexed(log) && seen <= log.Keys && n in log && Lists(log, seen, lo, hi, out)
    requires forall i :: i in seen ==> i < n
    ensures Lists(log, seen + {n}, lo, hi, if Within(lo, hi, n) then out + [log[n]] else out)
  {
    hide Lists, Within;
    assert (seen + {n}) - {n} == seen && IsMax(seen + {n}, n);
    ListOneMore(log, seen + {n}, lo, hi, out, n);
  }

  lemma AllScanned(db: Db, raw: Pairs, seen: set<Index>)
    requires WellFormed(db) && IsScan(db, raw) && seen <= LogOf(db).Keys && Scanned(raw, |raw|, seen)
    ensures seen == LogOf(db).Keys
  {
    hide WellFormed, IsScan, LogKey;
    forall n | n in LogOf(db)
      ensures n in seen
    {
      ScanHasAll(db, raw, n);
      var i :| 0 <= i < |raw| && raw[i] == (LogKey(n), EntryBlob(LogOf(db)[n]));
    }
  }
}
