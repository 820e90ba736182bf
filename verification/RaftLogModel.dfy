/** The Raft log as its user sees it, and the in-memory store that keeps it directly. */
module RaftLogModel {
  import opened Wrappers
  import opened RaftKeys

  datatype LogId = LogId(term: nat, node: nat, index: Index)
  datatype Vote = Vote(term: nat, node: nat, committed: bool)
  datatype Entry = Entry(id: LogId, payload: nat)

  type Log = map<Index, Entry>

  datatype LogModel = LogModel(vote: Option<Vote>, committed: Option<LogId>, lastPurged: Option<LogId>, log: Log)

  datatype Bound = Included(at: Index) | Excluded(at: Index) | Unbounded

  datatype Op =
    | SaveVote(vote: Vote)
    | ReadVote
    | SaveCommitted(committed: Option<LogId>)
    | ReadCommitted
    | Append(entries: seq<Entry>)
    | Truncate(from: LogId)
    | Purge(upTo: LogId)
    | ReadRange(lo: Bound, hi: Bound)
    | GetLogState

  datatype Reply =
    | Ack
    | VoteIs(vote: Option<Vote>)
    | CommittedIs(committed: Option<LogId>)
    | Entries(entries: seq<Entry>)
    | StateIs(lastPurged: Option<LogId>, last: Option<LogId>)
    | Panicked
    | Unreadable

  // ── Ordered views of a log ───────────────────────────────────────────────

  ghost predicate IsMax(s: set<Index>, m: Index) {
    m in s && forall j :: j in s ==> j <= m
  }

  lemma {:induction false} MaxExists(s: set<Index>)
    requires s != {}
    ensures exists m :: IsMax(s, m)
  {
    var x :| x in s;
    var rest := s - {x};
    assert forall j :: j in s <==> j == x || j in rest;
    if rest == {} {
      assert IsMax(s, x);
    } else {
      MaxExists(rest);
      var m :| IsMax(rest, m);
      assert IsMax(s, if x > m then x else m);
    }
  }

  ghost function Max(s: set<Index>): (m: Index)
    requires s != {}
    ensures IsMax(s, m)
  {
    MaxExists(s);
    var m :| IsMax(s, m);
    m
  }

  /** The id of the entry with the highest index. */
  ghost function LastId(log: Log): (id: Option<LogId>) {
    if log.Keys == {} then None else Some(log[Max(log.Keys)].id)
  }

  predicate Within(lo: Bound, hi: Bound, i: Index) {
    && (match lo case Included(s) => i >= s case Excluded(s) => i > s case Unbounded => true)
    && (match hi case Included(e) => i <= e case Excluded(e) => i < e case Unbounded => true)
  }

  /** Ranges `BTreeMap::range` refuses: start beyond end, or equal and both excluded. */
  predicate BadRange(lo: Bound, hi: Bound) {
    !lo.Unbounded? && !hi.Unbounded? && (lo.at > hi.at || (lo.at == hi.at && lo.Excluded? && hi.Excluded?))
  }

  ghost predicate Ascending(es: seq<Entry>) {
    forall i, j :: 0 <= i < j < |es| ==> es[i].id.index < es[j].id.index
  }

  /** `es` lists, in index order, the entries at those of `indices` that lie within the bounds. */
  ghost predicate Lists(log: Log, indices: set<Index>, lo: Bound, hi: Bound, es: seq<Entry>)
    requires indices <= log.Keys
  {
    && Ascending(es)
    && (forall e :: e in es ==> e.id.index in indices && log[e.id.index] == e && Within(lo, hi, e.id.index))
    && (forall i :: i in indices && Within(lo, hi, i) ==> log[i] in es)
  }

  /** `es` is the part of the log within the bounds, in index order. */
  ghost predicate IsRange(log: Log, lo: Bound, hi: Bound, es: seq<Entry>) {
    Lists(log, log.Keys, lo, hi, es)
  }

  /** Every entry is stored under its own index. */
  ghost predicate Indexed(log: Log) {
    forall i :: i in log ==> log[i].id.index == i
  }

  lemma {:induction false} AscendingUnique(es: seq<Entry>, fs: seq<Entry>)
    requires Ascending(es) && Ascending(fs) && forall e :: e in es <==> e in fs
    ensures es == fs
  {
    assert fs != [] ==> fs[0] in fs;
    if es != [] {
      assert es[0] in es && es[0] in fs && fs[0] in es;
      assert es[0] == fs[0];
      forall e
        ensures e in es[1..] <==> e in fs[1..]
      {
        TailOf(es, e);
        TailOf(fs, e);
      }
      AscendingUnique(es[1..], fs[1..]);
    }
  }

  lemma TailOf(es: seq<Entry>, e: Entry)
    requires es != [] && Ascending(es)
    ensures e in es[1..] <==> e in es && e != es[0]
  {
  }

  /** The range is determined by the log. */
  lemma RangeUnique(log: Log, lo: Bound, hi: Bound, es: seq<Entry>, fs: seq<Entry>)
    requires IsRange(log, lo, hi, es) && IsRange(log, lo, hi, fs)
    ensures es == fs
  {
    AscendingUnique(es, fs);
  }

  lemma ListOneMore(log: Log, indices: set<Index>, lo: Bound, hi: Bound, es: seq<Entry>, m: Index)
    requires Indexed(log) && indices <= log.Keys && IsMax(indices, m) && Lists(log, indices - {m}, lo, hi, es)
    ensures Lists(log, indices, lo, hi, if Within(lo, hi, m) then es + [log[m]] else es)
  {
  }

  lemma {:induction false} ListExists(log: Log, indices: set<Index>, lo: Bound, hi: Bound)
    requires Indexed(log) && indices <= log.Keys
    ensures exists es :: Lists(log, indices, lo, hi, es)
    decreases |indices|
  {
    hide Lists;
    if indices == {} {
      ListNone(log, lo, hi);
    } else {
      var m := Max(indices);
      ListExists(log, indices - {m}, lo, hi);
      var es :| Lists(log, indices - {m}, lo, hi, es);
      ListOneMore(log, indices, lo, hi, es, m);
    }
  }

  lemma ListNone(log: Log, lo: Bound, hi: Bound)
    ensures Lists(log, {}, lo, hi, [])
  {
  }

  ghost function RangeOf(log: Log, lo: Bound, hi: Bound): (es: seq<Entry>)
    requires Indexed(log)
    ensures IsRange(log, lo, hi, es)
  {
    ListExists(log, log.Keys, lo, hi);
    var es :| Lists(log, log.Keys, lo, hi, es);
    es
  }

  // ── Operations on the model ──────────────────────────────────────────────

  function Appended(log: Log, entries: seq<Entry>): (log': Log)
    decreases |entries|
  {
    if entries == [] then log else Appended(log[entries[0].id.index := entries[0]], entries[1..])
  }

  function Truncated(log: Log, from: Index): (log': Log) {
    map i | i in log && i < from :: log[i]
  }

  function Purged(log: Log, upTo: Index): (log': Log) {
    map i | i in log && i > upTo :: log[i]
  }

  function Next(m: LogModel, op: Op): (m': LogModel) {
    match op
    case SaveVote(v) => m.(vote := Some(v))
    case SaveCommitted(c) => m.(committed := c)
    case Append(es) => m.(log := Appended(m.log, es))
    case Truncate(id) => m.(log := Truncated(m.log, id.index))
    case Purge(id) => m.(log := Purged(m.log, id.index), lastPurged := Some(id))
    case _ => m
  }

  function Or<T>(a: Option<T>, b: Option<T>): (r: Option<T>) {
    if a.Some? then a else b
  }

  /** What the in-memory store answers. */
  ghost function Answer(m: LogModel, op: Op): (r: Reply)
    requires Indexed(m.log)
  {
    match op
    case ReadVote => VoteIs(m.vote)
    case ReadCommitted => CommittedIs(m.committed)
    case GetLogState => StateIs(m.lastPurged, Or(LastId(m.log), m.lastPurged))
    case ReadRange(lo, hi) => if BadRange(lo, hi) then Panicked else Entries(RangeOf(m.log, lo, hi))
    case _ => Ack
  }

  lemma {:induction false} AppendedIndexed(log: Log, entries: seq<Entry>)
    requires Indexed(log)
    ensures Indexed(Appended(log, entries))
    decreases |entries|
  {
    if entries != [] {
      AppendedIndexed(log[entries[0].id.index := entries[0]], entries[1..]);
    }
  }

  lemma NextIndexed(m: LogModel, op: Op)
    requires Indexed(m.log)
    ensures Indexed(Next(m, op).log)
  {
    if op.Append? {
      AppendedIndexed(m.log, op.entries);
    }
  }
}
