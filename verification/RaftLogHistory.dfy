/** What the log store answers, told from the operations of a run alone. */
module RaftLogHistory {
  import opened Wrappers
  import opened RaftKeys
  import opened RaftLogModel
  import opened RaftLogStore
  import opened RaftLogRuns
  import opened RaftLogPlain

  const Nothing := LogModel(None, None, None, map[])

  /** The operation whose write took effect, if any. */
  function Effect(e: Event): (op: Option<Op>) {
    match e
    case Do(op) => Some(op)
    case Crash(op, wrote) => if wrote then Some(op) else None
    case Restart => None
  }

  /** The last vote saved. */
  function LastVote(es: seq<Event>): (v: Option<Vote>) {
    if es == [] then None
    else
      match Effect(es[|es| - 1])
      case Some(SaveVote(v)) => Some(v)
      case _ => LastVote(es[..|es| - 1])
  }

  /** What the last `save_committed` saved. */
  function LastCommitted(es: seq<Event>): (c: Option<LogId>) {
    if es == [] then None
    else
      match Effect(es[|es| - 1])
      case Some(SaveCommitted(c)) => c
      case _ => LastCommitted(es[..|es| - 1])
  }

  /** The id of the last purge. */
  function LastPurge(es: seq<Event>): (id: Option<LogId>) {
    if es == [] then None
    else
      match Effect(es[|es| - 1])
      case Some(Purge(id)) => Some(id)
      case _ => LastPurge(es[..|es| - 1])
  }

  /** The last of the entries with that index. */
  function LastAt(entries: seq<Entry>, i: Index): (e: Option<Entry>) {
    if entries == [] then None
    else
      var e := entries[|entries| - 1];
      if e.id.index == i then Some(e) else LastAt(entries[..|entries| - 1], i)
  }

  /** The entry last appended at `i`, unless the log was truncated at or below `i`, or purged up to `i` or beyond, after
      that. */
  function EntryAt(es: seq<Event>, i: Index): (e: Option<Entry>) {
    if es == [] then None
    else
      var before := es[..|es| - 1];
      match Effect(es[|es| - 1])
      case Some(Append(entries)) => if LastAt(entries, i).Some? then LastAt(entries, i) else EntryAt(before, i)
      case Some(Truncate(id)) => if id.index <= i then None else EntryAt(before, i)
      case Some(Purge(id)) => if i <= id.index then None else EntryAt(before, i)
      case _ => EntryAt(before, i)
  }

  // ── The model is its history ─────────────────────────────────────────────

  lemma {:induction false} PlainRunSnoc(m: LogModel, es: seq<Event>, e: Event)
    ensures PlainRun(m, es + [e]) == PlainStep(PlainRun(m, es), e)
    decreases |es|
  {
    hide PlainStep;
    if es == [] {
      assert es + [e] == [e] && [e][1..] == [];
      assert PlainRun(PlainStep(m, e), []) == PlainStep(m, e);
    } else {
      assert (es + [e])[1..] == es[1..] + [e];
      PlainRunSnoc(PlainStep(m, es[0]), es[1..], e);
    }
  }

  function Stored(log: Log, i: Index): (e: Option<Entry>) {
    if i in log then Some(log[i]) else None
  }

  lemma {:induction false} AppendedStores(log: Log, entries: seq<Entry>, i: Index)
    ensures Stored(Appended(log, entries), i)
         == if LastAt(entries, i).Some? then LastAt(entries, i) else Stored(log, i)
  {
    if entries != [] {
      var init, e := entries[..|entries| - 1], entries[|entries| - 1];
      assert entries == init + [e];
      AppendedSnoc(log, init, e);
      AppendedStores(log, init, i);
    }
  }

  /** After every run of operations, crashes and restarts on an empty log, each marker is what was saved last, and each
      index holds the entry the history says. */
  lemma {:induction false} HistoryIs(es: seq<Event>, i: Index)
    ensures var m := PlainRun(Nothing, es);
            && m.vote == LastVote(es) && m.committed == LastCommitted(es) && m.lastPurged == LastPurge(es)
            && Stored(m.log, i) == EntryAt(es, i)
  {
    if es != [] {
      var init, e := es[..|es| - 1], es[|es| - 1];
      assert es == init + [e];
      hide PlainRun, Appended, LastAt;
      HistoryIs(init, i);
      PlainRunSnoc(Nothing, init, e);
      if Effect(e).Some? && Effect(e).value.Append? {
        AppendedStores(PlainRun(Nothing, init).log, Effect(e).value.entries, i);
      }
    }
  }

  // ── What a store answers ─────────────────────────────────────────────────

  /** The highest index that holds an entry. */
  ghost predicate IsTop(es: seq<Event>, i: Index) {
    EntryAt(es, i).Some? && forall j: Index :: j > i ==> EntryAt(es, j).None?
  }

  ghost predicate NothingStored(es: seq<Event>) {
    forall i: Index :: EntryAt(es, i).None?
  }

  lemma TopIsLastId(es: seq<Event>, m: LogModel)
    requires m == PlainRun(Nothing, es)
    ensures NothingStored(es) ==> LastId(m.log) == None
    ensures forall i: Index :: IsTop(es, i) ==> LastId(m.log) == Some(EntryAt(es, i).value.id)
  {
    hide PlainRun, EntryAt;
    forall i: Index
      ensures Stored(m.log, i) == EntryAt(es, i)
    {
      HistoryIs(es, i);
    }
    if m.log.Keys != {} {
      var top := Max(m.log.Keys);
      assert Stored(m.log, top).Some?;
      forall i: Index | IsTop(es, i)
        ensures i == top
      {
        assert Stored(m.log, i).Some?;
      }
    } else {
      forall i: Index
        ensures EntryAt(es, i).None?
      {
        assert Stored(m.log, i).None?;
      }
    }
  }

  /** A store that has followed the run answers from its history. The last log id is that of the entry at the highest
      index that holds one; only when none does is it the purged one. A read of `a..b` gives exactly the entries from
      `a` up to and without `b`, ascending. */
  lemma AnswersFromHistory(scope: GuardScope, n: Node, es: seq<Event>, a: Index, b: Index)
    requires Refines(n, Up(PlainRun(Nothing, es)))
    ensures Sound(n)
    ensures ReplyTo(scope, n, Do(ReadVote)) == Some(VoteIs(LastVote(es)))
    ensures ReplyTo(scope, n, Do(ReadCommitted)) == Some(CommittedIs(LastCommitted(es)))
    ensures var r := ReplyTo(scope, n, Do(GetLogState));
            && r.Some? && r.value.StateIs? && r.value.lastPurged == LastPurge(es)
            && (NothingStored(es) ==> r.value.last == LastPurge(es))
            && (forall i: Index :: IsTop(es, i) ==> r.value.last == Some(EntryAt(es, i).value.id))
    ensures var r := ReplyTo(scope, n, Do(ReadRange(Included(a), Excluded(b))));
            && r.Some? && r.value.Entries? && Ascending(r.value.entries)
            && (forall e :: e in r.value.entries <==> a <= e.id.index < b && EntryAt(es, e.id.index) == Some(e))
  {
    hide PlainRun, EntryAt, LastVote, LastCommitted, LastPurge, IsTop, NothingStored, LastId, WellFormed, LogOf;
    var m := PlainRun(Nothing, es);
    TopIsLastId(es, m);
    HistoryIs(es, 0);
    forall e: Entry
      ensures Stored(m.log, e.id.index) == EntryAt(es, e.id.index)
    {
      HistoryIs(es, e.id.index);
    }
  }

  /** The reply to `get_log_state` is about what is stored: the id at the highest index, and the purged one only if
      nothing is stored. */
  ghost predicate TellsWhatIsStored(scope: GuardScope, n: Node)
    requires Sound(n)
  {
    var r, log, purged := ReplyTo(scope, n, Do(GetLogState)), LogOf(n.db), ModelOf(n.db).lastPurged;
    && r.Some? && r.value.StateIs? && r.value.lastPurged == purged
    && (log == map[] ==> r.value.last == purged)
    && (forall i :: IsMax(log.Keys, i) ==> r.value.last == Some(log[i].id))
  }

  lemma MirrorTells(scope: GuardScope, n: Node)
    requires n.Running? && Sound(n) && Mirrors(n.cache, ModelOf(n.db))
    ensures TellsWhatIsStored(scope, n)
  {
    hide WellFormed, LogOf;
  }

  /** So it is from any database and after any orderly run, unless the store waits for its lock. */
  lemma StateIsOfWhatIsStored(scope: GuardScope, db: Db, es: seq<Event>)
    requires WellFormed(db) && OrderlyRun(scope, Up(ModelOf(db)), es) && Run(scope, Opened(db), es).Running?
    ensures TellsWhatIsStored(scope, Run(scope, Opened(db), es))
  {
    hide WellFormed, Run, OrderlyRun, TellsWhatIsStored, LogOf, LastId;
    OpenRefines(db);
    RunsAgree(scope, Opened(db), Up(ModelOf(db)), es);
    MirrorTells(scope, Run(scope, Opened(db), es));
  }

  /** On an empty database, every orderly run that never waits for its lock is followed. */
  lemma RunsFollowHistory(scope: GuardScope, es: seq<Event>)
    requires OrderlyPlain(Nothing, es) && (scope.DroppedAfterRead? || !SomeEmpties(Nothing, es))
    ensures WellFormed(map[]) && Refines(Run(scope, Opened(map[]), es), Up(PlainRun(Nothing, es)))
  {
    EmptyDatabase();
    hide WellFormed, Run, PlainRun, OrderlyPlain, SomeEmpties, ModelOf, Refines;
    NothingInIt();
    OpenRefines(map[]);
    PlainRunsAgreeIff(scope, Opened(map[]), Nothing, es);
  }

  lemma NothingInIt()
    requires WellFormed(map[])
    ensures ModelOf(map[]) == Nothing
  {
    EmptyDatabase();
  }

  /** Entries that ascend from beyond everything stored: the state read next names the last of them. */
  lemma AppendIsSeen(scope: GuardScope, n: Node, es: seq<Event>, entries: seq<Entry>)
    requires entries != [] && Ascending(entries)
    requires forall i: Index :: EntryAt(es, i).Some? ==> i < entries[0].id.index
    requires Refines(n, Up(PlainRun(Nothing, es + [Do(Append(entries))])))
    ensures Sound(n)
    ensures ReplyTo(scope, n, Do(GetLogState)) == Some(StateIs(LastPurge(es), Some(entries[|entries| - 1].id)))
  {
    hide PlainRun, Refines, LastId, WellFormed, LogOf;
    var es', last := es + [Do(Append(entries))], entries[|entries| - 1];
    assert es'[..|es|] == es;
    AnswersFromHistory(scope, n, es', 0, 0);
    forall j: Index | j > last.id.index
      ensures EntryAt(es', j).None?
    {
      NoneBeyond(entries, j);
    }
    assert IsTop(es', last.id.index);
  }

  lemma {:induction false} NoneBeyond(entries: seq<Entry>, j: Index)
    requires Ascending(entries) && entries != [] && j > entries[|entries| - 1].id.index
    ensures LastAt(entries, j).None?
  {
    var init := entries[..|entries| - 1];
    if init != [] {
      NoneBeyond(init, j);
    }
  }

  // ── Ranges ───────────────────────────────────────────────────────────────

  /** The bounds `x` and, beyond them, the bounds `y` cover what `z` covers. */
  ghost predicate Abut(x: (Bound, Bound), y: (Bound, Bound), z: (Bound, Bound)) {
    && (forall i: Index :: Within(z.0, z.1, i) <==> Within(x.0, x.1, i) || Within(y.0, y.1, i))
    && (forall i: Index, j: Index :: Within(x.0, x.1, i) && Within(y.0, y.1, j) ==> i < j)
  }

  lemma RangesAbut(log: Log, x: (Bound, Bound), y: (Bound, Bound), z: (Bound, Bound))
    requires Indexed(log) && Abut(x, y, z)
    ensures RangeOf(log, x.0, x.1) + RangeOf(log, y.0, y.1) == RangeOf(log, z.0, z.1)
  {
    hide RangeOf, Within;
    RangeUnique(log, z.0, z.1, RangeOf(log, x.0, x.1) + RangeOf(log, y.0, y.1), RangeOf(log, z.0, z.1));
  }

  /** Reading `a..b` and then `b..c` is reading `a..c`; `a..=b` is `a..b` with the entry at `b`, if there is one; and
      what comes before, at and after a bound is everything. */
  lemma RangesJoin(log: Log, a: Index, b: Index, c: Index)
    requires Indexed(log) && a <= b <= c
    ensures RangeOf(log, Included(a), Excluded(b)) + RangeOf(log, Included(b), Excluded(c))
         == RangeOf(log, Included(a), Excluded(c))
    ensures RangeOf(log, Included(a), Excluded(b)) + (if b in log then [log[b]] else [])
         == RangeOf(log, Included(a), Included(b))
    ensures RangeOf(log, Included(a), Included(b)) + RangeOf(log, Excluded(b), Unbounded)
         == RangeOf(log, Included(a), Unbounded)
    ensures RangeOf(log, Unbounded, Excluded(a)) + RangeOf(log, Included(a), Unbounded)
         == RangeOf(log, Unbounded, Unbounded)
  {
    hide RangeOf, Lists;
    RangesAbut(log, (Included(a), Excluded(b)), (Included(b), Excluded(c)), (Included(a), Excluded(c)));
    RangesAbut(log, (Included(a), Excluded(b)), (Included(b), Included(b)), (Included(a), Included(b)));
    RangesAbut(log, (Included(a), Included(b)), (Excluded(b), Unbounded), (Included(a), Unbounded));
    RangesAbut(log, (Unbounded, Excluded(a)), (Included(a), Unbounded), (Unbounded, Unbounded));
    OneInRange(log, b);
  }

  lemma OneInRange(log: Log, b: Index)
    requires Indexed(log)
    ensures RangeOf(log, Included(b), Included(b)) == if b in log then [log[b]] else []
  {
    hide RangeOf;
    RangeUnique(log, Included(b), Included(b), RangeOf(log, Included(b), Included(b)),
                if b in log then [log[b]] else []);
  }

  /** The in-memory store panics on the range. */
  ghost predicate Refuses(m: LogModel, lo: Bound, hi: Bound)
    requires Indexed(m.log)
  {
    Answer(m, ReadRange(lo, hi)) == Panicked
  }

  /** The ranges the in-memory store's sorted map refuses: of two bounds at `a < b`, exactly those the wrong way round;
      of two at one index, exactly those that both exclude it; and none that is open at an end. */
  lemma RefusedIff(m: LogModel, a: Index, b: Index, x: Bound, y: Bound)
    requires Indexed(m.log) && a < b && !x.Unbounded? && !y.Unbounded? && x.at == a && y.at == b
    ensures !Refuses(m, x, y) && Refuses(m, y, x)
    ensures Refuses(m, Excluded(a), Excluded(a)) && !Refuses(m, Included(a), Excluded(a))
    ensures !Refuses(m, Excluded(a), Included(a)) && !Refuses(m, Included(a), Included(a))
    ensures !Refuses(m, x, Unbounded) && !Refuses(m, Unbounded, x) && !Refuses(m, Unbounded, Unbounded)
  {
  }
}
