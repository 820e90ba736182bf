/** `MemLogStore`: the reference store, a sorted map and three cells. */
module RaftLogMem {
  import opened Wrappers
  import opened RaftKeys
  import opened RaftLogModel

  // ── Walking a sorted map ─────────────────────────────────────────────────

  function InsertEntry(e: Entry, es: seq<Entry>): (r: seq<Entry>) {
    if es == [] || e.id.index < es[0].id.index then [e] + es else [es[0]] + InsertEntry(e, es[1..])
  }

  lemma {:induction false} InsertEntrySorted(e: Entry, es: seq<Entry>)
    requires Ascending(es) && forall f :: f in es ==> f.id.index != e.id.index
    ensures Ascending(InsertEntry(e, es))
    ensures forall f :: f in InsertEntry(e, es) <==> f == e || f in es
  {
    if es != [] && e.id.index >= es[0].id.index {
      assert es[0] in es;
      InsertEntrySorted(e, es[1..]);
      assert forall f :: f in es <==> f == es[0] || f in es[1..];
      var r := InsertEntry(e, es[1..]);
      assert forall i :: 0 <= i < |r| ==> r[i] in r;
    }
  }

  /** Ascending iteration over a range of the sorted map. */
  method Range(log: Log, lo: Bound, hi: Bound) returns (es: seq<Entry>)
    requires Indexed(log)
    ensures IsRange(log, lo, hi, es)
  {
    es := [];
    var rest := log.Keys;
    while rest != {}
      invariant rest <= log.Keys && Lists(log, log.Keys - rest, lo, hi, es)
    {
      var i :| i in rest;
      if Within(lo, hi, i) {
        InsertEntrySorted(log[i], es);
        es := InsertEntry(log[i], es);
      }
      rest := rest - {i};
    }
    assert log.Keys - rest == log.Keys;
  }

  /** The id of the last entry in iteration order. */
  lemma LastOfRange(log: Log, es: seq<Entry>)
    requires Indexed(log) && IsRange(log, Unbounded, Unbounded, es)
    ensures LastId(log) == if es == [] then None else Some(es[|es| - 1].id)
  {
  }

  class MemLogStore {
    var vote: Option<Vote>
    var log: Log
    var committed: Option<LogId>
    var lastPurged: Option<LogId>

    ghost function Model(): (m: LogModel)
      reads this
    {
      LogModel(vote, committed, lastPurged, log)
    }

    constructor ()
      ensures Model() == LogModel(None, None, None, map[])
    {
      vote, log, committed, lastPurged := None, map[], None, None;
    }

    method TryGetLogEntries(lo: Bound, hi: Bound) returns (r: Reply)
      requires Indexed(log)
      ensures r == Answer(Model(), ReadRange(lo, hi))
    {
      if BadRange(lo, hi) {
        return Panicked;
      }
      var es := Range(log, lo, hi);
      RangeUnique(log, lo, hi, es, RangeOf(log, lo, hi));
      r := Entries(es);
    }

    method GetLogState() returns (r: Reply)
      requires Indexed(log)
      ensures r == Answer(Model(), RaftLogModel.GetLogState) && r.StateIs? && r.lastPurged == lastPurged
      ensures log == map[] ==> r.last == lastPurged
      ensures forall i :: IsMax(log.Keys, i) ==> r.last == Some(log[i].id)
    {
      var es := Range(log, Unbounded, Unbounded);
      LastOfRange(log, es);
      var last := if es == [] then None else Some(es[|es| - 1].id);
      r := StateIs(lastPurged, Or(last, lastPurged));
    }

    method ReadVote() returns (r: Reply)
      requires Indexed(log)
      ensures r == Answer(Model(), RaftLogModel.ReadVote)
    {
      r := VoteIs(vote);
    }

    method ReadCommitted() returns (r: Reply)
      requires Indexed(log)
      ensures r == Answer(Model(), RaftLogModel.ReadCommitted)
    {
      r := CommittedIs(committed);
    }

    method SaveVote(v: Vote)
      modifies this
      ensures Model() == Next(old(Model()), RaftLogModel.SaveVote(v))
    {
      vote := Some(v);
    }

    method SaveCommitted(c: Option<LogId>)
      modifies this
      ensures Model() == Next(old(Model()), RaftLogModel.SaveCommitted(c))
    {
      committed := c;
    }

    method Append(entries: seq<Entry>)
      requires Indexed(log)
      modifies this
      ensures Model() == Next(old(Model()), RaftLogModel.Append(entries)) && Indexed(log)
    {
      for k := 0 to |entries|
        invariant vote == old(vote) && committed == old(committed) && lastPurged == old(lastPurged)
        invariant Appended(log, entries[k..]) == Appended(old(log), entries) && Indexed(log)
      {
        assert entries[k..][1..] == entries[k + 1..];
        log := log[entries[k].id.index := entries[k]];
      }
    }

    method Truncate(id: LogId)
      requires Indexed(log)
      modifies this
      ensures Model() == Next(old(Model()), RaftLogModel.Truncate(id)) && Indexed(log)
    {
      var doomed := Range(log, Included(id.index), Unbounded);
      log := Remove(log, doomed);
      assert log == Truncated(old(log), id.index);
    }

    method Purge(id: LogId)
      requires Indexed(log)
      modifies this
      ensures Model() == Next(old(Model()), RaftLogModel.Purge(id)) && Indexed(log)
    {
      var doomed := Range(log, Unbounded, Included(id.index));
      log := Remove(log, doomed);
      assert log == Purged(old(log), id.index);
      lastPurged := Some(id);
    }
  }

  method Remove(log: Log, doomed: seq<Entry>) returns (log': Log)
    ensures log' == map i | i in log && (forall e :: e in doomed ==> e.id.index != i) :: log[i]
  {
    log' := log;
    for k := 0 to |doomed|
      invariant log' == map i | i in log && (forall e :: e in doomed[..k] ==> e.id.index != i) :: log[i]
    {
      assert doomed[..k + 1] == doomed[..k] + [doomed[k]];
      log' := log' - {doomed[k].id.index};
    }
    assert doomed[..|doomed|] == doomed;
  }
}
