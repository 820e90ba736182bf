/** Replicated source offsets: what a log of checkpoints amounts to. */
module Checkpoints {
  import opened Wrappers
  import opened PartitionTable
  import opened ClusterState

  /** The merge loop, in whatever order the submitted map is walked. */
  method MergeOffsets(offsets: map<Pid, U64>, submitted: map<Pid, I64>) returns (merged: map<Pid, U64>)
    ensures merged == Merge(offsets, submitted)
  {
    merged := offsets;
    var rest := submitted.Keys;
    while rest != {}
      invariant rest <= submitted.Keys
      invariant merged.Keys == offsets.Keys + (submitted.Keys - rest)
      invariant forall p :: p in merged ==>
                  merged[p] == if p in submitted && p !in rest then Advance(offsets, p, submitted[p]) else offsets[p]
    {
      var p :| p in rest;
      var offset := submitted[p];
      if p !in merged {
        merged := merged[p := 0];
      }
      if offset > AsI64(merged[p]) {
        merged := merged[p := AsU64(offset)];
      }
      rest := rest - {p};
    }
  }

  /** Some checkpoint in the log submits `offset` for `p`. */
  ghost predicate Submits(log: seq<Request>, p: Pid, offset: int) {
    exists k :: 0 <= k < |log| && SubmittedBy(log[k], p, offset)
  }

  predicate SubmittedBy(req: Request, p: Pid, offset: int) {
    req.SubmitCheckpoint? && p in req.sourceOffsets && req.sourceOffsets[p] == offset
  }

  ghost predicate Mentions(log: seq<Request>, p: Pid) {
    exists offset: int :: Submits(log, p, offset)
  }

  /** `v` is the larger of zero and the largest offset the log submits for `p`. */
  ghost predicate IsHighWater(log: seq<Request>, p: Pid, v: int) {
    && v >= 0 && (v == 0 || Submits(log, p, v))
    && forall offset: int :: Submits(log, p, offset) ==> offset <= v
  }

  lemma SubmitsSnoc(log: seq<Request>, p: Pid, offset: int)
    requires log != []
    ensures Submits(log, p, offset) <==> Submits(log[..|log| - 1], p, offset) || SubmittedBy(log[|log| - 1], p, offset)
  {
  }

  /** The offset held for `p` after a log, and that holding one means someone submitted one. */
  ghost predicate Holds(offsets: map<Pid, U64>, log: seq<Request>, p: Pid) {
    && (p in offsets <==> Mentions(log, p))
    && (p in offsets ==> IsHighWater(log, p, offsets[p]))
  }

  lemma HoldsAfterMerge(offsets: map<Pid, U64>, log: seq<Request>, p: Pid)
    requires log != [] && log[|log| - 1].SubmitCheckpoint? && Holds(offsets, log[..|log| - 1], p)
    requires p in offsets ==> offsets[p] < 0x8000_0000_0000_0000
    ensures var merged := Merge(offsets, log[|log| - 1].sourceOffsets);
            Holds(merged, log, p) && (p in merged ==> merged[p] < 0x8000_0000_0000_0000)
  {
    hide Submits;
    var init, submitted := log[..|log| - 1], log[|log| - 1].sourceOffsets;
    var merged := Merge(offsets, submitted);
    forall o: int
      ensures Submits(log, p, o) <==> Submits(init, p, o) || SubmittedBy(log[|log| - 1], p, o)
    {
      SubmitsSnoc(log, p, o);
    }
    if p in submitted {
      assert Submits(log, p, submitted[p]);
    } else if Mentions(init, p) {
      var o: int :| Submits(init, p, o);
      assert Submits(log, p, o);
    }
  }

  lemma HoldsAfterOther(offsets: map<Pid, U64>, log: seq<Request>, p: Pid)
    requires log != [] && !log[|log| - 1].SubmitCheckpoint? && Holds(offsets, log[..|log| - 1], p)
    ensures Holds(offsets, log, p)
  {
    hide Submits;
    forall o: int
      ensures Submits(log, p, o) <==> Submits(log[..|log| - 1], p, o)
    {
      SubmitsSnoc(log, p, o);
    }
    if Mentions(log[..|log| - 1], p) {
      var o: int :| Submits(log[..|log| - 1], p, o);
      assert Submits(log, p, o);
    }
  }

  lemma OffsetsAfter(ord: Order, s: ClusterSnapshot, req: Request)
    requires Iterates(ord) && Apply(ord, s, req).Applied?
    ensures Apply(ord, s, req).state.offsets
         == if req.SubmitCheckpoint? then Merge(s.offsets, req.sourceOffsets) else s.offsets
  {
  }

  /** After any log, whatever else it holds, each partition's offset is the larger of zero and the largest submitted
      for it; so it fits in 63 bits and the casts between signed and unsigned never wrap. */
  lemma {:induction false} OffsetsAreHighWater(ord: Order, log: seq<Request>, p: Pid)
    requires Iterates(ord) && RunLog(ord, Fresh, log).Some?
    ensures var offsets := RunLog(ord, Fresh, log).value.offsets;
            && Holds(offsets, log, p)
            && (p in offsets ==> offsets[p] < 0x8000_0000_0000_0000 && AsI64(offsets[p]) == offsets[p])
  {
    hide Iterates, Apply, Holds, Merge;
    if log == [] {
      NothingHeld(p);
    } else {
      var init, req := log[..|log| - 1], log[|log| - 1];
      var before := RunLog(ord, Fresh, init).value;
      OffsetsAreHighWater(ord, init, p);
      OffsetsAfter(ord, before, req);
      if req.SubmitCheckpoint? {
        HoldsAfterMerge(before.offsets, log, p);
      } else {
        HoldsAfterOther(before.offsets, log, p);
      }
    }
  }

  lemma NothingHeld(p: Pid)
    ensures Holds(map[], [], p)
  {
  }

  /** Reordered, repeated or interleaved with anything else, the same submissions give the same offsets. */
  lemma OrderAndReplayDoNotMatter(ord: Order, ord': Order, log: seq<Request>, log': seq<Request>)
    requires Iterates(ord) && Iterates(ord') && RunLog(ord, Fresh, log).Some? && RunLog(ord', Fresh, log').Some?
    requires forall p: Pid, o: int :: Submits(log, p, o) <==> Submits(log', p, o)
    ensures RunLog(ord, Fresh, log).value.offsets == RunLog(ord', Fresh, log').value.offsets
  {
    hide RunLog, Submits, Iterates;
    var a, b := RunLog(ord, Fresh, log).value.offsets, RunLog(ord', Fresh, log').value.offsets;
    forall p: Pid
      ensures p in a <==> p in b
      ensures p in a ==> a[p] == b[p]
    {
      OffsetsAreHighWater(ord, log, p);
      OffsetsAreHighWater(ord', log', p);
      SameHighWater(a, b, log, log', p);
    }
  }

  lemma SameHighWater(a: map<Pid, U64>, b: map<Pid, U64>, log: seq<Request>, log': seq<Request>, p: Pid)
    requires Holds(a, log, p) && Holds(b, log', p)
    requires forall o: int :: Submits(log, p, o) <==> Submits(log', p, o)
    ensures p in a <==> p in b
    ensures p in a ==> a[p] == b[p]
  {
    hide Submits;
  }

  /** No request makes an offset go back. */
  lemma OffsetsNeverRegress(ord: Order, log: seq<Request>, req: Request, p: Pid)
    requires Iterates(ord) && RunLog(ord, Fresh, log).Some? && p in RunLog(ord, Fresh, log).value.offsets
    requires Apply(ord, RunLog(ord, Fresh, log).value, req).Applied?
    ensures var after := Apply(ord, RunLog(ord, Fresh, log).value, req).state.offsets;
            p in after && after[p] >= RunLog(ord, Fresh, log).value.offsets[p]
  {
    hide RunLog, Iterates, Apply, Holds;
    OffsetsAreHighWater(ord, log, p);
    OffsetsAfter(ord, RunLog(ord, Fresh, log).value, req);
  }
}
