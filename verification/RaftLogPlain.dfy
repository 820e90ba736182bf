/** The cached store against the plain in-memory log, which never waits for a lock. */
module RaftLogPlain {
  import opened Wrappers
  import opened RaftKeys
  import opened RaftLogModel
  import opened RaftLogStore
  import opened RaftLogRuns

  /** The in-memory store, as if it kept its state across restarts. */
  function PlainStep(m: LogModel, e: Event): (m': LogModel) {
    match e
    case Do(op) => Next(m, op)
    case Crash(op, wrote) => if wrote then Next(m, op) else m
    case Restart => m
  }

  ghost function PlainReply(m: LogModel, e: Event): (r: Option<Reply>)
    requires Indexed(m.log)
  {
    if e.Do? then Some(Answer(m, e.op)) else None
  }

  function PlainRun(m: LogModel, es: seq<Event>): (m': LogModel)
    decreases |es|
  {
    if es == [] then m else PlainRun(PlainStep(m, es[0]), es[1..])
  }

  lemma PlainIndexed(m: LogModel, e: Event)
    requires Indexed(m.log)
    ensures Indexed(PlainStep(m, e).log)
  {
    if !e.Restart? {
      NextIndexed(m, e.op);
    }
  }

  ghost function PlainReplies(m: LogModel, es: seq<Event>): (rs: seq<Option<Reply>>)
    requires Indexed(m.log)
    ensures |rs| == |es|
    decreases |es|
  {
    if es == [] then []
    else
      PlainIndexed(m, es[0]);
      [PlainReply(m, es[0])] + PlainReplies(PlainStep(m, es[0]), es[1..])
  }

  /** No append of the run gives the top index a second id. */
  ghost predicate OrderlyPlain(m: LogModel, es: seq<Event>)
    decreases |es|
  {
    es == [] || (Orderly(Up(m), es[0]) && OrderlyPlain(PlainStep(m, es[0]), es[1..]))
  }

  /** A purge that leaves nothing of a log that had entries. */
  predicate Empties(m: LogModel, e: Event) {
    e.Do? && e.op.Purge? && m.log != map[] && Next(m, e.op).log == map[]
  }

  predicate EmptiesAt(m: LogModel, es: seq<Event>, k: nat)
    requires k < |es|
    decreases k
  {
    if k == 0 then Empties(m, es[0]) else EmptiesAt(PlainStep(m, es[0]), es[1..], k - 1)
  }

  /** The event takes the store into its own lock. */
  predicate Hangs(scope: GuardScope, m: LogModel, e: Event) {
    scope.HeldThroughBlock? && Empties(m, e)
  }

  /** One orderly event: the reply is missing exactly when the purge hangs; either way the log is the plain one. */
  lemma PlainStepAgrees(scope: GuardScope, n: Node, m: LogModel, e: Event)
    requires Refines(n, Up(m)) && Orderly(Up(m), e)
    ensures Indexed(m.log) && Sound(n)
    ensures Agree(ReplyTo(scope, n, e), PlainReply(m, e)) <==> !Hangs(scope, m, e)
    ensures Refines(Step(scope, n, e), if Hangs(scope, m, e) then Stuck(PlainStep(m, e)) else Up(PlainStep(m, e)))
  {
    hide WellFormed, LastId, TopAgrees, LogOf, Written, NewLast, Cached, CachedAnswer;
    RefinesIndexed(n, Up(m));
    StepAgrees(scope, n, Up(m), e);
    if e.Do? && e.op.Purge? {
      PurgeHangsIff(scope, n, Up(m), e.op.upTo);
    }
  }

  ghost predicate AllAgree(scope: GuardScope, n: Node, m: LogModel, es: seq<Event>)
    requires Sound(n) && Indexed(m.log)
  {
    forall k :: 0 <= k < |es| ==> Agree(Replies(scope, n, es)[k], PlainReplies(m, es)[k])
  }

  lemma AllAgreeCons(scope: GuardScope, n: Node, m: LogModel, es: seq<Event>)
    requires Sound(n) && Indexed(m.log) && es != [] && Indexed(PlainStep(m, es[0]).log)
    ensures AllAgree(scope, n, m, es)
       <==> Agree(ReplyTo(scope, n, es[0]), PlainReply(m, es[0]))
            && AllAgree(scope, Step(scope, n, es[0]), PlainStep(m, es[0]), es[1..])
  {
    hide Step, ReplyTo, PlainReply, Agree, PlainStep, Sound;
    var rs, ps := Replies(scope, n, es), PlainReplies(m, es);
    assert rs[1..] == Replies(scope, Step(scope, n, es[0]), es[1..]);
    assert ps[1..] == PlainReplies(PlainStep(m, es[0]), es[1..]);
    if AllAgree(scope, n, m, es) {
      assert Agree(rs[0], ps[0]);
      forall k | 0 <= k < |es| - 1
        ensures Agree(rs[1..][k], ps[1..][k])
      {
        assert Agree(rs[k + 1], ps[k + 1]);
      }
    } else {
      var k :| 0 <= k < |es| && !Agree(rs[k], ps[k]);
      assert k > 0 ==> !Agree(rs[1..][k - 1], ps[1..][k - 1]);
    }
  }

  ghost predicate SomeEmpties(m: LogModel, es: seq<Event>) {
    exists k :: 0 <= k < |es| && EmptiesAt(m, es, k)
  }

  lemma SomeEmptiesCons(m: LogModel, es: seq<Event>)
    requires es != []
    ensures SomeEmpties(m, es) <==> Empties(m, es[0]) || SomeEmpties(PlainStep(m, es[0]), es[1..])
  {
    hide Empties, PlainStep;
    if k :| 0 <= k < |es| && EmptiesAt(m, es, k) {
      assert k > 0 ==> EmptiesAt(PlainStep(m, es[0]), es[1..], k - 1);
    }
    if Empties(m, es[0]) {
      assert EmptiesAt(m, es, 0);
    }
    if k :| 0 <= k < |es[1..]| && EmptiesAt(PlainStep(m, es[0]), es[1..], k) {
      assert EmptiesAt(m, es, k + 1);
    }
  }

  /** An orderly run gets every reply of the plain in-memory store if and only if the read guard is dropped after the
      read or no purge in it empties a log that had entries; and then it ends in the plain state. */
  lemma {:induction false} PlainRunsAgreeIff(scope: GuardScope, n: Node, m: LogModel, es: seq<Event>)
    requires Refines(n, Up(m)) && OrderlyPlain(m, es)
    ensures Indexed(m.log) && Sound(n)
    ensures AllAgree(scope, n, m, es) <==> scope.DroppedAfterRead? || !SomeEmpties(m, es)
    ensures AllAgree(scope, n, m, es) ==> Refines(Run(scope, n, es), Up(PlainRun(m, es)))
    decreases |es|
  {
    hide Step, ReplyTo, PlainReply, Agree, PlainStep, Sound, Refines, Empties, Orderly, AllAgree, SomeEmpties,
         Replies, PlainReplies;
    RefinesIndexed(n, Up(m));
    if es == [] {
      NothingDisagrees(scope, n, m);
    } else {
      PlainStepAgrees(scope, n, m, es[0]);
      PlainIndexed(m, es[0]);
      AllAgreeCons(scope, n, m, es);
      SomeEmptiesCons(m, es);
      if !Hangs(scope, m, es[0]) {
        PlainRunsAgreeIff(scope, Step(scope, n, es[0]), PlainStep(m, es[0]), es[1..]);
      }
    }
  }

  lemma NothingDisagrees(scope: GuardScope, n: Node, m: LogModel)
    requires Sound(n) && Indexed(m.log)
    ensures AllAgree(scope, n, m, []) && !SomeEmpties(m, [])
  {
  }

  // ── Until the next restart ───────────────────────────────────────────────

  /** The process is restarted right after every purge that empties the log. */
  predicate RestartedInTime(m: LogModel, es: seq<Event>)
    decreases |es|
  {
    es == [] ||
    ((Empties(m, es[0]) && |es| > 1 ==> es[1] == Restart) && RestartedInTime(PlainStep(m, es[0]), es[1..]))
  }

  ghost function Standing(stuck: bool, m: LogModel): (r: Ref) {
    if stuck then Stuck(m) else Up(m)
  }

  lemma ResumeStep(stuck: bool, n: Node, m: LogModel, e: Event)
    requires Refines(n, Standing(stuck, m)) && Orderly(Up(m), e) && (stuck ==> e == Restart)
    ensures Indexed(m.log) && Sound(n)
    ensures Agree(ReplyTo(HeldThroughBlock, n, e), PlainReply(m, e)) <==> !Empties(m, e)
    ensures Refines(Step(HeldThroughBlock, n, e), Standing(Empties(m, e), PlainStep(m, e)))
  {
    hide WellFormed, LogOf, Written, LastId;
    if stuck {
      RefinesIndexed(n, Stuck(m));
      StepAgrees(HeldThroughBlock, n, Stuck(m), e);
    } else {
      PlainStepAgrees(HeldThroughBlock, n, m, e);
    }
  }

  lemma {:induction false} ResumeRun(stuck: bool, n: Node, m: LogModel, es: seq<Event>)
    requires Refines(n, Standing(stuck, m)) && OrderlyPlain(m, es) && RestartedInTime(m, es)
    requires stuck && es != [] ==> es[0] == Restart
    ensures Indexed(m.log) && Sound(n)
    ensures forall k :: 0 <= k < |es| ==>
              (Agree(Replies(HeldThroughBlock, n, es)[k], PlainReplies(m, es)[k]) <==> !EmptiesAt(m, es, k))
    ensures Sound(Run(HeldThroughBlock, n, es)) && ModelOf(Run(HeldThroughBlock, n, es).db) == PlainRun(m, es)
    decreases |es|
  {
    hide Step, ReplyTo, PlainReply, Agree, PlainStep, Sound, Refines, Empties, Orderly, Standing;
    ResumeState(stuck, n, m);
    if es != [] {
      var n', m' := Step(HeldThroughBlock, n, es[0]), PlainStep(m, es[0]);
      ResumeStep(stuck, n, m, es[0]);
      ResumeRun(Empties(m, es[0]), n', m', es[1..]);
      var rs, ps := Replies(HeldThroughBlock, n, es), PlainReplies(m, es);
      forall k | 0 <= k < |es|
        ensures Agree(rs[k], ps[k]) <==> !EmptiesAt(m, es, k)
      {
        if k > 0 {
          assert rs[k] == Replies(HeldThroughBlock, n', es[1..])[k - 1] && ps[k] == PlainReplies(m', es[1..])[k - 1];
        }
      }
    }
  }

  lemma ResumeState(stuck: bool, n: Node, m: LogModel)
    requires Refines(n, Standing(stuck, m))
    ensures Indexed(m.log) && Sound(n) && ModelOf(n.db) == m
  {
  }

  /** Then the replies to those purges are all that is missing, and the log ends as the plain one. */
  lemma RestartsResume(n: Node, m: LogModel, es: seq<Event>)
    requires Refines(n, Up(m)) && OrderlyPlain(m, es) && RestartedInTime(m, es)
    ensures Indexed(m.log) && Sound(n)
    ensures forall k :: 0 <= k < |es| ==>
              (Agree(Replies(HeldThroughBlock, n, es)[k], PlainReplies(m, es)[k]) <==> !EmptiesAt(m, es, k))
    ensures Sound(Run(HeldThroughBlock, n, es)) && ModelOf(Run(HeldThroughBlock, n, es).db) == PlainRun(m, es)
  {
    ResumeRun(false, n, m, es);
  }

  // ── At an input ──────────────────────────────────────────────────────────

  /** Append index 5 to an empty store and purge up to it: with the guard held the store hangs, with it dropped it
      does not. */
  lemma PurgeHangsAtFive(e: Entry)
    requires e.id.index == 5
    ensures var es := [Do(Append([e])), Do(Purge(e.id))];
            && WellFormed(map[])
            && Run(HeldThroughBlock, Opened(map[]), es).Hung?
            && Run(DroppedAfterRead, Opened(map[]), es).Running?
  {
    HangsAtFive(HeldThroughBlock, e);
    HangsAtFive(DroppedAfterRead, e);
  }

  lemma HangsAtFive(scope: GuardScope, e: Entry)
    requires e.id.index == 5
    ensures WellFormed(map[])
    ensures Run(scope, Opened(map[]), [Do(Append([e])), Do(Purge(e.id))]).Hung? <==> scope.HeldThroughBlock?
  {
    EmptyDatabase();
    hide WellFormed, LogOf, Written, LastId, ModelOf, Step, Refines, TopAgrees;
    var append, purge := Do(Append([e])), Do(Purge(e.id));
    var m, n := ModelOf(map[]), Opened(map[]);
    AscendingAppendAgrees(LastId(m.log), [e]);
    OpenRefines(map[]);
    StepAgrees(scope, n, Up(m), append);
    var n', m' := Step(scope, n, append), Next(m, Append([e]));
    AppendOne(m.log, e);
    assert 5 in m'.log && Next(m', Purge(e.id)).log == map[];
    RefinesIndexed(n, Up(m));
    RefinesIndexed(n', Up(m'));
    PurgeHangsIff(scope, n', Up(m'), e.id);
    TwoEvents(scope, n, append, purge);
  }

  lemma AppendOne(log: Log, e: Entry)
    ensures Appended(log, [e]) == log[e.id.index := e]
  {
    assert Appended(log[e.id.index := e], [e][1..]) == log[e.id.index := e];
  }

  lemma EmptyDatabase()
    ensures WellFormed(map[]) && ModelOf(map[]).log == map[] && LastId(ModelOf(map[]).log) == None
  {
    hide LogKey;
    assert ModelOf(map[]).log.Keys == {};
  }

  lemma TwoEvents(scope: GuardScope, n: Node, a: Event, b: Event)
    requires Sound(n)
    ensures Run(scope, n, [a, b]) == Step(scope, Step(scope, n, a), b)
  {
    hide Step;
    var n' := Step(scope, n, a);
    assert [a, b][1..] == [b] && [b][1..] == [];
    assert Run(scope, n', [b]) == Run(scope, Step(scope, n', b), []);
  }
}
