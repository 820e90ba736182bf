/** What the push buffer does over longer stretches: it always drains, it is overloaded only under real
    pressure, and `next_batch` as written is one of the protocol's runs. */
module PushBufferRuns {
  import opened Naturals
  import opened PushBuffer

  // ── Draining ─────────────────────────────────────────────────────────────

  function Stage(t: Tx): (k: nat) {
    match t
    case Idle => 0
    case Blocked(_) => 1
    case Flagging(_) => 2
    case Counting(_) => 3
  }

  function AtStage(s: Buffer, k: nat): (ids: set<SenderId>) {
    set i | i in s.tx && Stage(s.tx[i]) == k
  }

  /** How far the senders still have to go. */
  function Work(s: Buffer): (n: nat) {
    |AtStage(s, 1)| + 2 * |AtStage(s, 2)| + 3 * |AtStage(s, 3)|
  }

  function Phase(rx: Rx): (k: nat) {
    match rx
    case Ready => 0
    case Clearing(_) => 1
    case Reloading(_) => 2
    case Subtracting(_, _) => 3
    case Loading(_) => 4
    case Draining(_) => 5
  }

  /** Steps that finish what has begun: no new send, no timeout, nobody gives up. */
  predicate Finishing(step: Step) {
    step.FetchAdd? || step.StoreFlag? || step.Enqueue? || step.RecvFirst? || step.RecvMore? || step.StopDrain?
    || step.Load? || step.FetchSub? || step.Reload? || step.ClearFlag?
  }

  lemma StageAfter(s: Buffer, s': Buffer, i: SenderId, k: nat)
    requires i in s.tx && i in s'.tx && s'.tx == s.tx[i := s'.tx[i]]
    ensures |AtStage(s', k)| == |AtStage(s, k)| + (if Stage(s'.tx[i]) == k then 1 else 0)
                                                - (if Stage(s.tx[i]) == k then 1 else 0)
  {
    forall j
      ensures j != i ==> (j in AtStage(s', k) <==> j in AtStage(s, k))
    {
    }
    DifferInOne(AtStage(s, k), AtStage(s', k), i);
  }

  /** Every finishing step brings the buffer closer to quiet, so no schedule of them goes on for ever. */
  lemma FinishingDescends(c: Config, s: Buffer, step: Step)
    requires Enabled(c, s, step) && Finishing(step)
    ensures var s' := Apply(c, s, step);
            || Work(s') < Work(s)
            || (Work(s') == Work(s) && |s'.queue| < |s.queue|)
            || (Work(s') == Work(s) && |s'.queue| == |s.queue| && Phase(s'.rx) < Phase(s.rx))
  {
    var s' := Apply(c, s, step);
    hide AtStage;
    if step.FetchAdd? || step.StoreFlag? || step.Enqueue? {
      StageAfter(s, s', step.i, 1);
      StageAfter(s, s', step.i, 2);
      StageAfter(s, s', step.i, 3);
    } else {
      SameStages(s, s');
    }
  }

  lemma SameStages(s: Buffer, s': Buffer)
    requires s'.tx == s.tx
    ensures AtStage(s', 1) == AtStage(s, 1) && AtStage(s', 2) == AtStage(s, 2) && AtStage(s', 3) == AtStage(s, 3)
  {
  }

  /** A buffer that is not quiet is never stuck: some finishing step is enabled. */
  lemma NeverStuck(c: Config, s: Buffer) returns (step: Step)
    requires c.capacity >= 1 && !s.dropped && !Quiet(s)
    ensures Finishing(step) && Enabled(c, s, step)
  {
    match s.rx
    case Draining(_) => step := StopDrain;
    case Loading(_) => step := Load;
    case Subtracting(_, _) => step := FetchSub;
    case Reloading(_) => step := Reload;
    case Clearing(_) => step := ClearFlag;
    case Ready =>
      if s.queue != [] {
        step := RecvFirst;
      } else {
        var i :| i in s.tx && !s.tx[i].Idle?;
        match s.tx[i]
        case Counting(_) => step := FetchAdd(i);
        case Flagging(_) => step := StoreFlag(i);
        case Blocked(_) => step := Enqueue(i);
      }
  }

  ghost predicate AllFinishing(steps: seq<Step>) {
    forall k :: 0 <= k < |steps| ==> Finishing(steps[k])
  }

  lemma {:induction false} Settles(c: Config, s: Buffer) returns (steps: seq<Step>)
    requires c.capacity >= 1 && !s.dropped
    ensures AllFinishing(steps)
    ensures var s' := RunFrom(c, s, steps);
            Quiet(s') && s'.abandoned == s.abandoned && s'.asked == s.asked
    decreases Work(s), |s.queue|, Phase(s.rx)
  {
    hide Work, Phase;
    if Quiet(s) {
      steps := [];
    } else {
      var step := NeverStuck(c, s);
      FinishingDescends(c, s, step);
      var rest := Settles(c, Apply(c, s, step));
      steps := [step] + rest;
      assert steps[1..] == rest;
      FinishingKeeps(c, s, step);
    }
  }

  lemma FinishingKeeps(c: Config, s: Buffer, step: Step)
    requires Enabled(c, s, step) && Finishing(step)
    ensures var s' := Apply(c, s, step);
            s'.abandoned == s.abandoned && s'.asked == s.asked && s'.dropped == s.dropped
  {
  }

  /** From every reachable state, finishing what has begun leads to a quiet buffer that is not overloaded and
      has delivered every event ever sent, exactly once and in each sender's order. */
  lemma AlwaysDrains(c: Config, steps: seq<Step>) returns (more: seq<Step>)
    requires c.capacity >= 1 && !Run(c, steps).dropped && Run(c, steps).abandoned == 0
    ensures AllFinishing(more)
    ensures var s, s' := Run(c, steps), Run(c, steps + more);
            && Quiet(s') && !s'.overloaded && s'.spill == 0
            && s'.entered == Flatten(s'.delivered)
            && forall i :: AskedBy(s, i) == From(Flatten(s'.delivered), i)
  {
    hide RunFrom;
    var s := Run(c, steps);
    more := Settles(c, s);
    RunFromConcat(c, Start(), steps, more);
    var s' := Run(c, steps + more);
    OverloadCannotStick(c, steps + more);
    NothingLost(c, steps + more);
    assert Flatten(s'.delivered) + [] + [] == Flatten(s'.delivered);
    forall i
      ensures AskedBy(s, i) == From(Flatten(s'.delivered), i)
    {
      assert InHand(TxOf(s', i)) == [];
      assert AskedBy(s', i) == From(s'.entered, i) + [];
    }
  }

  // ── Overload only under pressure ─────────────────────────────────────────

  /** A schedule of at most `n` senders in which no counted send gives up. */
  ghost predicate Within(steps: seq<Step>, n: nat) {
    forall k :: 0 <= k < |steps| ==> !steps[k].Abandon? && (steps[k].TrySendFull? ==> steps[k].i < n)
  }

  ghost predicate Calm(s: Buffer, n: nat) {
    && !s.overloaded && s.abandoned == 0
    && forall i :: i in s.tx ==> i < n && !s.tx[i].Flagging?
  }

  lemma {:induction false} IdBound(ids: set<SenderId>, n: nat)
    requires forall i :: i in ids ==> i < n
    ensures |ids| <= n
  {
    if n == 0 {
      assert ids == {};
    } else {
      IdBound(ids - {n - 1}, n - 1);
      RemoveOne(ids, n - 1);
    }
  }

  lemma CalmStep(c: Config, s: Buffer, step: Step, n: nat)
    requires Inv(c, s) && Calm(s, n) && Enabled(c, s, step)
    requires !step.Abandon? && (step.TrySendFull? ==> step.i < n)
    requires c.threshold > c.capacity + n + BatchLimit(c)
    ensures Calm(Apply(c, s, step), n)
  {
    if step.FetchAdd? {
      IdBound(Counted(s) + {step.i}, n);
      assert |Counted(s) + {step.i}| == |Counted(s)| + 1;
      assert s.spill <= |s.queue| + |Counted(s)| + Held(s.rx);
    }
  }

  lemma {:induction false} CalmRun(c: Config, s: Buffer, steps: seq<Step>, n: nat)
    requires Inv(c, s) && Calm(s, n) && Within(steps, n)
    requires c.threshold > c.capacity + n + BatchLimit(c)
    ensures Calm(RunFrom(c, s, steps), n)
    decreases |steps|
  {
    hide Inv, Calm, Apply, Enabled;
    if steps != [] {
      assert Within(steps[1..], n);
      if Enabled(c, s, steps[0]) {
        StepKeepsInv(c, s, steps[0]);
        CalmStep(c, s, steps[0], n);
        CalmRun(c, Apply(c, s, steps[0]), steps[1..], n);
      } else {
        CalmRun(c, s, steps[1..], n);
      }
    }
  }

  /** A threshold beyond what the channel, the senders and one batch can justify is never reached. */
  lemma NoOverloadWithoutPressure(c: Config, steps: seq<Step>, n: nat)
    requires Within(steps, n) && c.threshold > c.capacity + n + BatchLimit(c)
    ensures !Run(c, steps).overloaded
  {
    RunKeepsInv(c, []);
    CalmRun(c, Start(), steps, n);
  }

  // ── `next_batch` as written ──────────────────────────────────────────────

  predicate SenderStep(step: Step) {
    step.TrySendOk? || step.TrySendFull? || step.TrySendClosed? || step.FetchAdd? || step.StoreFlag?
    || step.Enqueue? || step.Abandon?
  }

  /** What the senders do before the receiver's `k`-th operation; nothing once the script is over. */
  function At(env: seq<seq<Step>>, k: nat): (steps: seq<Step>) {
    if k < |env| then env[k] else []
  }

  ghost predicate SendersOnly(env: seq<seq<Step>>) {
    forall k, j :: 0 <= k < |env| && 0 <= j < |env[k]| ==> SenderStep(env[k][j])
  }

  lemma {:induction false} SendersLeaveReceiver(c: Config, s: Buffer, steps: seq<Step>)
    requires forall j :: 0 <= j < |steps| ==> SenderStep(steps[j])
    ensures var s' := RunFrom(c, s, steps);
            s'.rx == s.rx && s'.delivered == s.delivered && s'.dropped == s.dropped
    decreases |steps|
  {
    if steps != [] {
      assert SenderStep(steps[0]);
      var s1 := if Enabled(c, s, steps[0]) then Apply(c, s, steps[0]) else s;
      assert s1.rx == s.rx && s1.delivered == s.delivered && s1.dropped == s.dropped;
      SendersLeaveReceiver(c, s1, steps[1..]);
    }
  }

  /** Let the senders act, then take one step of the receiver. */
  method Turn(c: Config, s0: Buffer, s: Buffer, env: seq<seq<Step>>, k: nat, step: Step, ghost past: seq<Step>)
      returns (s': Buffer, ok: bool, ghost schedule: seq<Step>)
    requires SendersOnly(env) && s == RunFrom(c, s0, past)
    ensures s' == RunFrom(c, s0, schedule)
    ensures var t := RunFrom(c, s, At(env, k));
            && t.rx == s.rx && t.delivered == s.delivered && t.dropped == s.dropped
            && ok == Enabled(c, t, step) && s' == if Enabled(c, t, step) then Apply(c, t, step) else t
  {
    hide Apply, Enabled;
    var t := RunFrom(c, s, At(env, k));
    SendersLeaveReceiver(c, s, At(env, k));
    RunFromConcat(c, s0, past, At(env, k));
    ok := Enabled(c, t, step);
    s' := if ok then Apply(c, t, step) else t;
    schedule := past + At(env, k);
    if ok {
      RunAttempt(c, t, step);
      RunFromConcat(c, s0, schedule, [step]);
      schedule := schedule + [step];
    }
  }

  /** With no sender acting, how many events a call takes when time is left for `more` receives after the first. */
  function Taken(c: Config, s: Buffer, more: nat): (n: nat)
    ensures n <= |s.queue|
  {
    Min(|s.queue|, Min(BatchLimit(c), more + 1))
  }

  /** The buffer once the first `n` events are in the receiver's hands. */
  function Drained(s: Buffer, n: nat): (t: Buffer)
    requires n <= |s.queue|
  {
    if n == 0 then s else s.(rx := Draining(s.queue[..n]), queue := s.queue[n..])
  }

  /** The buffer after a call that returned its first `n` events while no sender acted: they are off the counter, and
      overload stands exactly if it stood and the count exceeded them. An empty batch leaves both alone. */
  function Called(s: Buffer, n: nat): (t: Buffer)
    requires n <= |s.queue|
  {
    s.(queue := s.queue[n..], delivered := s.delivered + [s.queue[..n]],
       spill := if n < s.spill then s.spill - n else if n == 0 then s.spill else 0,
       overloaded := s.overloaded && (n < s.spill || n == 0))
  }

  lemma DrainOneMore(c: Config, s: Buffer, n: nat)
    requires 0 < n < |s.queue|
    ensures var t := Drained(s, n);
            Drained(s, n + 1) == t.(rx := Draining(t.rx.batch + [t.queue[0]]), queue := t.queue[1..])
  {
    assert s.queue[..n + 1] == s.queue[..n] + [s.queue[n]];
  }

  /** Wait for the first event, then drain more until the batch is full, the channel is empty or `more`
      receives have been made. */
  method DrainChannel(c: Config, s: Buffer, env: seq<seq<Step>>, more: nat)
      returns (t: Buffer, k: nat, ghost schedule: seq<Step>)
    requires s.rx.Ready? && !s.dropped && SendersOnly(env)
    ensures t == RunFrom(c, s, schedule) && t.delivered == s.delivered && !t.dropped
    ensures var first := RunFrom(c, s, At(env, 0)).queue;
            if first == [] then t.rx.Ready? else t.rx.Draining? && [first[0]] <= t.rx.batch
    ensures env == [] ==> t == Drained(s, Taken(c, s, more))
  {
    hide RunFrom;
    RunNothing(c, s);
    var ok;
    t, ok, schedule := Turn(c, s, s, env, 0, RecvFirst, []);
    k := 1;
    ghost var first := RunFrom(c, s, At(env, 0)).queue;
    while ok && |t.rx.batch| < c.batchSize && k <= more
      invariant t == RunFrom(c, s, schedule) && t.delivered == s.delivered && !t.dropped
      invariant ok ==> first != []
      invariant if first == [] then t.rx.Ready? else t.rx.Draining? && [first[0]] <= t.rx.batch
      invariant env == [] ==> DrainsAlong(c, s, t, k, ok, more)
      decreases more - k, ok
    {
      DrainsFurther(c, s, t, k, more);
      RunNothing(c, t);
      t, ok, schedule := Turn(c, s, t, env, k, RecvMore, schedule);
      k := k + 1;
    }
  }

  /** Where a drain that no sender disturbs is before its `k`-th receive. */
  ghost predicate DrainsAlong(c: Config, s: Buffer, t: Buffer, k: nat, ok: bool, more: nat) {
    && 0 < k <= more + 1
    && if ok then k <= |s.queue| && k <= BatchLimit(c) && t == Drained(s, k)
       else t == Drained(s, |s.queue|) && |s.queue| < k && |s.queue| <= BatchLimit(c)
  }

  lemma DrainsFurther(c: Config, s: Buffer, t: Buffer, k: nat, more: nat)
    requires t.rx.Draining? && |t.rx.batch| < c.batchSize && k <= more
    ensures DrainsAlong(c, s, t, k, true, more) ==>
              if k == |s.queue| then !Enabled(c, t, RecvMore) && DrainsAlong(c, s, t, k + 1, false, more)
              else Enabled(c, t, RecvMore) && DrainsAlong(c, s, Apply(c, t, RecvMore), k + 1, true, more)
  {
    if 0 < k < |s.queue| {
      DrainOneMore(c, s, k);
    }
  }

  /** The receiver's progress once it has stopped draining, whatever the senders do meanwhile. */
  ghost predicate Settled(s: Buffer, t: Buffer) {
    match s.rx
    case Draining(b) => t.rx == Loading(b) && t.delivered == s.delivered
    case Loading(b) => (t.rx == Reloading(b) || (t.rx.Subtracting? && t.rx.batch == b)) && t.delivered == s.delivered
    case Subtracting(b, _) => t.rx == Reloading(b) && t.delivered == s.delivered
    case Reloading(b) =>
      || (t.rx == Clearing(b) && t.delivered == s.delivered)
      || (t.rx == Ready && t.delivered == s.delivered + [b])
    case Clearing(b) => t.rx == Ready && t.delivered == s.delivered + [b]
    case Ready => false
  }

  /** The receiver's next operation after draining. */
  function NextOperation(rx: Rx): (step: Step)
    requires !rx.Ready?
  {
    match rx
    case Draining(_) => StopDrain
    case Loading(_) => Load
    case Subtracting(_, _) => FetchSub
    case Reloading(_) => Reload
    case Clearing(_) => ClearFlag
  }

  /** The receiver's next operation, on its own. */
  function Onward(c: Config, s: Buffer): (t: Buffer)
    requires !s.rx.Ready?
  {
    Apply(c, s, NextOperation(s.rx))
  }

  /** The batch in hand returned, with no sender acting meanwhile. */
  function Returned(s: Buffer): (t: Buffer)
    requires s.rx.Draining?
  {
    var n := |s.rx.batch|;
    s.(rx := Ready, delivered := s.delivered + [s.rx.batch],
       spill := if n < s.spill then s.spill - n else 0, overloaded := s.overloaded && n < s.spill)
  }

  /** The operations after draining, one after the other. */
  function OnwardTo(c: Config, s: Buffer): (t: Buffer)
    requires s.rx.Draining?
  {
    var loaded := Onward(c, Onward(c, s));
    var reloading := if loaded.rx.Subtracting? then Onward(c, loaded) else loaded;
    var reloaded := Onward(c, reloading);
    if reloaded.rx.Clearing? then Onward(c, reloaded) else reloaded
  }

  lemma OnwardReturns(c: Config, s: Buffer)
    requires s.rx.Draining? && s.spill >= 0 && s.rx.batch != []
    ensures OnwardTo(c, s) == Returned(s)
  {
    hide Onward;
    OnwardLoads(c, s);
    var loaded := Onward(c, Onward(c, s));
    if s.spill > 0 {
      OnwardSubtracts(c, loaded);
    }
    var reloading := if s.spill > 0 then Onward(c, loaded) else loaded;
    OnwardReloads(c, reloading);
    if reloading.spill == 0 {
      OnwardClears(c, Onward(c, reloading));
    }
  }

  lemma OnwardLoads(c: Config, s: Buffer)
    requires s.rx.Draining? && s.spill >= 0
    ensures !Onward(c, s).rx.Ready?
    ensures Onward(c, Onward(c, s))
         == s.(rx := if s.spill > 0 then Subtracting(s.rx.batch, s.spill) else Reloading(s.rx.batch))
  {
  }

  lemma OnwardSubtracts(c: Config, s: Buffer)
    requires s.rx.Subtracting? && s.spill == s.rx.remaining
    ensures var n := |s.rx.batch|;
            Onward(c, s) == s.(spill := if n < s.spill then s.spill - n else 0, rx := Reloading(s.rx.batch))
  {
  }

  lemma OnwardReloads(c: Config, s: Buffer)
    requires s.rx.Reloading?
    ensures Onward(c, s) == if s.spill == 0 then s.(rx := Clearing(s.rx.batch)) else Return(s)
  {
  }

  lemma OnwardClears(c: Config, s: Buffer)
    requires s.rx.Clearing?
    ensures Onward(c, s) == Return(s).(overloaded := false)
  {
  }

  method SettleTurn(c: Config, s0: Buffer, s: Buffer, env: seq<seq<Step>>, k: nat, ghost past: seq<Step>)
      returns (t: Buffer, ghost schedule: seq<Step>)
    requires SendersOnly(env) && s == RunFrom(c, s0, past) && !s.rx.Ready?
    ensures t == RunFrom(c, s0, schedule) && Settled(s, t)
    ensures env == [] ==> t == Onward(c, s)
  {
    RunNothing(c, s);
    var ok;
    t, ok, schedule := Turn(c, s0, s, env, k, NextOperation(s.rx), past);
  }

  /** Set the batch against the counter and clear the flag if nothing is left to justify it. */
  method SettleCounter(c: Config, s0: Buffer, s: Buffer, env: seq<seq<Step>>, k: nat, ghost past: seq<Step>)
      returns (t: Buffer, ghost schedule: seq<Step>)
    requires SendersOnly(env) && s == RunFrom(c, s0, past) && s.rx.Draining?
    ensures t == RunFrom(c, s0, schedule) && t.rx.Ready? && t.delivered == s.delivered + [s.rx.batch]
    ensures env == [] ==> t == OnwardTo(c, s)
  {
    hide RunFrom, Onward;
    t, schedule := SettleTurn(c, s0, s, env, k, past);
    t, schedule := SettleTurn(c, s0, t, env, k + 1, schedule);
    if t.rx.Subtracting? {
      t, schedule := SettleTurn(c, s0, t, env, k + 2, schedule);
    }
    t, schedule := SettleTurn(c, s0, t, env, k + 3, schedule);
    if t.rx.Clearing? {
      t, schedule := SettleTurn(c, s0, t, env, k + 4, schedule);
    }
  }

  /** One call of `next_batch`, with the senders acting before each of its atomic operations as `env` says. The
      call is one of the protocol's runs, so all that holds of every run holds after it; it returns empty only
      if the channel was empty when it polled, and otherwise starts with the oldest event. */
  method NextBatch(c: Config, s: Buffer, env: seq<seq<Step>>, more: nat)
      returns (s': Buffer, events: seq<Item>, ghost schedule: seq<Step>)
    requires Inv(c, s) && s.rx.Ready? && !s.dropped && SendersOnly(env)
    ensures s' == RunFrom(c, s, schedule) && Inv(c, s')
    ensures s'.rx.Ready? && s'.delivered == s.delivered + [events]
    ensures |events| <= BatchLimit(c)
    ensures var first := RunFrom(c, s, At(env, 0)).queue;
            if first == [] then events == [] else [first[0]] <= events
    ensures env == [] ==>
              s' == Called(s, Taken(c, s, more)) && events == s.queue[..Taken(c, s, more)]
  {
    CountNotNegative(c, s);
    CalledWithSome(c, s, Taken(c, s, more));
    CalledWithNone(c, s);
    hide Inv, RunFrom, OnwardTo, Taken, Called, Drained, SendersOnly, BatchLimit;
    var t, k;
    t, k, schedule := DrainChannel(c, s, env, more);
    if t.rx.Ready? {
      RunAttempt(c, t, PollTimeout);
      RunFromConcat(c, s, schedule, [PollTimeout]);
      schedule := schedule + [PollTimeout];
      s', events := Apply(c, t, PollTimeout), [];
    } else {
      events := t.rx.batch;
      s', schedule := SettleCounter(c, s, t, env, k, schedule);
    }
    RunFromKeepsInv(c, s, schedule);
    LastBatchWithinLimit(c, s');
  }

  lemma CalledWithSome(c: Config, s: Buffer, n: nat)
    requires s.rx.Ready? && s.spill >= 0 && n <= |s.queue|
    ensures n == 0 ==> Drained(s, n) == s
    ensures n > 0 ==> Drained(s, n).rx == Draining(s.queue[..n]) && OnwardTo(c, Drained(s, n)) == Called(s, n)
  {
    if n > 0 {
      OnwardReturns(c, Drained(s, n));
      hide OnwardTo;
    }
  }

  lemma CalledWithNone(c: Config, s: Buffer)
    requires s.rx.Ready? && !s.dropped
    ensures Apply(c, s, PollTimeout) == Called(s, 0) && s.queue[..0] == []
  {
    assert s.queue[0..] == s.queue;
  }

  lemma CountNotNegative(c: Config, s: Buffer)
    requires Inv(c, s)
    ensures s.spill >= 0
  {
  }

  lemma LastBatchWithinLimit(c: Config, s: Buffer)
    requires Inv(c, s) && s.delivered != []
    ensures |s.delivered[|s.delivered| - 1]| <= BatchLimit(c)
  {
  }
}
