/** The push-source backpressure buffer: any number of cloned senders and one receiver over a bounded FIFO
    channel, an atomic spill counter and an overload flag.

    Every atomic operation of `PushBufferTx::send` and `PushBufferRx::next_batch` is a step of its own, and a
    schedule is any sequence of steps. The atomics are read as sequentially consistent. */
module PushBuffer {
  import opened Naturals

  type SenderId = nat
  type Event = int // opaque: only its identity matters

  datatype Item = Item(sender: SenderId, event: Event)

  datatype Config = Config(capacity: nat, batchSize: nat, threshold: nat)

  /** Where one sender is inside `send`. */
  datatype Tx =
    | Idle
    | Counting(event: Event)   // try_send said Full; fetch_add comes next
    | Flagging(event: Event)   // counted at or past the threshold; the flag store comes next
    | Blocked(event: Event)    // awaiting room in the channel

  /** Where the receiver is inside `next_batch`. */
  datatype Rx =
    | Ready
    | Draining(batch: seq<Item>)
    | Loading(batch: seq<Item>)
    | Subtracting(batch: seq<Item>, remaining: nat)
    | Reloading(batch: seq<Item>)
    | Clearing(batch: seq<Item>)

  datatype Buffer = Buffer(
    queue: seq<Item>, spill: int, overloaded: bool, // what the two halves share
    tx: map<SenderId, Tx>, rx: Rx,
    dropped: bool,                                  // the receiver is gone
    // history
    entered: seq<Item>,                             // everything that went into the channel
    delivered: seq<seq<Item>>,                      // the batches returned
    asked: map<SenderId, seq<Event>>,               // per sender: events of sends that did not give up
    abandoned: nat)                                 // counted sends cancelled, or failed on a dropped receiver

  datatype Step =
    | TrySendOk(i: SenderId, e: Event) | TrySendFull(i: SenderId, e: Event) | TrySendClosed(i: SenderId, e: Event)
    | FetchAdd(i: SenderId) | StoreFlag(i: SenderId) | Enqueue(i: SenderId) | Abandon(i: SenderId)
    | RecvFirst | PollTimeout | RecvMore | StopDrain | Load | FetchSub | Reload | ClearFlag
    | DropReceiver

  function Start(): (s: Buffer) {
    Buffer([], 0, false, map[], Ready, false, [], [], map[], 0)
  }

  function TxOf(s: Buffer, i: SenderId): (t: Tx) {
    if i in s.tx then s.tx[i] else Idle
  }

  function AskedBy(s: Buffer, i: SenderId): (es: seq<Event>) {
    if i in s.asked then s.asked[i] else []
  }

  function Batch(rx: Rx): (b: seq<Item>) {
    if rx.Ready? then [] else rx.batch
  }

  /** Senders counted in `spill` whose event is not in the channel yet. */
  function Counted(s: Buffer): (ids: set<SenderId>) {
    set i | i in s.tx && (s.tx[i].Flagging? || s.tx[i].Blocked?)
  }

  function Waiting(s: Buffer): (ids: set<SenderId>) {
    set i | i in s.tx && s.tx[i].Blocked?
  }

  /** `try_send` also reports Full while earlier waiters hold the free permits. */
  predicate Enabled(c: Config, s: Buffer, step: Step) {
    match step
    case TrySendOk(i, _) => TxOf(s, i).Idle? && !s.dropped && |s.queue| < c.capacity
    case TrySendFull(i, _) => TxOf(s, i).Idle? && !s.dropped && (|s.queue| >= c.capacity || Waiting(s) != {})
    case TrySendClosed(i, _) => TxOf(s, i).Idle? && s.dropped
    case FetchAdd(i) => TxOf(s, i).Counting?
    case StoreFlag(i) => TxOf(s, i).Flagging?
    case Enqueue(i) => TxOf(s, i).Blocked? && !s.dropped && |s.queue| < c.capacity
    case Abandon(i) => TxOf(s, i).Blocked?
    case RecvFirst => s.rx.Ready? && !s.dropped && s.queue != []
    case PollTimeout => s.rx.Ready? && !s.dropped
    case RecvMore => s.rx.Draining? && |s.rx.batch| < c.batchSize && s.queue != []
    case StopDrain => s.rx.Draining?
    case Load => s.rx.Loading?
    case FetchSub => s.rx.Subtracting?
    case Reload => s.rx.Reloading?
    case ClearFlag => s.rx.Clearing?
    case DropReceiver => s.rx.Ready?
  }

  function Ask(s: Buffer, i: SenderId, e: Event): (asked: map<SenderId, seq<Event>>) {
    s.asked[i := AskedBy(s, i) + [e]]
  }

  function Push(s: Buffer, item: Item): (s': Buffer) {
    s.(queue := s.queue + [item], entered := s.entered + [item])
  }

  function Return(s: Buffer): (s': Buffer)
    requires !s.rx.Ready?
  {
    s.(rx := Ready, delivered := s.delivered + [s.rx.batch])
  }

  function Apply(c: Config, s: Buffer, step: Step): (s': Buffer)
    requires Enabled(c, s, step)
  {
    match step
    case TrySendOk(i, e) => Push(s, Item(i, e)).(asked := Ask(s, i, e))
    case TrySendFull(i, e) => s.(tx := s.tx[i := Counting(e)], asked := Ask(s, i, e))
    case TrySendClosed(i, e) => s
    case FetchAdd(i) =>
      var e := s.tx[i].event;
      var next := if s.spill + 1 >= c.threshold then Flagging(e) else Blocked(e);
      s.(spill := s.spill + 1, tx := s.tx[i := next])
    case StoreFlag(i) => s.(overloaded := true, tx := s.tx[i := Blocked(s.tx[i].event)])
    case Enqueue(i) => Push(s, Item(i, s.tx[i].event)).(tx := s.tx[i := Idle])
    case Abandon(i) =>
      var a := AskedBy(s, i);
      s.(tx := s.tx[i := Idle], abandoned := s.abandoned + 1,
         asked := s.asked[i := if a == [] then a else a[..|a| - 1]])
    case RecvFirst => s.(rx := Draining([s.queue[0]]), queue := s.queue[1..])
    case PollTimeout => s.(delivered := s.delivered + [[]])
    case RecvMore => s.(rx := Draining(s.rx.batch + [s.queue[0]]), queue := s.queue[1..])
    case StopDrain => s.(rx := Loading(s.rx.batch))
    case Load =>
      s.(rx := if s.spill > 0 then Subtracting(s.rx.batch, s.spill) else Reloading(s.rx.batch))
    case FetchSub =>
      s.(spill := s.spill - Min(s.rx.remaining, |s.rx.batch|), rx := Reloading(s.rx.batch))
    case Reload => if s.spill == 0 then s.(rx := Clearing(s.rx.batch)) else Return(s)
    case ClearFlag => Return(s).(overloaded := false)
    case DropReceiver => s.(dropped := true)
  }

  /** The state a schedule leads to; a step that is not enabled does not happen. */
  function RunFrom(c: Config, s: Buffer, steps: seq<Step>): (s': Buffer)
    decreases |steps|
  {
    if steps == [] then s
    else RunFrom(c, if Enabled(c, s, steps[0]) then Apply(c, s, steps[0]) else s, steps[1..])
  }

  function Run(c: Config, steps: seq<Step>): (s: Buffer) {
    RunFrom(c, Start(), steps)
  }

  // ── What every step keeps ────────────────────────────────────────────────

  /** Events the receiver holds and has not yet set against the counter. */
  function Held(rx: Rx): (n: nat) {
    match rx
    case Draining(b) => |b|
    case Loading(b) => |b|
    case Subtracting(b, _) => |b|
    case _ => 0
  }

  /** Everything that can justify a count, apart from the batch in hand. */
  function Pressure(s: Buffer): (n: nat) {
    |s.queue| + |Counted(s)| + s.abandoned
  }

  /** The counter never underflows and never outgrows what can justify it. */
  predicate CountInv(s: Buffer) {
    && 0 <= s.spill <= Pressure(s) + Held(s.rx)
    && (s.rx.Subtracting? ==> 0 < s.rx.remaining <= s.spill <= s.rx.remaining + Pressure(s))
  }

  /** The overload flag is never left standing alone. */
  predicate FlagInv(s: Buffer) {
    s.overloaded ==> Pressure(s) > 0 || !s.rx.Ready?
  }

  function BatchLimit(c: Config): (n: nat) {
    if c.batchSize == 0 then 1 else c.batchSize
  }

  function Flatten(batches: seq<seq<Item>>): (items: seq<Item>) {
    if batches == [] then [] else Flatten(batches[..|batches| - 1]) + batches[|batches| - 1]
  }

  /** Nothing is lost, duplicated or reordered on the way through. */
  predicate Conserved(s: Buffer) {
    s.entered == Flatten(s.delivered) + Batch(s.rx) + s.queue
  }

  predicate Sizes(c: Config, s: Buffer) {
    && |s.queue| <= c.capacity
    && (!s.rx.Ready? ==> 1 <= |s.rx.batch| <= BatchLimit(c))
    && forall k :: 0 <= k < |s.delivered| ==> |s.delivered[k]| <= BatchLimit(c)
  }

  /** The events of one sender, in the order they entered. */
  function From(items: seq<Item>, i: SenderId): (es: seq<Event>) {
    if items == [] then []
    else
      var last := items[|items| - 1];
      From(items[..|items| - 1], i) + if last.sender == i then [last.event] else []
  }

  function InHand(t: Tx): (es: seq<Event>) {
    if t.Idle? then [] else [t.event]
  }

  /** What sender `i` asked for is what it has put in, and then what it is holding. */
  predicate OrderAt(s: Buffer, i: SenderId) {
    AskedBy(s, i) == From(s.entered, i) + InHand(TxOf(s, i))
  }

  ghost predicate OrderInv(s: Buffer) {
    forall i :: OrderAt(s, i)
  }

  ghost predicate Inv(c: Config, s: Buffer) {
    CountInv(s) && FlagInv(s) && Conserved(s) && Sizes(c, s) && OrderInv(s)
  }

  predicate IsCounted(t: Tx) {
    t.Flagging? || t.Blocked?
  }

  /** How a step changes the number of counted senders. */
  function CountedChange(step: Step): (d: int) {
    if step.FetchAdd? then 1 else if step.Enqueue? || step.Abandon? then -1 else 0
  }

  lemma CountedAfter(s: Buffer, s': Buffer, i: SenderId, t: Tx)
    requires s'.tx == s.tx[i := t]
    ensures |Counted(s')| == |Counted(s)| + (if IsCounted(t) then 1 else 0) - (if IsCounted(TxOf(s, i)) then 1 else 0)
  {
    forall j
      ensures j != i ==> (j in Counted(s') <==> j in Counted(s))
    {
    }
    assert i in Counted(s) <==> IsCounted(TxOf(s, i));
    DifferInOne(Counted(s), Counted(s'), i);
  }

  lemma DifferInOne(a: set<SenderId>, b: set<SenderId>, i: SenderId)
    requires forall j :: j != i ==> (j in a <==> j in b)
    ensures |b| - (if i in b then 1 else 0) == |a| - (if i in a then 1 else 0)
  {
    assert a - {i} == b - {i};
    RemoveOne(a, i);
    RemoveOne(b, i);
  }

  lemma RemoveOne(a: set<SenderId>, i: SenderId)
    ensures |a - {i}| == if i in a then |a| - 1 else |a|
  {
  }

  lemma CountedSteps(c: Config, s: Buffer, step: Step)
    requires Enabled(c, s, step)
    ensures |Counted(Apply(c, s, step))| == |Counted(s)| + CountedChange(step)
  {
    hide Counted;
    var s' := Apply(c, s, step);
    if step.TrySendFull? || step.FetchAdd? || step.StoreFlag? || step.Enqueue? || step.Abandon? {
      CountedAfter(s, s', step.i, s'.tx[step.i]);
    } else {
      SameCounted(s, s');
    }
  }

  lemma SameCounted(s: Buffer, s': Buffer)
    requires s'.tx == s.tx
    ensures Counted(s') == Counted(s)
  {
  }

  lemma CountKept(c: Config, s: Buffer, step: Step)
    requires CountInv(s) && Enabled(c, s, step)
    ensures CountInv(Apply(c, s, step))
  {
    CountedSteps(c, s, step);
    hide Counted;
  }

  lemma FlagKept(c: Config, s: Buffer, step: Step)
    requires CountInv(s) && FlagInv(s) && Enabled(c, s, step)
    ensures FlagInv(Apply(c, s, step))
  {
    CountedSteps(c, s, step);
    if step.StoreFlag? {
      assert step.i in Counted(Apply(c, s, step));
    }
    hide Counted;
  }

  lemma FlattenReturn(batches: seq<seq<Item>>, b: seq<Item>)
    ensures Flatten(batches + [b]) == Flatten(batches) + b
  {
    assert (batches + [b])[..|batches|] == batches;
  }

  lemma PushAtEnd(f: seq<Item>, b: seq<Item>, q: seq<Item>, x: Item)
    ensures (f + b + q) + [x] == f + b + (q + [x])
  {
  }

  lemma TakeFirst(f: seq<Item>, b: seq<Item>, q: seq<Item>)
    requires q != []
    ensures f + b + q == f + (b + [q[0]]) + q[1..]
  {
  }

  lemma SettleBatch(f: seq<Item>, b: seq<Item>, q: seq<Item>)
    ensures f + b + q == (f + b) + [] + q
  {
  }

  lemma ConservedKept(c: Config, s: Buffer, step: Step)
    requires Conserved(s) && Enabled(c, s, step)
    ensures Conserved(Apply(c, s, step))
  {
    hide Flatten;
    var f, b, q := Flatten(s.delivered), Batch(s.rx), s.queue;
    if step.TrySendOk? {
      PushAtEnd(f, b, q, Item(step.i, step.e));
    } else if step.Enqueue? {
      PushAtEnd(f, b, q, Item(step.i, s.tx[step.i].event));
    } else if step.RecvFirst? || step.RecvMore? {
      TakeFirst(f, b, q);
      assert [] + [q[0]] == [q[0]];
    } else {
      FlattenReturn(s.delivered, if step.PollTimeout? then [] else b);
      SettleBatch(f, b, q);
      assert f + [] == f;
    }
  }

  lemma SizesKept(c: Config, s: Buffer, step: Step)
    requires Sizes(c, s) && Enabled(c, s, step)
    ensures Sizes(c, Apply(c, s, step))
  {
  }

  lemma FromPush(items: seq<Item>, item: Item, i: SenderId)
    ensures From(items + [item], i) == From(items, i) + if item.sender == i then [item.event] else []
  {
    assert (items + [item])[..|items|] == items;
  }

  lemma OrderKept(c: Config, s: Buffer, step: Step)
    requires OrderInv(s) && Enabled(c, s, step)
    ensures OrderInv(Apply(c, s, step))
  {
    hide Apply, Enabled, From;
    forall i
      ensures OrderAt(Apply(c, s, step), i)
    {
      assert OrderAt(s, i);
      OrderAtKept(c, s, step, i);
    }
  }

  lemma OrderAtKept(c: Config, s: Buffer, step: Step, i: SenderId)
    requires OrderAt(s, i) && Enabled(c, s, step)
    ensures OrderAt(Apply(c, s, step), i)
  {
    hide From;
    if step.TrySendOk? {
      FromPush(s.entered, Item(step.i, step.e), i);
    } else if step.Enqueue? {
      FromPush(s.entered, Item(step.i, s.tx[step.i].event), i);
    }
  }

  lemma StepKeepsInv(c: Config, s: Buffer, step: Step)
    requires Inv(c, s) && Enabled(c, s, step)
    ensures Inv(c, Apply(c, s, step))
  {
    hide CountInv, FlagInv, Conserved, Sizes, OrderInv, Apply, Enabled;
    CountKept(c, s, step);
    FlagKept(c, s, step);
    ConservedKept(c, s, step);
    SizesKept(c, s, step);
    OrderKept(c, s, step);
  }

  lemma {:induction false} RunFromKeepsInv(c: Config, s: Buffer, steps: seq<Step>)
    requires Inv(c, s)
    ensures Inv(c, RunFrom(c, s, steps))
    decreases |steps|
  {
    hide Inv, Apply, Enabled;
    if steps != [] {
      if Enabled(c, s, steps[0]) {
        StepKeepsInv(c, s, steps[0]);
        RunFromKeepsInv(c, Apply(c, s, steps[0]), steps[1..]);
      } else {
        RunFromKeepsInv(c, s, steps[1..]);
      }
    }
  }

  lemma RunKeepsInv(c: Config, steps: seq<Step>)
    ensures Inv(c, Run(c, steps))
  {
    assert Counted(Start()) == {};
    RunFromKeepsInv(c, Start(), steps);
  }

  // ── Over every schedule ──────────────────────────────────────────────────

  /** The counter never underflows, and never exceeds queued events, counted senders still on their way in,
      events in the unfinished batch, and counted sends that gave up. */
  lemma SpillJustified(c: Config, steps: seq<Step>)
    ensures var s := Run(c, steps);
            0 <= s.spill <= |s.queue| + |Counted(s)| + Held(s.rx) + s.abandoned
  {
    RunKeepsInv(c, steps);
  }

  /** Nothing is in the channel or on its way, and no batch is being finished. */
  predicate Quiet(s: Buffer) {
    s.queue == [] && s.rx.Ready? && forall i :: i in s.tx ==> s.tx[i].Idle?
  }

  /** Overload cannot stick: while it is set an event is queued, a counted sender is still enqueuing or a batch
      is being finished, so a quiet buffer in which no counted send gave up is clear, with a zero counter. */
  lemma OverloadCannotStick(c: Config, steps: seq<Step>)
    requires Run(c, steps).abandoned == 0
    ensures var s := Run(c, steps);
            && (s.overloaded ==> s.queue != [] || Counted(s) != {} || !s.rx.Ready?)
            && (Quiet(s) ==> !s.overloaded && s.spill == 0)
  {
    RunKeepsInv(c, steps);
    var s := Run(c, steps);
    if Quiet(s) {
      assert Counted(s) == {};
    }
  }

  lemma {:induction false} RunFromConcat(c: Config, s: Buffer, a: seq<Step>, b: seq<Step>)
    ensures RunFrom(c, s, a + b) == RunFrom(c, RunFrom(c, s, a), b)
    decreases |a|
  {
    hide Apply, Enabled;
    if a == [] {
      assert a + b == b;
    } else {
      assert (a + b)[1..] == a[1..] + b;
      RunFromConcat(c, if Enabled(c, s, a[0]) then Apply(c, s, a[0]) else s, a[1..], b);
    }
  }

  /** A step that is not enabled does not happen. */
  function Attempt(c: Config, s: Buffer, a: Step): (s': Buffer) {
    if Enabled(c, s, a) then Apply(c, s, a) else s
  }

  /** How many senders count in the course of the steps. */
  function Counts(c: Config, s: Buffer, steps: seq<Step>): (n: nat)
    decreases |steps|
  {
    if steps == [] then 0
    else
      (if steps[0].FetchAdd? && Enabled(c, s, steps[0]) then 1 else 0) + Counts(c, Attempt(c, s, steps[0]), steps[1..])
  }

  lemma RunAttempt(c: Config, s: Buffer, a: Step)
    ensures RunFrom(c, s, [a]) == Attempt(c, s, a)
  {
    hide Apply, Enabled;
    assert [a][1..] == [];
    assert RunFrom(c, Attempt(c, s, a), []) == Attempt(c, s, a);
  }

  lemma RunNothing(c: Config, s: Buffer)
    ensures RunFrom(c, s, []) == s
  {
  }

  /** Delivered batches, then the batch in hand, then the queue are exactly what entered; each sender's events
      come in the order it sent them; and no batch is larger than the limit. */
  lemma NothingLost(c: Config, steps: seq<Step>)
    ensures var s := Run(c, steps);
            && Flatten(s.delivered) + Batch(s.rx) + s.queue == s.entered
            && (forall i :: AskedBy(s, i) == From(s.entered, i) + InHand(TxOf(s, i)))
            && (forall k :: 0 <= k < |s.delivered| ==> |s.delivered[k]| <= BatchLimit(c))
            && |Batch(s.rx)| <= BatchLimit(c)
  {
    RunKeepsInv(c, steps);
    forall i
      ensures AskedBy(Run(c, steps), i) == From(Run(c, steps).entered, i) + InHand(TxOf(Run(c, steps), i))
    {
      assert OrderAt(Run(c, steps), i);
    }
  }

  /** What `try_send` can report to an idle sender. With the receiver gone only that, and nothing changes; otherwise,
      with the channel full only that it is full; with room and nobody waiting only success; and with room while others
      wait, either, since they may hold the free places. */
  lemma TrySendOutcomes(c: Config, s: Buffer, i: SenderId, e: Event)
    requires TxOf(s, i).Idle?
    ensures var ok, full, closed :=
              Enabled(c, s, TrySendOk(i, e)), Enabled(c, s, TrySendFull(i, e)), Enabled(c, s, TrySendClosed(i, e));
            var waiting := exists j :: j in s.tx && s.tx[j].Blocked?;
            && (s.dropped ==> closed && !ok && !full && Apply(c, s, TrySendClosed(i, e)) == s)
            && (!s.dropped && |s.queue| >= c.capacity ==> full && !ok && !closed)
            && (!s.dropped && |s.queue| < c.capacity && !waiting ==> ok && !full && !closed)
            && (!s.dropped && |s.queue| < c.capacity && waiting ==> ok && full && !closed)
  {
    if j :| j in s.tx && s.tx[j].Blocked? {
      assert j in Waiting(s);
    }
  }

  lemma {:induction false} GoneStaysGone(c: Config, s: Buffer, steps: seq<Step>)
    requires s.dropped && s.rx.Ready?
    ensures var t := RunFrom(c, s, steps);
            && t.dropped && t.rx.Ready? && t.queue == s.queue && t.entered == s.entered && t.delivered == s.delivered
    decreases |steps|
  {
    if steps != [] {
      GoneStaysGone(c, Attempt(c, s, steps[0]), steps[1..]);
    }
  }

  /** Once the receiver is dropped, between two calls, it is gone for good: over every schedule nothing enters the
      channel, leaves it or is returned any more. */
  lemma ReceiverGone(c: Config, s: Buffer, steps: seq<Step>)
    requires s.rx.Ready?
    ensures var t := RunFrom(c, s, [DropReceiver] + steps);
            && t.dropped && t.rx.Ready? && t.queue == s.queue && t.entered == s.entered && t.delivered == s.delivered
  {
    RunFromConcat(c, s, [DropReceiver], steps);
    RunAttempt(c, s, DropReceiver);
    GoneStaysGone(c, Attempt(c, s, DropReceiver), steps);
  }
}
