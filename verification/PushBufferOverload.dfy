/** The overload flag over whole runs: exactly when it can outlive all pressure, and exactly when it is lost under
    it. */
module PushBufferOverload {
  import opened Naturals
  import opened PushBuffer

  // ── Reachability ─────────────────────────────────────────────────────────

  ghost predicate Reaches(c: Config, s: Buffer, t: Buffer) {
    exists steps :: RunFrom(c, s, steps) == t
  }

  lemma ReachesSelf(c: Config, s: Buffer)
    ensures Reaches(c, s, s)
  {
    RunNothing(c, s);
  }

  /** One more step. */
  lemma ReachesNext(c: Config, s: Buffer, t: Buffer, a: Step)
    requires Reaches(c, s, t) && Enabled(c, t, a)
    ensures Reaches(c, s, Apply(c, t, a))
  {
    hide RunFrom;
    var steps :| RunFrom(c, s, steps) == t;
    RunAttempt(c, t, a);
    RunFromConcat(c, s, steps, [a]);
  }

  lemma ReachesOn(c: Config, s: Buffer, t: Buffer, u: Buffer)
    requires Reaches(c, s, t) && Reaches(c, t, u)
    ensures Reaches(c, s, u)
  {
    hide RunFrom;
    var a :| RunFrom(c, s, a) == t;
    var b :| RunFrom(c, t, b) == u;
    RunFromConcat(c, s, a, b);
  }

  // ── A cancelled send ─────────────────────────────────────────────────────

  /** A send that is counted, raises the flag if it must, and is then cancelled. */
  function CancelledSend(i: SenderId, e: Event): (steps: seq<Step>) {
    [TrySendFull(i, e)] + [FetchAdd(i)] + [StoreFlag(i)] + [Abandon(i)]
  }

  /** Such a send leaves its count, and the flag if it reached the threshold, behind. */
  lemma CancelledSendLeavesCount(c: Config, s: Buffer, i: SenderId, e: Event)
    requires TxOf(s, i).Idle? && !s.dropped && |s.queue| >= c.capacity
    ensures var s' := RunFrom(c, s, CancelledSend(i, e));
            && s' == s.(spill := s.spill + 1, overloaded := s.overloaded || s.spill + 1 >= c.threshold,
                        abandoned := s.abandoned + 1, tx := s'.tx, asked := s'.asked)
            && s'.tx == s.tx[i := Idle]
  {
    RunFour(c, s, TrySendFull(i, e), FetchAdd(i), StoreFlag(i), Abandon(i));
    hide RunFrom;
    var s1 := Apply(c, s, TrySendFull(i, e));
    var s2 := Apply(c, s1, FetchAdd(i));
    var s3 := Attempt(c, s2, StoreFlag(i));
    assert TxOf(s1, i) == Counting(e) && TxOf(s3, i) == Blocked(e);
    assert Apply(c, s3, Abandon(i)).tx == s.tx[i := Idle];
  }

  lemma RunFour(c: Config, s: Buffer, a1: Step, a2: Step, a3: Step, a4: Step)
    ensures RunFrom(c, s, [a1] + [a2] + [a3] + [a4])
         == Attempt(c, Attempt(c, Attempt(c, Attempt(c, s, a1), a2), a3), a4)
  {
    hide RunFrom, Attempt;
    var s1 := Attempt(c, s, a1);
    var s2 := Attempt(c, s1, a2);
    var s3 := Attempt(c, s2, a3);
    RunAttempt(c, s, a1);
    RunAttempt(c, s1, a2);
    RunAttempt(c, s2, a3);
    RunAttempt(c, s3, a4);
    RunFromConcat(c, s, [a1], [a2]);
    RunFromConcat(c, s, [a1] + [a2], [a3]);
    RunFromConcat(c, s, [a1] + [a2] + [a3], [a4]);
  }

  // ── Building blocks of the schedules ─────────────────────────────────────

  /** Senders below `m` are blocked, those from `m` to `n` have still to count, the others are idle. */
  ghost predicate Lined(s: Buffer, m: nat, n: nat) {
    forall i :: TxOf(s, i) == Place(i, m, n)
  }

  function Place(i: SenderId, m: nat, n: nat): (t: Tx) {
    if i < m then Blocked(0) else if i < n then Counting(0) else Idle
  }

  /** Moving the sender at the edge moves the line. */
  lemma Relined(s: Buffer, s': Buffer, m: nat, n: nat, i: SenderId, m': nat, n': nat)
    requires Lined(s, m, n) && i in s'.tx && s'.tx == s.tx[i := s'.tx[i]] && s'.tx[i] == Place(i, m', n')
    requires forall j :: j != i ==> Place(j, m, n) == Place(j, m', n')
    ensures Lined(s', m', n')
  {
    forall j
      ensures TxOf(s', j) == Place(j, m', n')
    {
      assert j != i ==> TxOf(s', j) == TxOf(s, j) == Place(j, m, n);
    }
  }

  lemma SameLine(s: Buffer, s': Buffer, m: nat, n: nat)
    requires Lined(s, m, n) && s'.tx == s.tx
    ensures Lined(s', m, n)
  {
    assert forall i :: TxOf(s', i) == TxOf(s, i);
  }

  /** Sender `n`, idle, fills the channel. */
  lemma {:induction false} FillChannel(c: Config, s: Buffer, n: nat) returns (t: Buffer)
    requires Lined(s, 0, n) && !s.dropped && |s.queue| <= c.capacity
    ensures Reaches(c, s, t) && |t.queue| == c.capacity
    ensures t == s.(queue := t.queue, entered := t.entered, asked := t.asked)
    decreases c.capacity - |s.queue|
  {
    hide RunFrom, Reaches;
    ReachesSelf(c, s);
    t := s;
    if |s.queue| < c.capacity {
      var step := TrySendOk(n, 0);
      assert TxOf(s, n) == Place(n, 0, n);
      SameLine(s, Apply(c, s, step), 0, n);
      ReachesNext(c, s, s, step);
      t := FillChannel(c, Apply(c, s, step), n);
      ReachesOn(c, s, Apply(c, s, step), t);
    }
  }

  /** On a full channel `n` senders are told so, and have not counted yet. */
  lemma {:induction false} CountersLineUp(c: Config, s: Buffer, n: nat) returns (t: Buffer)
    requires Lined(s, 0, 0) && !s.dropped && |s.queue| >= c.capacity
    ensures Reaches(c, s, t) && Lined(t, 0, n) && t == s.(tx := t.tx, asked := t.asked)
  {
    hide RunFrom, Reaches;
    ReachesSelf(c, s);
    t := s;
    if n > 0 {
      var u := CountersLineUp(c, s, n - 1);
      assert TxOf(u, n - 1) == Place(n - 1, 0, n - 1);
      ReachesNext(c, s, u, TrySendFull(n - 1, 0));
      t := Apply(c, u, TrySendFull(n - 1, 0));
      Relined(u, t, 0, n - 1, n - 1, 0, n);
    }
  }

  /** With nothing counted, the receiver takes one event and is about to clear the flag. */
  lemma ReachClearing(c: Config, s: Buffer) returns (t: Buffer)
    requires s.rx.Ready? && !s.dropped && s.queue != [] && s.spill == 0
    ensures Reaches(c, s, t) && t == s.(queue := s.queue[1..], rx := Clearing([s.queue[0]]))
  {
    hide RunFrom, Reaches;
    ReachesSelf(c, s);
    ReachesNext(c, s, s, RecvFirst);
    var s1 := Apply(c, s, RecvFirst);
    ReachesNext(c, s, s1, StopDrain);
    var s2 := Apply(c, s1, StopDrain);
    ReachesNext(c, s, s2, Load);
    var s3 := Apply(c, s2, Load);
    ReachesNext(c, s, s3, Reload);
    t := Apply(c, s3, Reload);
  }

  lemma {:induction false} DrainUncounted(c: Config, s: Buffer) returns (t: Buffer)
    requires s.rx.Ready? && !s.dropped && s.spill == 0
    ensures Reaches(c, s, t) && t.queue == [] && t.rx.Ready?
    ensures t == s.(queue := [], delivered := t.delivered, overloaded := t.overloaded)
    decreases |s.queue|
  {
    hide RunFrom, Reaches;
    ReachesSelf(c, s);
    t := s;
    if s.queue != [] {
      var u := ReachClearing(c, s);
      ReachesNext(c, s, u, ClearFlag);
      var v := Apply(c, u, ClearFlag);
      t := DrainUncounted(c, v);
      ReachesOn(c, s, v, t);
    }
  }

  /** One lined-up sender counts, raises the flag if it must, and blocks. */
  lemma CountOne(c: Config, s: Buffer, m: nat, n: nat) returns (t: Buffer)
    requires Lined(s, m, n) && m < n
    ensures Reaches(c, s, t) && Lined(t, m + 1, n)
    ensures t == s.(tx := t.tx, spill := s.spill + 1, overloaded := s.overloaded || s.spill + 1 >= c.threshold)
  {
    hide RunFrom, Reaches;
    ReachesSelf(c, s);
    assert TxOf(s, m) == Place(m, m, n);
    ReachesNext(c, s, s, FetchAdd(m));
    t := Apply(c, s, FetchAdd(m));
    if s.spill + 1 >= c.threshold {
      ReachesNext(c, s, t, StoreFlag(m));
      t := Apply(c, t, StoreFlag(m));
    }
    assert t.tx == s.tx[m := Blocked(0)];
    Relined(s, t, m, n, m, m + 1, n);
  }

  lemma {:induction false} CountAll(c: Config, s: Buffer, m: nat, n: nat) returns (t: Buffer)
    requires Lined(s, m, n) && m <= n
    ensures Reaches(c, s, t) && Lined(t, n, n)
    ensures t == s.(tx := t.tx, spill := s.spill + (n - m), overloaded := t.overloaded)
    ensures m < n && s.spill + (n - m) >= c.threshold ==> t.overloaded
    ensures s.overloaded ==> t.overloaded
    decreases n - m
  {
    hide RunFrom, Reaches, Lined;
    ReachesSelf(c, s);
    t := s;
    if m < n {
      var u := CountOne(c, s, m, n);
      t := CountAll(c, u, m + 1, n);
      ReachesOn(c, s, u, t);
    }
  }

  /** The last blocked sender gets its event in and it is delivered: one comes off the counter, the flag stays. */
  lemma DeliverOne(c: Config, s: Buffer, m: nat) returns (t: Buffer)
    requires Lined(s, m, m) && m >= 1 && s.rx.Ready? && !s.dropped && s.queue == [] && s.spill > 1 && c.capacity >= 1
    ensures Reaches(c, s, t) && Lined(t, m - 1, m - 1)
    ensures t == s.(tx := t.tx, spill := s.spill - 1, entered := t.entered, delivered := t.delivered)
  {
    hide RunFrom, Reaches;
    ReachesSelf(c, s);
    assert TxOf(s, m - 1) == Place(m - 1, m, m);
    ReachesNext(c, s, s, Enqueue(m - 1));
    var u := Apply(c, s, Enqueue(m - 1));
    Relined(s, u, m, m, m - 1, m - 1, m - 1);
    t := DeliverHead(c, u);
    ReachesOn(c, s, u, t);
    SameLine(u, t, m - 1, m - 1);
  }

  lemma DeliverHead(c: Config, s: Buffer) returns (t: Buffer)
    requires s.rx.Ready? && !s.dropped && |s.queue| == 1 && s.spill > 1
    ensures Reaches(c, s, t)
    ensures t == s.(queue := [], spill := s.spill - 1, delivered := s.delivered + [[s.queue[0]]])
  {
    hide RunFrom, Reaches;
    ReachesSelf(c, s);
    ReachesNext(c, s, s, RecvFirst);
    var s1 := Apply(c, s, RecvFirst);
    ReachesNext(c, s, s1, StopDrain);
    var s2 := Apply(c, s1, StopDrain);
    ReachesNext(c, s, s2, Load);
    var s3 := Apply(c, s2, Load);
    ReachesNext(c, s, s3, FetchSub);
    var s4 := Apply(c, s3, FetchSub);
    ReachesNext(c, s, s4, Reload);
    t := Apply(c, s4, Reload);
  }

  lemma {:induction false} DeliverDownTo(c: Config, s: Buffer, m: nat, k: nat) returns (t: Buffer)
    requires Lined(s, m, m) && 1 <= k <= m && s.spill == m
    requires s.rx.Ready? && !s.dropped && s.queue == [] && c.capacity >= 1
    ensures Reaches(c, s, t) && Lined(t, k, k)
    ensures t == s.(tx := t.tx, spill := k, entered := t.entered, delivered := t.delivered)
    decreases m
  {
    hide RunFrom, Reaches, Lined;
    ReachesSelf(c, s);
    t := s;
    if k < m {
      var u := DeliverOne(c, s, m);
      t := DeliverDownTo(c, u, m - 1, k);
      ReachesOn(c, s, u, t);
    }
  }

  lemma {:induction false} AbandonAll(c: Config, s: Buffer, k: nat) returns (t: Buffer)
    requires Lined(s, k, k)
    ensures Reaches(c, s, t) && Lined(t, 0, 0)
    ensures t == s.(tx := t.tx, asked := t.asked, abandoned := s.abandoned + k)
    decreases k
  {
    hide RunFrom, Reaches;
    ReachesSelf(c, s);
    t := s;
    if k > 0 {
      assert TxOf(s, k - 1) == Place(k - 1, k, k);
      ReachesNext(c, s, s, Abandon(k - 1));
      var u := Apply(c, s, Abandon(k - 1));
      Relined(s, u, k, k, k - 1, k - 1, k - 1);
      t := AbandonAll(c, u, k - 1);
      ReachesOn(c, s, u, t);
    }
  }

  // ── Overload without pressure ────────────────────────────────────────────

  /** Overloaded with nothing queued, nobody sending and no batch in hand, after `k` counted sends gave up. */
  ghost predicate Sticks(c: Config, steps: seq<Step>, k: nat) {
    var s := Run(c, steps);
    s.abandoned == k && Quiet(s) && s.overloaded
  }

  /** How many counted sends must give up before overload can stick. A channel of capacity zero cannot be created,
      so it is one for every buffer there is. */
  function StickBound(c: Config): (k: nat) {
    if c.capacity == 0 then Max(1, c.threshold) else 1
  }

  /** Nothing ever enters a channel without room: every count is a sender still waiting or one that gave up, and the
      flag means that so many reached the threshold. */
  ghost predicate NoRoomInv(c: Config, s: Buffer) {
    && s.queue == [] && s.rx.Ready? && s.spill == |Counted(s)| + s.abandoned
    && (s.overloaded ==> s.spill >= c.threshold)
    && forall i :: i in s.tx && s.tx[i].Flagging? ==> s.spill >= c.threshold
  }

  lemma NoRoomStep(c: Config, s: Buffer, step: Step)
    requires c.capacity == 0 && NoRoomInv(c, s) && Enabled(c, s, step)
    ensures NoRoomInv(c, Apply(c, s, step))
  {
    CountedSteps(c, s, step);
    hide Counted;
  }

  lemma {:induction false} NoRoomRun(c: Config, s: Buffer, steps: seq<Step>)
    requires c.capacity == 0 && NoRoomInv(c, s)
    ensures NoRoomInv(c, RunFrom(c, s, steps))
    decreases |steps|
  {
    hide NoRoomInv, Apply, Enabled;
    if steps != [] {
      if Enabled(c, s, steps[0]) {
        NoRoomStep(c, s, steps[0]);
        NoRoomRun(c, Apply(c, s, steps[0]), steps[1..]);
      } else {
        NoRoomRun(c, s, steps[1..]);
      }
    }
  }

  lemma StickNeeds(c: Config, steps: seq<Step>, k: nat)
    requires Sticks(c, steps, k)
    ensures k >= StickBound(c)
  {
    hide RunFrom;
    var s := Run(c, steps);
    assert Counted(s) == {};
    if k == 0 {
      OverloadCannotStick(c, steps);
    }
    if c.capacity == 0 {
      assert Counted(Start()) == {};
      NoRoomRun(c, Start(), steps);
    }
  }

  /** Without room, `k` cancelled sends do it. */
  lemma {:induction false} CancelMany(c: Config, k: nat) returns (steps: seq<Step>)
    requires c.capacity == 0
    ensures var s := Run(c, steps);
            && s == Start().(spill := k, abandoned := k, overloaded := s.overloaded, tx := s.tx, asked := s.asked)
            && (k >= Max(1, c.threshold) ==> s.overloaded) && Lined(s, 0, 0)
  {
    hide RunFrom, Apply, Enabled;
    steps := [];
    RunNothing(c, Start());
    StartLined();
    if k > 0 {
      var before := CancelMany(c, k - 1);
      steps := before + CancelledSend(0, 0);
      RunFromConcat(c, Start(), before, CancelledSend(0, 0));
      assert TxOf(Run(c, before), 0) == Place(0, 0, 0);
      CancelledSendLeavesCount(c, Run(c, before), 0, 0);
      Relined(Run(c, before), Run(c, steps), 0, 0, 0, 0, 0);
    }
  }

  /** With room: line up enough senders on a full channel, drain it before they count, let them all count, deliver all
      but `k` of their events one at a time, and cancel the rest. The counter never reaches zero in between. */
  lemma StickWithRoom(c: Config, k: nat) returns (t: Buffer)
    requires c.capacity >= 1 && k >= 1
    ensures Reaches(c, Start(), t) && t.abandoned == k && Quiet(t) && t.overloaded
  {
    hide RunFrom, Reaches, Apply, Enabled, Lined;
    var n := Max(k, c.threshold);
    StartLined();
    var s1 := FillChannel(c, Start(), 0);
    SameLine(Start(), s1, 0, 0);
    var s2 := CountersLineUp(c, s1, n);
    ReachesOn(c, Start(), s1, s2);
    var s3 := DrainUncounted(c, s2);
    ReachesOn(c, Start(), s2, s3);
    SameLine(s2, s3, 0, n);
    var s4 := CountAll(c, s3, 0, n);
    ReachesOn(c, Start(), s3, s4);
    var s5 := DeliverDownTo(c, s4, n, k);
    ReachesOn(c, Start(), s4, s5);
    t := AbandonAll(c, s5, k);
    ReachesOn(c, Start(), s5, t);
    AllIdle(t);
  }

  lemma StartLined()
    ensures Lined(Start(), 0, 0)
  {
  }

  lemma AllIdle(s: Buffer)
    requires Lined(s, 0, 0)
    ensures forall i :: i in s.tx ==> s.tx[i].Idle?
  {
    forall i | i in s.tx
      ensures s.tx[i].Idle?
    {
      assert TxOf(s, i) == Place(i, 0, 0);
    }
  }

  /** Overload can stick after exactly `k` counted sends gave up if and only if `k` is at least one, or, without
      room in the channel, at least the threshold too. */
  lemma OverloadSticksIff(c: Config, k: nat)
    ensures (exists steps :: Sticks(c, steps, k)) <==> k >= StickBound(c)
  {
    hide RunFrom;
    forall steps | Sticks(c, steps, k)
      ensures k >= StickBound(c)
    {
      StickNeeds(c, steps, k);
    }
    if k >= StickBound(c) {
      if c.capacity == 0 {
        var steps := CancelMany(c, k);
        AllIdle(Run(c, steps));
        assert Sticks(c, steps, k);
      } else {
        var t := StickWithRoom(c, k);
        var steps :| RunFrom(c, Start(), steps) == t;
        assert Sticks(c, steps, k);
      }
    }
  }

  // ── Pressure without overload ────────────────────────────────────────────

  /** The count is at the threshold. */
  predicate Pressing(c: Config, s: Buffer) {
    s.spill >= Max(1, c.threshold)
  }

  /** Some sender is about to raise the flag. */
  ghost predicate Raising(s: Buffer) {
    exists i :: i in s.tx && s.tx[i].Flagging?
  }

  /** What the threshold is for: while the count is at it the flag is up, or about to be. */
  ghost predicate Signalled(c: Config, s: Buffer) {
    Pressing(c, s) ==> s.overloaded || Raising(s)
  }

  /** The receiver clears the flag although the count is at the threshold and nobody will raise it again. */
  ghost predicate Untimely(c: Config, s: Buffer, step: Step) {
    step.ClearFlag? && Pressing(c, s) && !Raising(s)
  }

  lemma RaisingKept(c: Config, s: Buffer, step: Step)
    requires Enabled(c, s, step) && Raising(s) && !step.StoreFlag?
    ensures Raising(Apply(c, s, step))
  {
    var i :| i in s.tx && s.tx[i].Flagging?;
    assert i in Apply(c, s, step).tx && Apply(c, s, step).tx[i].Flagging?;
  }

  /** Any step keeps the signal, except exactly an untimely clear. */
  lemma SignalKeptIff(c: Config, s: Buffer, step: Step)
    requires Signalled(c, s) && Enabled(c, s, step)
    ensures Signalled(c, Apply(c, s, step)) <==> !Untimely(c, s, step)
  {
    var s' := Apply(c, s, step);
    if step.FetchAdd? {
      assert step.i in s'.tx && (Pressing(c, s') ==> s'.tx[step.i].Flagging?);
    } else if Raising(s) && !step.StoreFlag? {
      RaisingKept(c, s, step);
    } else if step.ClearFlag? {
      assert s'.tx == s.tx;
    }
  }

  lemma RunPrefix(c: Config, steps: seq<Step>, k: nat)
    requires k < |steps|
    ensures Run(c, steps[..k + 1]) == Attempt(c, Run(c, steps[..k]), steps[k])
  {
    hide RunFrom, Attempt;
    assert steps[..k + 1] == steps[..k] + [steps[k]];
    RunFromConcat(c, Start(), steps[..k], [steps[k]]);
    RunAttempt(c, Run(c, steps[..k]), steps[k]);
  }

  /** Step `k` of the schedule happens and is no untimely clear, or does not happen. */
  ghost predicate TimelyAt(c: Config, steps: seq<Step>, k: nat)
    requires k < |steps|
  {
    var s := Run(c, steps[..k]);
    Enabled(c, s, steps[k]) ==> !Untimely(c, s, steps[k])
  }

  ghost predicate SignalledAt(c: Config, steps: seq<Step>, k: nat)
    requires k <= |steps|
  {
    Signalled(c, Run(c, steps[..k]))
  }

  lemma SignalledNext(c: Config, steps: seq<Step>, k: nat)
    requires k < |steps| && SignalledAt(c, steps, k)
    ensures SignalledAt(c, steps, k + 1) <==> TimelyAt(c, steps, k)
  {
    hide RunFrom, Untimely, Signalled, Apply, Enabled;
    RunPrefix(c, steps, k);
    if Enabled(c, Run(c, steps[..k]), steps[k]) {
      SignalKeptIff(c, Run(c, steps[..k]), steps[k]);
    }
  }

  lemma {:induction false} SignalledUpTo(c: Config, steps: seq<Step>, n: nat)
    requires n <= |steps| && forall k :: 0 <= k < n ==> TimelyAt(c, steps, k)
    ensures forall k :: 0 <= k <= n ==> SignalledAt(c, steps, k)
    decreases n
  {
    hide SignalledAt, TimelyAt;
    if n == 0 {
      SignalledAtStart(c, steps);
    } else {
      SignalledUpTo(c, steps, n - 1);
      SignalledNext(c, steps, n - 1);
    }
  }

  lemma SignalledAtStart(c: Config, steps: seq<Step>)
    ensures SignalledAt(c, steps, 0)
  {
    assert steps[..0] == [];
  }

  /** Over every schedule: the signal stands all the way through if and only if no clear of it is untimely. */
  lemma SignalledThroughoutIff(c: Config, steps: seq<Step>)
    ensures (forall k :: 0 <= k <= |steps| ==> SignalledAt(c, steps, k))
       <==> (forall k :: 0 <= k < |steps| ==> TimelyAt(c, steps, k))
  {
    hide SignalledAt, TimelyAt;
    if forall k :: 0 <= k < |steps| ==> TimelyAt(c, steps, k) {
      SignalledUpTo(c, steps, |steps|);
    } else {
      var k :| 0 <= k < |steps| && !TimelyAt(c, steps, k);
      if SignalledAt(c, steps, k) {
        SignalledNext(c, steps, k);
      }
    }
  }

  /** A clear is one of the count reaching the threshold exactly when that many senders counted between the
      receiver's second look at the counter, which found zero, and the clear. */
  lemma {:induction false} LostBetweenIff(c: Config, s: Buffer, steps: seq<Step>)
    requires s.rx.Clearing? && forall k :: 0 <= k < |steps| ==> !steps[k].ClearFlag?
    ensures var t := RunFrom(c, s, steps);
            && t.rx == s.rx && t.spill == s.spill + Counts(c, s, steps) && Enabled(c, t, ClearFlag)
            && !Apply(c, t, ClearFlag).overloaded
            && (s.spill == 0 ==> (Pressing(c, Apply(c, t, ClearFlag)) <==> Counts(c, s, steps) >= Max(1, c.threshold)))
    decreases |steps|
  {
    if steps != [] {
      LostBetweenIff(c, Attempt(c, s, steps[0]), steps[1..]);
    }
  }

  /** Senders are blocked with the count at the threshold and the channel full, nobody has given up, and the flag is
      down. */
  ghost predicate Lost(c: Config, s: Buffer) {
    && Pressing(c, s) && !s.overloaded && !Raising(s) && s.abandoned == 0 && |s.queue| == c.capacity
    && exists i :: i in s.tx && s.tx[i].Blocked?
  }

  lemma LoseFlag(c: Config) returns (t: Buffer)
    requires c.capacity >= 1
    ensures Reaches(c, Start(), t) && Lost(c, t)
  {
    hide RunFrom, Reaches, Lined;
    var n := Max(1, c.threshold);
    StartLined();
    var s1 := FillChannel(c, Start(), 0);
    SameLine(Start(), s1, 0, 0);
    var s2 := CountersLineUp(c, s1, n);
    ReachesOn(c, Start(), s1, s2);
    var s3 := ReachClearing(c, s2);
    ReachesOn(c, Start(), s2, s3);
    SameLine(s2, s3, 0, n);
    var s4 := FillChannel(c, s3, n);
    ReachesOn(c, Start(), s3, s4);
    SameLine(s3, s4, 0, n);
    var s5 := CountAll(c, s4, 0, n);
    ReachesOn(c, Start(), s4, s5);
    ReachesNext(c, Start(), s5, ClearFlag);
    t := Apply(c, s5, ClearFlag);
    SameLine(s5, t, n, n);
    AllBlocked(t, n);
  }

  lemma AllBlocked(s: Buffer, n: nat)
    requires Lined(s, n, n) && n >= 1
    ensures !Raising(s) && exists i :: i in s.tx && s.tx[i].Blocked?
  {
    assert TxOf(s, 0) == Place(0, n, n);
    forall i | i in s.tx
      ensures !s.tx[i].Flagging?
    {
      assert TxOf(s, i) == Place(i, n, n);
    }
  }

  /** The flag can be lost under pressure exactly in configurations whose channel has room. */
  lemma FlagLostIff(c: Config)
    ensures (exists steps :: Lost(c, Run(c, steps))) <==> c.capacity >= 1
  {
    hide RunFrom, Lost;
    if c.capacity >= 1 {
      var t := LoseFlag(c);
      var steps :| RunFrom(c, Start(), steps) == t;
      assert Lost(c, Run(c, steps));
    } else {
      forall steps
        ensures !Lost(c, Run(c, steps))
      {
        NoRoomSignals(c, steps);
      }
    }
  }

  lemma NoRoomSignals(c: Config, steps: seq<Step>)
    requires c.capacity == 0
    ensures !Lost(c, Run(c, steps))
  {
    hide RunFrom;
    assert Counted(Start()) == {};
    forall k | 0 <= k < |steps|
      ensures TimelyAt(c, steps, k)
    {
      NoRoomRun(c, Start(), steps[..k]);
    }
    SignalledUpTo(c, steps, |steps|);
    assert steps[..|steps|] == steps;
    assert SignalledAt(c, steps, |steps|);
  }
}
