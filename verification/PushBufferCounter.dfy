/** How the spill counter moves: what a call of `next_batch` takes off it, whatever the senders do meanwhile. */
module PushBufferCounter {
  import opened Naturals
  import opened PushBuffer

  // ── Nothing counted is forgotten ─────────────────────────────────────────

  /** Events received in batches that have been set against the counter. */
  function SetAgainst(s: Buffer): (n: nat) {
    |Flatten(s.delivered)| + if s.rx.Reloading? || s.rx.Clearing? then |s.rx.batch| else 0
  }

  lemma StepRemembers(c: Config, s: Buffer, step: Step)
    requires Enabled(c, s, step)
    ensures var s', added := Apply(c, s, step), if step.FetchAdd? then 1 else 0;
            && s'.spill + SetAgainst(s') >= s.spill + SetAgainst(s) + added
            && s'.spill <= s.spill + added
            && (step.FetchSub? || s'.spill == s.spill + added)
  {
    hide Flatten;
    FlattenReturn(s.delivered, []);
    FlattenReturn(s.delivered, Batch(s.rx));
  }

  lemma {:induction false} RunRemembers(c: Config, s: Buffer, steps: seq<Step>)
    ensures var s' := RunFrom(c, s, steps);
            && s'.spill + SetAgainst(s') >= s.spill + SetAgainst(s) + Counts(c, s, steps)
            && s'.spill <= s.spill + Counts(c, s, steps)
    decreases |steps|
  {
    hide Apply, Enabled, SetAgainst;
    if steps != [] {
      if Enabled(c, s, steps[0]) {
        StepRemembers(c, s, steps[0]);
      }
      RunRemembers(c, Attempt(c, s, steps[0]), steps[1..]);
    }
  }

  /** Over every schedule, the counter falls by no more than what was received: it is at most the number of sends that
      counted, and together with the events already set against it at least that number. */
  lemma CountsRemembered(c: Config, steps: seq<Step>)
    ensures var s := Run(c, steps);
            s.spill <= Counts(c, Start(), steps) <= s.spill + SetAgainst(s)
  {
    RunRemembers(c, Start(), steps);
  }

  // ── What one call takes off ──────────────────────────────────────────────

  /** A call that loaded the count `n` with the batch `b` in hand, after the returns `d`; `added` sends have counted
      since. Up to and after its return, until the next call takes something off in turn. */
  predicate TakesOff(n: nat, b: seq<Item>, d: seq<seq<Item>>, added: nat, u: Buffer) {
    var left := n + added - Min(n, |b|);
    && (u.delivered == d ==>
          || (u.rx == Subtracting(b, n) && u.spill == n + added)
          || ((u.rx == Reloading(b) || u.rx == Clearing(b)) && u.spill == left))
    && (u.delivered == d + [b] && !u.rx.Reloading? && !u.rx.Clearing? ==> u.spill == left)
  }

  lemma StepTakesOff(c: Config, n: nat, b: seq<Item>, d: seq<seq<Item>>, added: nat, u: Buffer, step: Step)
    requires TakesOff(n, b, d, added, u) && Enabled(c, u, step) && d <= u.delivered
    ensures d <= Apply(c, u, step).delivered
    ensures TakesOff(n, b, d, added + if step.FetchAdd? then 1 else 0, Apply(c, u, step))
  {
  }

  lemma {:induction false} RunTakesOff(c: Config, n: nat, b: seq<Item>, d: seq<seq<Item>>, added: nat, u: Buffer,
                                       steps: seq<Step>)
    requires TakesOff(n, b, d, added, u) && d <= u.delivered
    ensures TakesOff(n, b, d, added + Counts(c, u, steps), RunFrom(c, u, steps))
    decreases |steps|
  {
    hide Apply, Enabled, TakesOff;
    if steps != [] {
      var first := if steps[0].FetchAdd? && Enabled(c, u, steps[0]) then 1 else 0;
      if Enabled(c, u, steps[0]) {
        StepTakesOff(c, n, b, d, added, u, steps[0]);
      }
      RunTakesOff(c, n, b, d, added + first, Attempt(c, u, steps[0]), steps[1..]);
    }
  }

  /** From the moment a call loads the counter, over every schedule: while it goes on the count is what it loaded plus
      the sends that counted since, less, once it has subtracted, the smaller of that load and its batch. So it is at
      its return. */
  lemma CallTakesOff(c: Config, s: Buffer, steps: seq<Step>)
    requires s.rx.Loading? && s.spill >= 0
    ensures TakesOff(s.spill, s.rx.batch, s.delivered, Counts(c, s, [Load] + steps), RunFrom(c, s, [Load] + steps))
  {
    hide RunFrom, Counts;
    var u := Apply(c, s, Load);
    RunFromConcat(c, s, [Load], steps);
    RunAttempt(c, s, Load);
    CountsAfter(c, s, Load, steps);
    RunTakesOff(c, s.spill, s.rx.batch, s.delivered, 0, u, steps);
  }

  lemma CountsAfter(c: Config, s: Buffer, a: Step, steps: seq<Step>)
    ensures Counts(c, s, [a] + steps)
         == (if a.FetchAdd? && Enabled(c, s, a) then 1 else 0) + Counts(c, Attempt(c, s, a), steps)
  {
    assert ([a] + steps)[1..] == steps;
  }

  /** So the call's second load finds zero, and the flag will be cleared, exactly when nobody counted since its first
      and the batch covers the count it found then. */
  lemma ClearsIff(c: Config, s: Buffer, steps: seq<Step>)
    requires s.rx.Loading? && s.spill >= 0
    requires var t := RunFrom(c, s, [Load] + steps); t.rx.Reloading? && t.delivered == s.delivered
    ensures Apply(c, RunFrom(c, s, [Load] + steps), Reload).rx.Clearing?
       <==> Counts(c, s, [Load] + steps) == 0 && s.spill <= |s.rx.batch|
  {
    CallTakesOff(c, s, steps);
    hide RunFrom, Counts;
  }
}
