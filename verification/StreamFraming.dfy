/** Reassembly of length-prefixed frames from one WebTransport stream.

    The QUIC event handler feeds fragments of any size; one worker task loops over `_read_len_prefixed`.
    Both run on one event loop, so everything between two awaits is a single step. */
module StreamFraming {
  import opened Bytes
  import opened LengthPrefix

  const MAX_FRAME := 0x100_0000 // 16 MiB

  // ── The protocol, one step per await ─────────────────────────────────────

  /** Which `read_exact` the reader is in. */
  datatype Want = Length | Body(len: nat)

  datatype Outcome = Running | EofError | TooLarge(len: nat)

  datatype Stream = Stream(
    buffer: Bytes, closed: bool, event: bool,      // the stream buffer's three fields
    want: Want, parked: bool, outcome: Outcome,    // the reader: what it wants, whether it awaits the event
    frames: seq<Bytes>,                            // frames returned so far
    fed: Bytes, consumed: Bytes)                   // every byte fed, every byte taken out

  function Start(): (s: Stream) {
    Stream([], false, false, Length, false, Running, [], [], [])
  }

  function Need(s: Stream): (n: nat) {
    if s.want.Length? then 4 else s.want.len
  }

  function Feed(s: Stream, data: Bytes, ended: bool): (s': Stream) {
    s.(buffer := s.buffer + data, closed := s.closed || ended, event := true, fed := s.fed + data)
  }

  /** One turn of the `while` in `read_exact`, and what follows it when the bytes are there. */
  function Check(s: Stream): (s': Stream) {
    var n := Need(s);
    if |s.buffer| < n then
      if s.closed then s.(outcome := EofError) else s.(event := false, parked := true)
    else
      var out := s.buffer[..n];
      var t := s.(buffer := s.buffer[n..], consumed := s.consumed + out);
      if s.want.Body? then t.(frames := s.frames + [out], want := Length)
      else if FromLE(out) > MAX_FRAME then t.(outcome := TooLarge(FromLE(out)))
      else t.(want := Body(FromLE(out)))
  }

  datatype Step = Fed(data: Bytes, ended: bool) | Checked | Woken

  predicate Enabled(s: Stream, step: Step) {
    match step
    case Fed(_, _) => true
    case Checked => s.outcome.Running? && !s.parked
    case Woken => s.parked && s.event
  }

  function Apply(s: Stream, step: Step): (s': Stream)
    requires Enabled(s, step)
  {
    match step
    case Fed(data, ended) => Feed(s, data, ended)
    case Checked => Check(s)
    case Woken => s.(parked := false)
  }

  /** The state after a schedule of steps, each skipped when it is not enabled. */
  function Run(steps: seq<Step>): (s: Stream) {
    if steps == [] then Start()
    else
      var s, step := Run(steps[..|steps| - 1]), steps[|steps| - 1];
      if Enabled(s, step) then Apply(s, step) else s
  }

  // ── Invariant ────────────────────────────────────────────────────────────

  /** The length already taken out for a frame whose body has not been. */
  function Dangling(s: Stream): (b: Bytes) {
    if s.outcome.TooLarge? then ToLE(s.outcome.len, 4)
    else if s.want.Body? then ToLE(s.want.len, 4)
    else []
  }

  ghost predicate Inv(s: Stream) {
    && s.fed == s.consumed + s.buffer
    && s.consumed == PackAll(s.frames) + Dangling(s)
    && AllShorter(s.frames, MAX_FRAME + 1)
    && (s.want.Body? ==> s.want.len <= MAX_FRAME)
    && (s.outcome.TooLarge? ==> s.want.Length? && MAX_FRAME < s.outcome.len < U32)
    && (s.outcome.EofError? ==> s.closed)
    && (s.parked ==> s.outcome.Running?)
    && (s.parked && !s.event ==> |s.buffer| < Need(s) && !s.closed)
  }

  lemma CheckKeepsInv(s: Stream)
    requires Inv(s) && s.outcome.Running? && !s.parked
    ensures Inv(Check(s))
  {
    hide FromLE, ToLE, PackAll;
    if |s.buffer| < Need(s) {
      assert Dangling(Check(s)) == Dangling(s);
    } else {
      TakeConserves(s.consumed, s.buffer, Need(s));
      if s.want.Body? {
        BodyTaken(s);
      } else {
        LengthTaken(s);
      }
    }
  }

  lemma TakeConserves(consumed: Bytes, buffer: Bytes, n: nat)
    requires n <= |buffer|
    ensures (consumed + buffer[..n]) + buffer[n..] == consumed + buffer
  {
  }

  lemma BodyTaken(s: Stream)
    requires Inv(s) && s.outcome.Running? && s.want.Body? && |s.buffer| >= s.want.len
    ensures var s' := Check(s); s'.consumed == PackAll(s'.frames) + Dangling(s')
  {
    hide FromLE, ToLE, PackAll;
    var out, s' := s.buffer[..s.want.len], Check(s);
    PackAllAppend(s.frames, out);
    assert s'.consumed == PackAll(s.frames) + Pack(out);
    assert s'.consumed == PackAll(s'.frames) + Dangling(s');
  }

  lemma LengthTaken(s: Stream)
    requires Inv(s) && s.outcome.Running? && s.want.Length? && |s.buffer| >= 4
    ensures var s' := Check(s);
            && s'.consumed == PackAll(s'.frames) + Dangling(s')
            && FromLE(s.buffer[..4]) < U32
  {
    hide FromLE, ToLE, PackAll;
    var out, s' := s.buffer[..4], Check(s);
    WidthConstants();
    FromLEBound(out);
    ToFromLE(out);
    assert s'.consumed == PackAll(s.frames) + out;
  }

  lemma {:induction false} RunKeepsInv(steps: seq<Step>)
    ensures Inv(Run(steps))
  {
    if steps != [] {
      var s, step := Run(steps[..|steps| - 1]), steps[|steps| - 1];
      RunKeepsInv(steps[..|steps| - 1]);
      if Enabled(s, step) && step.Checked? {
        CheckKeepsInv(s);
      } else if Enabled(s, step) && step.Fed? {
        assert s.fed + step.data == s.consumed + (s.buffer + step.data);
      }
    }
  }

  // ── Over every schedule of feeds and reads ───────────────────────────────

  /** Nothing is lost or invented between the feeds and the frames. */
  lemma BytesConserved(steps: seq<Step>)
    ensures var s := Run(steps);
            && s.fed == s.consumed + s.buffer
            && s.consumed == PackAll(s.frames) + Dangling(s)
  {
    RunKeepsInv(steps);
  }

  /** While the bytes fed begin a sequence of frames within the limit, the frames returned are the first of
      those, and the size limit is never hit. */
  lemma FramesArePrefix(steps: seq<Step>, written: seq<Bytes>)
    requires AllShorter(written, MAX_FRAME + 1)
    requires Run(steps).fed <= PackAll(written)
    ensures Run(steps).frames <= written
    ensures !Run(steps).outcome.TooLarge?
  {
    hide FromLE, ToLE, Pack, PackAll, Run;
    var s := Run(steps);
    RunKeepsInv(steps);
    var rest := Dangling(s) + s.buffer;
    assert PackAll(s.frames) + rest == s.fed;
    PackAllPrefix(s.frames, rest, written);
    if s.outcome.TooLarge? {
      OversizeNotWritten(s.outcome.len, s.buffer, written[|s.frames|..]);
    }
  }

  lemma OversizeNotWritten(len: nat, rest: Bytes, written: seq<Bytes>)
    requires MAX_FRAME < len < U32 && AllShorter(written, MAX_FRAME + 1)
    ensures !(ToLE(len, 4) + rest <= PackAll(written))
  {
    hide FromLE, ToLE, Pack;
    WidthConstants();
    FromToLE(len, 4);
    var w := ToLE(len, 4) + rest;
    assert w[..4] == ToLE(len, 4);
    if written != [] {
      PackReads(written[0], PackAll(written[1..]));
      PrefixAgrees(w, PackAll(written));
    }
  }

  lemma PrefixAgrees(a: Bytes, b: Bytes)
    requires |a| >= 4 && |b| >= 4
    ensures a <= b ==> a[..4] == b[..4]
  {
  }

  /** A reader short of bytes has no whole frame in front of it. */
  lemma StarvedHasNoFrame(s: Stream, item: Bytes, tail: Bytes)
    requires Inv(s) && s.outcome.Running? && |s.buffer| < Need(s) && |item| < U32
    ensures Dangling(s) + s.buffer != Pack(item) + tail
  {
    hide FromLE, ToLE;
    var rest := Dangling(s) + s.buffer;
    PackReads(item, tail);
    if s.want.Body? {
      WidthConstants();
      FromToLE(s.want.len, 4);
      assert rest[..4] == ToLE(s.want.len, 4);
    }
  }

  /** The reader waits, or gives up at end of stream, only when it has returned everything that was fed. */
  lemma StarvedHasAll(steps: seq<Step>, written: seq<Bytes>)
    requires AllShorter(written, MAX_FRAME + 1)
    requires Run(steps).fed == PackAll(written)
    requires Run(steps).outcome.Running? && |Run(steps).buffer| < Need(Run(steps))
    ensures Run(steps).frames == written && Run(steps).want.Length?
  {
    hide FromLE, ToLE, Pack, Run;
    var s := Run(steps);
    RunKeepsInv(steps);
    var rest := Dangling(s) + s.buffer;
    assert PackAll(s.frames) + rest == PackAll(written) + [];
    FramesArePrefix(steps, written);
    PackAllUnique(s.frames, rest, written, []);
    var left := written[|s.frames|..];
    if left != [] {
      assert PackAll(left) + [] == PackAll(left);
      StarvedHasNoFrame(s, left[0], PackAll(left[1..]));
    }
  }

  /** Everything the schedule feeds. */
  function Sent(steps: seq<Step>): (b: Bytes) {
    if steps == [] then []
    else
      var step := steps[|steps| - 1];
      Sent(steps[..|steps| - 1]) + if step.Fed? then step.data else []
  }

  /** Every feed counts, at whatever point it comes: all its bytes arrive, and the stream is closed exactly once some
      feed ended it. */
  lemma {:induction false} EveryFeedArrives(steps: seq<Step>)
    ensures Run(steps).fed == Sent(steps)
    ensures Run(steps).closed <==> exists k :: 0 <= k < |steps| && steps[k].Fed? && steps[k].ended
  {
    if steps != [] {
      var init, last := steps[..|steps| - 1], |steps| - 1;
      EveryFeedArrives(init);
      if k :| 0 <= k < |init| && init[k].Fed? && init[k].ended {
        assert steps[k].Fed? && steps[k].ended;
      }
    }
  }

  /** A reader that finds too few bytes on an open stream sleeps until the next feed: it can take no step of its own
      before that. */
  lemma {:induction false} SleepsUntilFed(steps: seq<Step>, more: seq<Step>)
    requires var s := Run(steps); s.outcome.Running? && !s.parked && !s.closed && |s.buffer| < Need(s)
    requires ReaderOnly(more)
    ensures var s := Run(steps + [Checked] + more);
            s == Run(steps + [Checked]) && !Enabled(s, Checked) && !Enabled(s, Woken)
    decreases |more|
  {
    hide Run;
    RunOne(steps, Checked);
    if more == [] {
      assert steps + [Checked] + [] == steps + [Checked];
    } else {
      var init, step := more[..|more| - 1], more[|more| - 1];
      SleepsUntilFed(steps, init);
      assert steps + [Checked] + more == (steps + [Checked] + init) + [step];
      RunOne(steps + [Checked] + init, step);
    }
  }

  /** No wake-up is lost: a reader that is parked and will not be woken lacks bytes on an open stream. */
  lemma {:induction false} NoLostWakeup(steps: seq<Step>)
    ensures var s := Run(steps);
            s.parked && (|s.buffer| >= Need(s) || s.closed) ==> Enabled(s, Woken)
  {
    RunKeepsInv(steps);
  }

  /** End of file is raised exactly at a check that finds the stream closed with too few bytes left. */
  lemma EofExactly(steps: seq<Step>, step: Step)
    requires Run(steps).outcome.Running?
    ensures var s := Run(steps);
            Run(steps + [step]).outcome.EofError? <==>
            step.Checked? && !s.parked && s.closed && |s.fed| - |s.consumed| < Need(s)
  {
    assert (steps + [step])[..|steps|] == steps;
    RunKeepsInv(steps);
  }

  /** What has been returned when the reader starves depends on the bytes fed alone, well formed or not:
      not on how they were fragmented, nor on how feeds and reads interleaved. */
  lemma FragmentationIndependent(steps: seq<Step>, steps': seq<Step>)
    requires var s, s' := Run(steps), Run(steps');
             && s.fed == s'.fed && s.outcome.Running? && s'.outcome.Running?
             && |s.buffer| < Need(s) && |s'.buffer| < Need(s')
    ensures Run(steps).frames == Run(steps').frames
    ensures Run(steps).want == Run(steps').want && Run(steps).buffer == Run(steps').buffer
  {
    hide *;
    var s, s' := Run(steps), Run(steps');
    RunKeepsInv(steps);
    RunKeepsInv(steps');
    if |s.frames| <= |s'.frames| {
      SameReading(s, s');
    } else {
      SameReading(s', s);
    }
  }

  lemma SameReading(s: Stream, s': Stream)
    requires Inv(s) && Inv(s') && s.fed == s'.fed && s.outcome.Running? && s'.outcome.Running?
    requires |s.buffer| < Need(s) && |s'.buffer| < Need(s') && |s.frames| <= |s'.frames|
    ensures s.frames == s'.frames && s.want == s'.want && s.buffer == s'.buffer
  {
    hide FromLE, ToLE, Pack, PackAll, Need;
    var rest, rest' := Dangling(s) + s.buffer, Dangling(s') + s'.buffer;
    assert s.fed == PackAll(s.frames) + rest;
    assert s'.fed == PackAll(s'.frames) + rest';
    PackAllUnique(s.frames, rest, s'.frames, rest');
    var left := s'.frames[|s.frames|..];
    if left != [] {
      PackAllFirst(left, rest');
      StarvedHasNoFrame(s, left[0], PackAll(left[1..]) + rest');
    } else {
      PackAllFirst(left, rest');
      SameRest(s, s');
    }
  }

  lemma PackAllFirst(items: seq<Bytes>, rest: Bytes)
    ensures PackAll(items) + rest == if items == [] then rest else Pack(items[0]) + (PackAll(items[1..]) + rest)
  {
  }

  lemma SameRest(s: Stream, s': Stream)
    requires Inv(s) && Inv(s') && s.outcome.Running? && s'.outcome.Running?
    requires |s.buffer| < Need(s) && |s'.buffer| < Need(s')
    requires Dangling(s) + s.buffer == Dangling(s') + s'.buffer
    ensures s.want == s'.want && s.buffer == s'.buffer
  {
    hide FromLE, ToLE, PackAll;
    assert s.want.Length? ==> Dangling(s) + s.buffer == s.buffer;
    assert s'.want.Length? ==> Dangling(s') + s'.buffer == s'.buffer;
    if s.want.Body? && s'.want.Body? {
      var rest := Dangling(s) + s.buffer;
      WidthConstants();
      FromToLE(s.want.len, 4);
      FromToLE(s'.want.len, 4);
      assert rest[..4] == ToLE(s.want.len, 4) == ToLE(s'.want.len, 4);
      assert rest[4..] == s.buffer == s'.buffer;
    }
  }

  // ── The reader catches up ────────────────────────────────────────────────

  /** What the reader still has to do with the bytes it has. */
  function Backlog(s: Stream): (n: nat) {
    2 * |s.buffer| + if s.want.Body? then 1 else 0
  }

  ghost predicate ReaderOnly(steps: seq<Step>) {
    forall k :: 0 <= k < |steps| ==> !steps[k].Fed?
  }

  lemma RunOne(steps: seq<Step>, step: Step)
    ensures Run(steps + [step]) == var s := Run(steps); if Enabled(s, step) then Apply(s, step) else s
  {
    assert (steps + [step])[..|steps|] == steps;
  }

  /** From every reachable state in which the reader has not failed, its own steps take it to where it starves or
      refuses a frame: it never stops short. */
  lemma {:induction false} ReaderCatchesUp(steps: seq<Step>) returns (more: seq<Step>)
    requires Run(steps).outcome.Running?
    ensures ReaderOnly(more) && Run(steps + more).fed == Run(steps).fed
    ensures var s := Run(steps + more);
            s.outcome.TooLarge? || (s.outcome.Running? && |s.buffer| < Need(s))
    decreases Backlog(Run(steps)), Run(steps).parked
  {
    hide Run, FromLE, PackAll;
    RunKeepsInv(steps);
    var s := Run(steps);
    if |s.buffer| < Need(s) {
      more := [];
      assert steps + [] == steps;
    } else {
      var step := if s.parked then Woken else Checked;
      RunOne(steps, step);
      var s' := Run(steps + [step]);
      if s'.outcome.Running? {
        more := ReaderCatchesUp(steps + [step]);
        assert steps + ([step] + more) == steps + [step] + more;
      } else {
        more := [];
        assert steps + ([step] + []) == steps + [step];
      }
      more := [step] + more;
    }
  }

  /** So whenever whole frames within the limit have been fed, the reader can return all of them, without another
      byte. */
  lemma AllFramesReturned(steps: seq<Step>, written: seq<Bytes>) returns (more: seq<Step>)
    requires AllShorter(written, MAX_FRAME + 1) && Run(steps).fed == PackAll(written)
    requires Run(steps).outcome.Running?
    ensures ReaderOnly(more) && Run(steps + more).frames == written && Run(steps + more).outcome.Running?
  {
    hide Run, PackAll;
    more := ReaderCatchesUp(steps);
    FramesArePrefix(steps + more, written);
    StarvedHasAll(steps + more, written);
  }

  /** The limit at its edge: a frame of 16777216 bytes is returned, and of one byte more only the length is read. */
  lemma LimitAtTheEdge(body: Bytes) returns (more: seq<Step>)
    requires |body| == 16777216 || |body| == 16777217
    ensures var s := Run([Fed(Pack(body), false)] + more);
            && ReaderOnly(more)
            && if |body| == 16777216 then s.frames == [body] && s.outcome.Running?
               else s.frames == [] && s.outcome == TooLarge(16777217)
  {
    hide Run, Pack, PackAll, FromLE;
    var fed, start := [Fed(Pack(body), false)], Start();
    assert [] + fed == fed;
    RunNothing();
    RunOne([], fed[0]);
    var s := Run(fed);
    PackOne(body);
    if |body| == 16777216 {
      more := AllFramesReturned(fed, [body]);
    } else {
      PackReads(body, []);
      assert Pack(body) + [] == Pack(body) && [] + Pack(body) == Pack(body);
      RunOne(fed, Checked);
      more := [Checked];
    }
  }

  lemma RunNothing()
    ensures Run([]) == Start()
  {
  }

  lemma PackOne(body: Bytes)
    ensures PackAll([body]) == Pack(body) == [] + Pack(body)
  {
    assert [body][1..] == [];
    assert PackAll([]) == [];
  }

  // ── The stream buffer itself ─────────────────────────────────────────────

  /** One call of `feed` that arrives while the reader awaits. */
  datatype Arrival = Arrival(data: Bytes, ended: bool)

  datatype ReadResult = Got(bytes: Bytes) | Eof | Oversize(len: nat) | Waiting

  function Arrived(arrivals: seq<Arrival>): (b: Bytes) {
    if arrivals == [] then [] else Arrived(arrivals[..|arrivals| - 1]) + arrivals[|arrivals| - 1].data
  }

  ghost predicate NoWholeFrame(b: Bytes) {
    forall f: Bytes, t: Bytes :: |f| < U32 ==> b != Pack(f) + t
  }

  class WtStreamBuffer {
    var buffer: Bytes
    var closed: bool
    var event: bool

    constructor ()
      ensures buffer == [] && !closed && !event
    {
      buffer, closed, event := [], false, false;
    }

    method Feed(data: Bytes, ended: bool)
      modifies this
      ensures buffer == old(buffer) + data && closed == (old(closed) || ended) && event
    {
      if data != [] {
        buffer := buffer + data;
      }
      if ended {
        closed := true;
      }
      event := true;
    }

    /** `arrivals` is what the event loop delivers, in order, while this call awaits; `used` of it was needed. */
    method ReadExact(n: nat, arrivals: seq<Arrival>) returns (r: ReadResult, used: nat)
      modifies this
      ensures !r.Oversize? && used <= |arrivals|
      ensures r.Got? ==> |r.bytes| == n && r.bytes + buffer == old(buffer) + Arrived(arrivals[..used])
      ensures !r.Got? ==> |buffer| < n && buffer == old(buffer) + Arrived(arrivals[..used])
      ensures r.Eof? ==> closed
      ensures r.Waiting? ==> used == |arrivals| && !closed && !event
      ensures used > 0 ==> |old(buffer) + Arrived(arrivals[..used - 1])| < n
    {
      used := 0;
      while |buffer| < n
        invariant 0 <= used <= |arrivals|
        invariant buffer == old(buffer) + Arrived(arrivals[..used])
        invariant used > 0 ==> |old(buffer) + Arrived(arrivals[..used - 1])| < n
        decreases |arrivals| - used
      {
        if closed {
          return Eof, used;
        }
        event := false;
        if used == |arrivals| {
          return Waiting, used;
        }
        assert arrivals[..used + 1][..used] == arrivals[..used];
        Feed(arrivals[used].data, arrivals[used].ended);
        used := used + 1;
      }
      r := Got(buffer[..n]);
      buffer := buffer[n..];
    }

    /** What a call returns is the first frame of the bytes that arrived, and it waits for no more than that. */
    method ReadLenPrefixed(arrivals: seq<Arrival>) returns (r: ReadResult, used: nat)
      modifies this
      ensures used <= |arrivals|
      ensures var total := old(buffer) + Arrived(arrivals[..used]);
              && (r.Got? ==> total == Pack(r.bytes) + buffer && |r.bytes| <= MAX_FRAME)
              && (r.Oversize? ==> total == ToLE(r.len, 4) + buffer && MAX_FRAME < r.len < U32)
              && (r.Eof? || r.Waiting? ==> NoWholeFrame(total))
      ensures r.Eof? ==> closed
      ensures r.Waiting? ==> used == |arrivals| && !closed && !event
    {
      hide FromLE, ToLE, Arrived, NoWholeFrame;
      ghost var start := buffer;
      var head, used0 := ReadExact(4, arrivals);
      if !head.Got? {
        TruncatedLength(buffer);
        return head, used0;
      }
      ghost var afterHead := buffer;
      var length := FromLE(head.bytes);
      WidthConstants();
      FromLEBound(head.bytes);
      ToFromLE(head.bytes);
      if length > MAX_FRAME {
        return Oversize(length), used0;
      }
      var body, used1 := ReadExact(length, arrivals[used0..]);
      used := used0 + used1;
      ghost var second := arrivals[used0..][..used1];
      ArrivedSplit(start, arrivals, used0, used1);
      assert start + Arrived(arrivals[..used]) == head.bytes + (afterHead + Arrived(second));
      if !body.Got? {
        TruncatedBody(length, buffer);
      }
      return body, used;
    }
  }

  lemma {:induction false} ArrivedConcat(a: seq<Arrival>, b: seq<Arrival>)
    ensures Arrived(a + b) == Arrived(a) + Arrived(b)
  {
    if b == [] {
      assert a + b == a;
    } else {
      var b' := b[..|b| - 1];
      assert (a + b)[..|a + b| - 1] == a + b' && (a + b)[|a + b| - 1] == b[|b| - 1];
      ArrivedConcat(a, b');
    }
  }

  lemma ArrivedSplit(start: Bytes, arrivals: seq<Arrival>, i: nat, j: nat)
    requires i + j <= |arrivals|
    ensures start + Arrived(arrivals[..i + j]) == (start + Arrived(arrivals[..i])) + Arrived(arrivals[i..][..j])
  {
    hide Arrived;
    assert arrivals[..i + j] == arrivals[..i] + arrivals[i..][..j];
    ArrivedConcat(arrivals[..i], arrivals[i..][..j]);
  }

  lemma TruncatedLength(b: Bytes)
    requires |b| < 4
    ensures NoWholeFrame(b)
  {
  }

  lemma TruncatedBody(len: nat, rest: Bytes)
    requires |rest| < len < U32
    ensures NoWholeFrame(ToLE(len, 4) + rest)
  {
    hide FromLE, ToLE;
    var b := ToLE(len, 4) + rest;
    WidthConstants();
    FromToLE(len, 4);
    assert b[..4] == ToLE(len, 4);
    forall f: Bytes, t: Bytes | |f| < U32
      ensures b != Pack(f) + t
    {
      PackReads(f, t);
    }
  }
}
