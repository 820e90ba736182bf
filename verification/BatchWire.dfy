/** Batch requests on the wire: `[8B batch id][4B event count][per event: 4B length, bytes][4B CRC-32]`,
    little-endian throughout. The engine writes them; the Node SDK checks and reads them. */
module BatchWire {
  import opened Bytes
  import opened Crc32
  import opened LengthPrefix

  datatype Decoded =
    | Accepted(batchId: nat, events: seq<Bytes>)
    | TooShort
    | CrcMismatch
    | UnexpectedEnd(event: nat)
    | EventBeyondBatch(event: nat)

  // ── Writing ──────────────────────────────────────────────────────────────

  function Header(batchId: nat, count: nat): (b: Bytes)
    ensures |b| == 12
  {
    ToLE(batchId, 8) + ToLE(count, 4)
  }

  function Seal(payload: Bytes): (frame: Bytes) {
    payload + ToLE(Checksum(payload), 4)
  }

  function EncodeRequest(batchId: nat, events: seq<Bytes>): (frame: Bytes) {
    Seal(Header(batchId, |events|) + PackAll(events))
  }

  method SerializeBatchRequest(table: array<int>, batchId: nat, events: seq<Bytes>) returns (buf: Bytes)
    requires table.Length == 256 && Filled(table[..], 256)
    ensures buf == EncodeRequest(batchId, events)
  {
    hide ToLE, Checksum, Filled;
    buf := ToLE(batchId, 8) + ToLE(|events|, 4);
    var i := 0;
    while i < |events|
      invariant 0 <= i <= |events|
      invariant buf == Header(batchId, |events|) + PackAll(events[..i])
    {
      assert events[..i + 1] == events[..i] + [events[i]];
      PackAllAppend(events[..i], events[i]);
      buf := buf + ToLE(|events[i]|, 4) + events[i];
      i := i + 1;
    }
    assert events[..i] == events;
    var crc := Crc32.Crc32(table, buf);
    buf := buf + ToLE(crc, 4);
  }

  // ── Reading ──────────────────────────────────────────────────────────────

  /** Read events `i` to `n - 1` from the front of `rest`, putting them behind `done`. */
  function ParseEvents(batchId: nat, done: seq<Bytes>, rest: Bytes, n: nat): (d: Decoded)
    requires |done| <= n
    decreases n - |done|
  {
    var i := |done|;
    if i == n then Accepted(batchId, done)
    else if |rest| < 4 then UnexpectedEnd(i)
    else
      var len := FromLE(rest[..4]);
      if 4 + len > |rest| then EventBeyondBatch(i)
      else ParseEvents(batchId, done + [rest[4..4 + len]], rest[4 + len..], n)
  }

  function Decode(data: Bytes): (d: Decoded) {
    if |data| < 16 then TooShort
    else
      var end := |data| - 4;
      if FromLE(data[end..]) != Checksum(data[..end]) then CrcMismatch
      else ParseEvents(FromLE(data[..8]), [], data[12..end], FromLE(data[8..12]))
  }

  lemma SubSlice(s: Bytes, a: nat, b: nat, i: nat, j: nat)
    requires i <= j && a + j <= b <= |s|
    ensures s[a..b][i..j] == s[a + i..a + j]
  {
    var x, y := s[a..b][i..j], s[a + i..a + j];
    assert forall k :: 0 <= k < j - i ==> x[k] == y[k];
    assert x == y;
  }

  /** The decoder as written: an offset walking the frame. */
  method DecodeBatchRequest(table: array<int>, data: Bytes) returns (d: Decoded)
    requires table.Length == 256 && Filled(table[..], 256)
    ensures d == Decode(data)
  {
    hide FromLE, Checksum;
    if |data| < 16 {
      return TooShort;
    }
    var batchId := FromLE(data[..8]);
    var eventCount := FromLE(data[8..12]);
    var payloadEnd := |data| - 4;
    var expectedCrc := FromLE(data[payloadEnd..]);
    var actualCrc := Crc32.Crc32(table, data[..payloadEnd]);
    if expectedCrc != actualCrc {
      return CrcMismatch;
    }
    var events: seq<Bytes> := [];
    var offset := 12;
    var i := 0;
    while i < eventCount
      invariant 0 <= i <= eventCount && |events| == i
      invariant 12 <= offset <= payloadEnd
      invariant Decode(data) == ParseEvents(batchId, events, data[offset..payloadEnd], eventCount)
    {
      ghost var start, rest := offset, data[offset..payloadEnd];
      if offset + 4 > payloadEnd {
        return UnexpectedEnd(i);
      }
      assert data[offset..offset + 4] == rest[..4];
      var eventLen := FromLE(data[offset..offset + 4]);
      offset := offset + 4;
      if offset + eventLen > payloadEnd {
        return EventBeyondBatch(i);
      }
      assert data[offset..offset + eventLen] == rest[4..4 + eventLen] by {
        SubSlice(data, start, payloadEnd, 4, 4 + eventLen);
      }
      assert data[offset + eventLen..payloadEnd] == rest[4 + eventLen..] by {
        SubSlice(data, start, payloadEnd, 4 + eventLen, |rest|);
      }
      events := events + [data[offset..offset + eventLen]];
      offset := offset + eventLen;
      i := i + 1;
    }
    return Accepted(batchId, events);
  }

  // ── What is accepted ─────────────────────────────────────────────────────

  ghost predicate Fits(batchId: nat, events: seq<Bytes>) {
    && batchId < U64
    && |events| < U32
    && AllShorter(events, U32)
  }

  /** Reading back what was written, whatever follows it. */
  lemma {:induction false} ParseEncoded(batchId: nat, done: seq<Bytes>, events: seq<Bytes>, pad: Bytes)
    requires AllShorter(events, U32)
    ensures ParseEvents(batchId, done, PackAll(events) + pad, |done| + |events|)
         == Accepted(batchId, done + events)
    decreases |events|
  {
    hide FromLE, Pack;
    if events == [] {
      assert done + events == done;
    } else {
      var rest := PackAll(events[1..]) + pad;
      var b := Pack(events[0]) + rest;
      assert PackAll(events) + pad == b;
      PackReads(events[0], rest);
      ParseEncoded(batchId, done + [events[0]], events[1..], pad);
      assert done + [events[0]] + events[1..] == done + events;
    }
  }

  /** Whatever parses was written that way, up to the bytes left unread. */
  lemma {:induction false} ParsedWasEncoded(batchId: nat, done: seq<Bytes>, rest: Bytes, n: nat, events: seq<Bytes>)
      returns (pad: Bytes)
    requires |done| <= n
    requires ParseEvents(batchId, done, rest, n) == Accepted(batchId, done + events)
    ensures rest == PackAll(events) + pad && |done| + |events| == n
    ensures AllShorter(events, U32)
    decreases n - |done|
  {
    hide FromLE;
    if |done| == n {
      assert |done + events| == |done|;
      pad := rest;
    } else {
      var len := FromLE(rest[..4]);
      var event := rest[4..4 + len];
      ParseExtends(batchId, done + [event], rest[4 + len..], n);
      assert (done + events)[|done|] == event == events[0];
      assert done + events == (done + [event]) + events[1..];
      pad := ParsedWasEncoded(batchId, done + [event], rest[4 + len..], n, events[1..]);
      FromLEBound(rest[..4]);
      WidthConstants();
      ToFromLE(rest[..4]);
      assert rest == rest[..4] + event + rest[4 + len..];
    }
  }

  lemma {:induction false} ParseExtends(batchId: nat, done: seq<Bytes>, rest: Bytes, n: nat)
    requires |done| <= n
    ensures var d := ParseEvents(batchId, done, rest, n);
            d.Accepted? ==> |d.events| == n && done <= d.events && d.batchId == batchId
    decreases n - |done|
  {
    if |done| < n && |rest| >= 4 && 4 + FromLE(rest[..4]) <= |rest| {
      var len := FromLE(rest[..4]);
      ParseExtends(batchId, done + [rest[4..4 + len]], rest[4 + len..], n);
    }
  }

  /** The decoder accepts a frame as `(batchId, events)` exactly when the frame is that batch's encoding,
      with possibly some unread bytes before a matching checksum. */
  lemma AcceptedIff(data: Bytes, batchId: nat, events: seq<Bytes>)
    ensures Decode(data) == Accepted(batchId, events) <==>
            Fits(batchId, events) &&
            exists pad: Bytes :: data == Seal(Header(batchId, |events|) + PackAll(events) + pad)
  {
    if Decode(data) == Accepted(batchId, events) {
      var pad := AcceptedWasSealed(data, batchId, events);
    }
    forall pad: Bytes | Fits(batchId, events) &&
        data == Seal(Header(batchId, |events|) + PackAll(events) + pad)
      ensures Decode(data) == Accepted(batchId, events)
    {
      SealedIsAccepted(batchId, events, pad);
    }
  }

  lemma AcceptedWasSealed(data: Bytes, batchId: nat, events: seq<Bytes>) returns (pad: Bytes)
    requires Decode(data) == Accepted(batchId, events)
    ensures Fits(batchId, events)
    ensures data == Seal(Header(batchId, |events|) + PackAll(events) + pad)
  {
    hide FromLE, ToLE, Checksum, PackAll;
    var end, n := |data| - 4, FromLE(data[8..12]);
    ParseExtends(FromLE(data[..8]), [], data[12..end], n);
    assert [] + events == events;
    pad := ParsedWasEncoded(batchId, [], data[12..end], n, events);
    WidthConstants();
    FromLEBound(data[..8]);
    FromLEBound(data[8..12]);
    ToFromLE(data[..8]);
    ToFromLE(data[8..12]);
    ToFromLE(data[end..]);
    assert data[..end] == data[..8] + data[8..12] + data[12..end];
    assert data[..end] == Header(batchId, |events|) + PackAll(events) + pad;
    assert data == data[..end] + data[end..];
  }

  lemma SealedIsAccepted(batchId: nat, events: seq<Bytes>, pad: Bytes)
    requires Fits(batchId, events)
    ensures Decode(Seal(Header(batchId, |events|) + PackAll(events) + pad)) == Accepted(batchId, events)
  {
    hide FromLE, ToLE, Checksum, PackAll, ParseEvents;
    var id, n, body := ToLE(batchId, 8), ToLE(|events|, 4), PackAll(events) + pad;
    var payload := Header(batchId, |events|) + PackAll(events) + pad;
    assert payload == id + n + body;
    Slices(id, n, body, ToLE(Checksum(payload), 4));
    ChecksumWord(payload);
    WidthConstants();
    FromToLE(Checksum(payload), 4);
    FromToLE(batchId, 8);
    FromToLE(|events|, 4);
    ParseEncoded(batchId, [], events, pad);
    assert [] + events == events;
  }

  lemma Slices(id: Bytes, n: Bytes, body: Bytes, crc: Bytes)
    requires |id| == 8 && |n| == 4 && |crc| == 4
    ensures var payload := id + n + body;
            var data := payload + crc;
            && data[..8] == id && data[8..12] == n && data[12..|data| - 4] == body
            && data[..|data| - 4] == payload && data[|data| - 4..] == crc
  {
  }

  /** What the engine writes the SDK reads back, exactly when every count and length fits its field. */
  lemma RoundTripIff(batchId: nat, events: seq<Bytes>)
    ensures Decode(EncodeRequest(batchId, events)) == Accepted(batchId, events) <==> Fits(batchId, events)
  {
    if Fits(batchId, events) {
      SealedIsAccepted(batchId, events, []);
      assert Header(batchId, |events|) + PackAll(events) + [] == Header(batchId, |events|) + PackAll(events);
    } else if Decode(EncodeRequest(batchId, events)) == Accepted(batchId, events) {
      var _ := AcceptedWasSealed(EncodeRequest(batchId, events), batchId, events);
    }
  }

  /** Where event `k` starts in a frame. */
  function Offset(events: seq<Bytes>, k: nat): (n: nat)
    requires k <= |events|
  {
    if k == 0 then 12 else Offset(events, k - 1) + 4 + |events[k - 1]|
  }

  lemma {:induction false} OffsetIs(events: seq<Bytes>, k: nat)
    requires k <= |events|
    ensures Offset(events, k) == 12 + |PackAll(events[..k])|
  {
    hide Pack;
    if k > 0 {
      OffsetIs(events, k - 1);
      assert events[..k] == events[..k - 1] + [events[k - 1]];
      PackAllAppend(events[..k - 1], events[k - 1]);
      PackedSize(events[k - 1]);
    }
  }

  lemma PackedSize(data: Bytes)
    ensures |Pack(data)| == 4 + |data|
  {
  }

  /** Byte by byte: the batch id in bytes 0 to 7, the number of events in bytes 8 to 11, each event's length and bytes
      where the events before it end, and the checksum of all that in the last four. */
  lemma Layout(batchId: nat, events: seq<Bytes>, k: nat)
    requires Fits(batchId, events) && k < |events|
    ensures var frame, n := EncodeRequest(batchId, events), |events|;
            && |frame| == Offset(events, n) + 4
            && FromLE(frame[..8]) == batchId && FromLE(frame[8..12]) == n
            && Offset(events, k) + 4 + |events[k]| <= Offset(events, n)
            && FromLE(frame[Offset(events, k)..Offset(events, k) + 4]) == |events[k]|
            && frame[Offset(events, k) + 4..Offset(events, k) + 4 + |events[k]|] == events[k]
            && FromLE(frame[Offset(events, n)..]) == Checksum(frame[..Offset(events, n)])
  {
    hide FromLE, ToLE, Checksum, PackAll, Pack, Offset;
    var head, body := Header(batchId, |events|), PackAll(events);
    var payload := head + body;
    var crc := ToLE(Checksum(payload), 4);
    OffsetIs(events, |events|);
    OffsetIs(events, k);
    assert events[..|events|] == events;
    WidthConstants();
    FromToLE(batchId, 8);
    FromToLE(|events|, 4);
    ChecksumWord(payload);
    FromToLE(Checksum(payload), 4);
    assert payload == ToLE(batchId, 8) + ToLE(|events|, 4) + body;
    Slices(ToLE(batchId, 8), ToLE(|events|, 4), body, crc);
    EventInside(events, k);
    var o := |PackAll(events[..k])|;
    SliceOf(head, body, crc, o, o + 4);
    SliceOf(head, body, crc, o + 4, o + 4 + |events[k]|);
  }

  lemma SliceOf(head: Bytes, body: Bytes, crc: Bytes, i: nat, j: nat)
    requires |head| == 12 && i <= j <= |body|
    ensures (head + body + crc)[12 + i..12 + j] == body[i..j]
  {
  }

  lemma EventInside(events: seq<Bytes>, k: nat)
    requires k < |events| && |events[k]| < U32
    ensures var o, all := |PackAll(events[..k])|, PackAll(events);
            && o + 4 + |events[k]| <= |all|
            && FromLE(all[o..o + 4]) == |events[k]| && all[o + 4..o + 4 + |events[k]|] == events[k]
  {
    hide FromLE, Pack, PackAll;
    var before, rest := PackAll(events[..k]), PackAll(events[k + 1..]);
    PackAllSplit(events, k);
    PackReads(events[k], rest);
    var tail := Pack(events[k]) + rest;
    Behind(before, tail, 0, 4);
    Behind(before, tail, 4, 4 + |events[k]|);
  }

  lemma Behind(a: Bytes, b: Bytes, i: nat, j: nat)
    requires i <= j <= |b|
    ensures (a + b)[|a| + i..|a| + j] == b[i..j]
  {
  }

  lemma {:induction false} PackAllSplit(events: seq<Bytes>, k: nat)
    requires k < |events|
    ensures PackAll(events) == PackAll(events[..k]) + (Pack(events[k]) + PackAll(events[k + 1..]))
    decreases k
  {
    hide Pack;
    if k > 0 {
      PackAllSplit(events[1..], k - 1);
      assert events[1..][..k - 1] == events[..k][1..] && events[1..][k..] == events[k + 1..];
    }
  }

  /** Corrupting any of 32 consecutive bits of a frame whose checksum matches, aligned to bytes or not, anywhere and for
      frames of every length, makes the decoder report a checksum mismatch. */
  lemma CorruptBitsRejected(frame: Bytes, frame': Bytes, j: nat)
    requires |frame| == |frame'| && frame != frame' && AgreeOutside(frame, frame', j)
    requires !Decode(frame).TooShort? && !Decode(frame).CrcMismatch?
    ensures Decode(frame') == CrcMismatch
  {
    hide AgreeOutside, FromLE, Checksum, ParseEvents;
    if Sealed(frame') {
      BitBurstDetected(frame, frame', j);
    }
  }

  /** Corrupting up to four consecutive bytes of a frame whose checksum matches, anywhere and for frames of
      every length, makes the decoder report a checksum mismatch. */
  lemma CorruptBurstRejected(head: Bytes, window: Bytes, window': Bytes, tail: Bytes)
    requires |window| == |window'| <= 4 && window != window'
    requires var d := Decode(head + window + tail); !d.TooShort? && !d.CrcMismatch?
    ensures Decode(head + window' + tail) == CrcMismatch
  {
    if Sealed(head + window' + tail) {
      BurstDetected(head, window, window', tail);
    }
  }

  /** The same for one changed byte. */
  lemma CorruptByteRejected(frame: Bytes, i: nat, b: Byte)
    requires i < |frame| && frame[i] != b
    requires !Decode(frame).TooShort? && !Decode(frame).CrcMismatch?
    ensures Decode(frame[i := b]) == CrcMismatch
  {
    var head, tail := frame[..i], frame[i + 1..];
    assert frame == head + [frame[i]] + tail;
    assert frame[i := b] == head + [b] + tail;
    CorruptBurstRejected(head, [frame[i]], [b], tail);
  }
}
