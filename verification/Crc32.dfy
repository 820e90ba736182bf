/** The table-driven CRC-32 of the batch wire format.

    JavaScript's bitwise operators work on 32-bit patterns; a pattern is modelled by its unsigned value,
    so `c & 1` is `c % 2`, `c >>> 1` is `c / 2`, `x & 0xFF` is `x % 256` and `c >>> 8` is `c / 256`. */
module Crc32 {
  import opened Bytes
  import opened Words

  const POLY := 0xEDB88320
  const ALL_ONES := 0xFFFF_FFFF

  // ── Reference: the bit-serial reflected CRC of section 8 of RFC 1952 ──────

  /** Shift one message bit into the register. */
  function ShiftIn(r: nat, bit: nat): (s: nat)
    requires bit < 2
  {
    if r % 2 == bit then r / 2 else Xor(POLY, r / 2)
  }

  /** Shift the low `n` bits of `b` into the register, lowest bit first. */
  function ShiftInBits(r: nat, b: nat, n: nat): (s: nat)
    decreases n
  {
    if n == 0 then r else ShiftInBits(ShiftIn(r, b % 2), b / 2, n - 1)
  }

  /** The register after the whole message. */
  function Register(r: nat, message: Bytes): (s: nat)
    decreases |message|
  {
    if message == [] then r else Register(ShiftInBits(r, message[0], 8), message[1..])
  }

  function Checksum(message: Bytes): (crc: nat) {
    Xor(Register(ALL_ONES, message), ALL_ONES)
  }

  // ── The code's own step ──────────────────────────────────────────────────

  /** One turn of the table-building loop. */
  function Halve(c: nat): (d: nat) {
    if c % 2 == 1 then Xor(POLY, c / 2) else c / 2
  }

  function HalveTimes(c: nat, n: nat): (d: nat)
    decreases n
  {
    if n == 0 then c else HalveTimes(Halve(c), n - 1)
  }

  /** One turn of the checksum loop, with the table entry spelled out. */
  function TableStep(crc: nat, b: Byte): (r: nat) {
    Xor(Entry(Xor(crc, b) % 256), crc / 256)
  }

  // ── Halving is linear, bounded and injective ─────────────────────────────

  lemma HalveLinear(a: nat, b: nat)
    ensures Halve(Xor(a, b)) == Xor(Halve(a), Halve(b))
  {
    XorUnfold(a, b);
    var x, y := a / 2, b / 2;
    XorAssociates(POLY, x, y);
    XorCommutes(x, POLY);
    XorAssociates(x, POLY, y);
    XorRegroup(POLY, x, POLY, y);
    XorSelf(POLY);
  }

  lemma {:induction false} HalveTimesLinear(a: nat, b: nat, n: nat)
    ensures HalveTimes(Xor(a, b), n) == Xor(HalveTimes(a, n), HalveTimes(b, n))
    decreases n
  {
    if n > 0 {
      HalveLinear(a, b);
      HalveTimesLinear(Halve(a), Halve(b), n - 1);
    }
  }

  lemma {:induction false} HalveTimesAdd(c: nat, m: nat, n: nat)
    ensures HalveTimes(c, m + n) == HalveTimes(HalveTimes(c, m), n)
    decreases m
  {
    if m > 0 {
      HalveTimesAdd(Halve(c), m - 1, n);
    }
  }

  lemma HalveWord(c: nat)
    requires c < U32
    ensures Halve(c) < U32
  {
    hide Xor, Pow2;
    Pow2Constants();
    XorBound(POLY, c / 2, 32);
  }

  lemma {:induction false} HalveTimesWord(c: nat, n: nat)
    requires c < U32
    ensures HalveTimes(c, n) < U32
    decreases n
  {
    if n > 0 {
      HalveWord(c);
      HalveTimesWord(Halve(c), n - 1);
    }
  }

  /** A word whose low bits are clear is only shifted. */
  lemma {:induction false} HalveTimesShifts(h: nat, n: nat)
    ensures HalveTimes(Shl(h, n), n) == h
  {
    if n > 0 {
      assert Halve(Shl(h, n)) == Shl(h, n - 1);
      HalveTimesShifts(h, n - 1);
    }
  }

  /** Halving past the low `n` bits: the high part comes down beside what the low part becomes. */
  lemma HalveTimesSplits(lo: nat, hi: nat, n: nat)
    requires lo < Pow2(n)
    ensures HalveTimes(lo + Shl(hi, n), n) == Xor(HalveTimes(lo, n), hi)
  {
    XorDisjoint(lo, hi, n);
    HalveTimesLinear(lo, Shl(hi, n), n);
    HalveTimesShifts(hi, n);
  }

  /** Only the zero word is halved to zero, so halving loses nothing on 32-bit words. */
  lemma {:induction false} HalveTimesInjective(a: nat, b: nat, n: nat)
    requires a < U32 && b < U32 && HalveTimes(a, n) == HalveTimes(b, n)
    ensures a == b
    decreases n
  {
    if n > 0 {
      HalveWord(a);
      HalveWord(b);
      HalveTimesInjective(Halve(a), Halve(b), n - 1);
      HalveInjective(a, b);
    }
  }

  lemma HalveInjective(a: nat, b: nat)
    requires a < U32 && b < U32 && Halve(a) == Halve(b)
    ensures a == b
  {
    var x := Xor(a, b);
    Pow2Constants();
    XorBound(a, b, 32);
    HalveLinear(a, b);
    XorSelf(Halve(a));
    XorSelf(b);
    XorCancel(a, b, b);
    if x % 2 == 1 {
      XorSelf(x / 2);
      XorCancel(POLY, x / 2, x / 2);
      assert false;
    }
  }

  // ── The table step is the reference step ─────────────────────────────────

  /** Shifting in message bits is folding them into the register and then halving. */
  lemma {:induction false} ShiftInBitsHalves(r: nat, b: nat, n: nat)
    requires b < Pow2(n)
    ensures ShiftInBits(r, b, n) == HalveTimes(Xor(r, b), n)
    decreases n
  {
    if n == 0 {
      XorZero(r);
    } else {
      XorUnfold(r, b);
      var s := ShiftIn(r, b % 2);
      ShiftInBitsHalves(s, b / 2, n - 1);
      assert Halve(Xor(r, b)) == Xor(s, b / 2) by {
        XorAssociates(POLY, r / 2, b / 2);
      }
    }
  }

  /** The table step, for every register and byte, is eight turns of the bit-serial reference. */
  lemma TableStepIsShiftIn(crc: nat, b: Byte)
    ensures TableStep(crc, b) == ShiftInBits(crc, b, 8)
  {
    StepOfWidth(crc, b, 8);
  }

  lemma StepOfWidth(crc: nat, b: nat, k: nat)
    requires b < 256 && k == 8
    ensures Xor(HalveTimes(Xor(crc, b) % 256, k), crc / 256) == ShiftInBits(crc, b, k)
  {
    hide *;
    var x := Xor(crc, b);
    Pow2Constants();
    ShiftInBitsHalves(crc, b, k);
    XorHighByte(crc, b);
    ShlByte(x / 256);
    HalveTimesSplits(x % 256, x / 256, k);
  }

  lemma {:induction false} RegisterAppend(r: nat, m: Bytes, b: Byte)
    ensures Register(r, m + [b]) == TableStep(Register(r, m), b)
    decreases |m|
  {
    if m == [] {
      TableStepIsShiftIn(r, b);
      assert Register(ShiftInBits(r, b, 8), []) == ShiftInBits(r, b, 8);
      assert ([] + [b])[1..] == [];
    } else {
      assert (m + [b])[1..] == m[1..] + [b];
      RegisterAppend(ShiftInBits(r, m[0], 8), m[1..], b);
    }
  }

  /** The table entry for a byte. */
  function Entry(i: nat): (c: nat) {
    HalveTimes(i, 8)
  }

  ghost predicate Filled(table: seq<int>, n: nat)
    requires n <= |table|
  {
    forall i :: 0 <= i < n ==> table[i] == Entry(i)
  }

  /** Fill the 256-entry table in place. */
  method BuildTable() returns (table: array<int>)
    ensures fresh(table) && table.Length == 256 && Filled(table[..], 256)
  {
    hide Entry, Xor;
    table := new int[256];
    var i := 0;
    while i < 256
      invariant 0 <= i <= 256
      invariant Filled(table[..], i)
    {
      var c: nat := i;
      var j := 0;
      EntryFrom(i);
      while j < 8
        invariant 0 <= j <= 8
        invariant HalveTimes(c, 8 - j) == Entry(i)
      {
        c := if c % 2 == 1 then Xor(POLY, c / 2) else c / 2;
        j := j + 1;
      }
      table[i] := c;
      i := i + 1;
    }
  }

  lemma EntryFrom(i: nat)
    ensures Entry(i) == HalveTimes(i, 8)
  {
  }

  /** The checksum loop computes the reference checksum of every buffer. */
  method Crc32(table: array<int>, buf: Bytes) returns (result: nat)
    requires table.Length == 256 && Filled(table[..], 256)
    ensures result == Checksum(buf) && result < U32
  {
    var crc: nat := ALL_ONES;
    var i := 0;
    while i < |buf|
      invariant 0 <= i <= |buf|
      invariant crc == Register(ALL_ONES, buf[..i])
    {
      assert buf[..i + 1] == buf[..i] + [buf[i]];
      RegisterAppend(ALL_ONES, buf[..i], buf[i]);
      crc := Xor(table[Xor(crc, buf[i]) % 256], crc / 256);
      i := i + 1;
    }
    assert buf[..i] == buf;
    ChecksumWord(buf);
    result := Xor(crc, ALL_ONES);
  }

  // ── What the checksum detects ────────────────────────────────────────────

  lemma {:induction false} RegisterWord(r: nat, m: Bytes)
    requires r < U32
    ensures Register(r, m) < U32
    decreases |m|
  {
    if m != [] {
      Pow2Constants();
      ShiftInBitsHalves(r, m[0], 8);
      XorBound(r, m[0], 32);
      HalveTimesWord(Xor(r, m[0]), 8);
      RegisterWord(ShiftInBits(r, m[0], 8), m[1..]);
    }
  }

  lemma ChecksumWord(m: Bytes)
    ensures Checksum(m) < U32
  {
    RegisterWord(ALL_ONES, m);
    Pow2Constants();
    XorBound(Register(ALL_ONES, m), ALL_ONES, 32);
  }

  lemma {:induction false} RegisterConcat(r: nat, a: Bytes, b: Bytes)
    ensures Register(r, a + b) == Register(Register(r, a), b)
    decreases |a|
  {
    if a == [] {
      assert a + b == b;
    } else {
      assert (a + b)[1..] == a[1..] + b;
      RegisterConcat(ShiftInBits(r, a[0], 8), a[1..], b);
    }
  }

  /** Several bytes at once: fold the little-endian word in, then halve eight times a byte. */
  lemma {:induction false} RegisterFolds(r: nat, m: Bytes)
    ensures Register(r, m) == HalveTimes(Xor(r, FromLE(m)), 8 * |m|)
    decreases |m|
  {
    hide Xor, HalveTimes, ShiftInBits;
    if m == [] {
      FoldsNothing(r);
    } else {
      var b, rest := m[0], m[1..];
      RegisterFolds(ShiftInBits(r, b, 8), rest);
      FoldsOneMore(r, b, FromLE(rest), 8 * |rest|);
      assert 8 * |m| == 8 + 8 * |rest|;
    }
  }

  lemma FoldsNothing(r: nat)
    ensures HalveTimes(Xor(r, 0), 0) == r
  {
    XorZero(r);
  }

  lemma FoldsOneMore(r: nat, b: Byte, rest: nat, n: nat)
    ensures HalveTimes(Xor(ShiftInBits(r, b, 8), rest), n) == HalveTimes(Xor(r, b + 256 * rest), 8 + n)
  {
    hide *;
    Pow2Constants();
    ByteFolds(r, b, rest, 8);
    HalveTimesAdd(Xor(r, b + 256 * rest), 8, n);
  }

  lemma ByteFolds(r: nat, b: nat, rest: nat, k: nat)
    requires b < Pow2(k) && k == 8
    ensures Xor(ShiftInBits(r, b, k), rest) == HalveTimes(Xor(r, b + 256 * rest), k)
  {
    hide *;
    Pow2Constants();
    ShlByte(rest);
    ShiftInBitsHalves(r, b, k);
    XorDisjoint(b, rest, k);
    XorAssociates(r, b, Shl(rest, k));
    HalveTimesLinear(Xor(r, b), Shl(rest, k), k);
    HalveTimesShifts(rest, k);
  }

  /** Once two registers differ, no common tail brings them together again. */
  lemma {:induction false} RegisterInjective(r: nat, s: nat, m: Bytes)
    requires r < U32 && s < U32 && Register(r, m) == Register(s, m)
    ensures r == s
    decreases |m|
  {
    if m != [] {
      var r', s' := ShiftInBits(r, m[0], 8), ShiftInBits(s, m[0], 8);
      RegisterByteWord(r, m[0]);
      RegisterByteWord(s, m[0]);
      RegisterInjective(r', s', m[1..]);
      HalveTimesInjective(Xor(r, m[0]), Xor(s, m[0]), 8);
      XorCancel(r, s, m[0]);
    }
  }

  lemma RegisterByteWord(r: nat, b: Byte)
    requires r < U32
    ensures ShiftInBits(r, b, 8) == HalveTimes(Xor(r, b), 8) < U32
    ensures Xor(r, b) < U32
  {
    Pow2Constants();
    ShiftInBitsHalves(r, b, 8);
    XorBound(r, b, 32);
    HalveTimesWord(Xor(r, b), 8);
  }

  /** A frame: a payload followed by its checksum, little-endian. */
  ghost predicate Sealed(frame: Bytes) {
    |frame| >= 4 && FromLE(frame[|frame| - 4..]) == Checksum(frame[..|frame| - 4])
  }

  /** A frame is sealed exactly when running the checksum over all of it leaves one fixed residue. */
  lemma SealedIffResidue(frame: Bytes)
    requires |frame| >= 4
    ensures Sealed(frame) <==> Register(ALL_ONES, frame) == HalveTimes(ALL_ONES, 32)
  {
    hide Xor, HalveTimes, FromLE, Register;
    var payload, trailer := frame[..|frame| - 4], frame[|frame| - 4..];
    var r, w := Register(ALL_ONES, payload), FromLE(trailer);
    assert frame == payload + trailer;
    RegisterConcat(ALL_ONES, payload, trailer);
    RegisterFolds(r, trailer);
    RegisterWord(ALL_ONES, payload);
    FromLEBound(trailer);
    WidthConstants();
    Pow2Constants();
    XorBound(r, w, 32);
    if HalveTimes(Xor(r, w), 32) == HalveTimes(ALL_ONES, 32) {
      HalveTimesInjective(Xor(r, w), ALL_ONES, 32);
    }
    // Xor(r, w) == ALL_ONES exactly when w == Xor(r, ALL_ONES)
    XorCommutes(r, w);
    XorCommutes(r, ALL_ONES);
    XorCancel(w, Xor(r, ALL_ONES), r);
    XorCommutes(Xor(r, ALL_ONES), r);
    XorAssociates(r, r, ALL_ONES);
    XorSelf(r);
    XorCommutes(0, ALL_ONES);
    XorZero(ALL_ONES);
  }

  /** Bit `i` of a frame in the order the checksum takes them: the lowest bit of the first byte first. */
  ghost function FrameBit(frame: Bytes, i: nat): (b: nat) {
    Bit(FromLE(frame), i)
  }

  /** It is bit `i % 8` of byte `i / 8`, and zero beyond the end. */
  lemma {:induction false} FrameBitIs(frame: Bytes, i: nat)
    ensures FrameBit(frame, i) == if i / 8 < |frame| then Bit(frame[i / 8], i % 8) else 0
    decreases |frame|
  {
    hide Bit, Shl, Pow2;
    if frame == [] {
      BitOfZero(i);
    } else {
      Pow2Constants();
      ShlByte(FromLE(frame[1..]));
      BitSplits(frame[0], FromLE(frame[1..]), 8, i);
      if i >= 8 {
        FrameBitIs(frame[1..], i - 8);
      }
    }
  }

  /** The frames agree outside the 32 bits from bit `j` on. */
  ghost predicate AgreeOutside(frame: Bytes, frame': Bytes, j: nat) {
    forall i: nat :: i < j || i >= j + 32 ==> FrameBit(frame, i) == FrameBit(frame', i)
  }

  lemma BurstValue(frame: Bytes, frame': Bytes, j: nat) returns (d: nat)
    requires AgreeOutside(frame, frame', j)
    ensures d < U32 && Xor(FromLE(frame), FromLE(frame')) == Shl(d, j)
  {
    hide Xor, Shl, FromLE, Bit, Pow2;
    var x := Xor(FromLE(frame), FromLE(frame'));
    forall i: nat | i < j || i >= j + 32
      ensures Bit(x, i) == 0
    {
      XorBit(FromLE(frame), FromLE(frame'), i);
      assert FrameBit(frame, i) == FrameBit(frame', i);
    }
    Pow2Constants();
    d := WindowBits(x, j, 32);
  }

  /** Halving a shifted word as often as the frame has bits cannot make it vanish. */
  lemma ShiftedSurvives(d: nat, j: nat, n: nat)
    requires d < U32 && j <= n && HalveTimes(Shl(d, j), n) == 0
    ensures d == 0
  {
    hide HalveTimes, Shl;
    HalveTimesAdd(Shl(d, j), j, n - j);
    HalveTimesShifts(d, j);
    HalveTimesZero(n - j);
    HalveTimesInjective(d, 0, n - j);
  }

  lemma {:induction false} HalveTimesZero(n: nat)
    ensures HalveTimes(0, n) == 0
  {
    if n > 0 {
      HalveTimesZero(n - 1);
    }
  }

  lemma SameRegisterVanishes(f: nat, f': nat, n: nat)
    requires HalveTimes(Xor(ALL_ONES, f), n) == HalveTimes(Xor(ALL_ONES, f'), n)
    ensures HalveTimes(Xor(f, f'), n) == 0
  {
    hide Xor, HalveTimes;
    var a, b, o := HalveTimes(f, n), HalveTimes(f', n), HalveTimes(ALL_ONES, n);
    HalveTimesLinear(ALL_ONES, f, n);
    HalveTimesLinear(ALL_ONES, f', n);
    HalveTimesLinear(f, f', n);
    XorCommutes(o, a);
    XorCommutes(o, b);
    XorCancel(a, b, o);
    XorSelf(a);
  }

  /** Every burst of at most 32 bits is detected, wherever it falls, byte-aligned or not, the trailer included: two
      sealed frames of one length that agree outside 32 consecutive bits are the same frame. */
  lemma BitBurstDetected(frame: Bytes, frame': Bytes, j: nat)
    requires |frame| == |frame'| >= 4 && AgreeOutside(frame, frame', j)
    requires Sealed(frame) && Sealed(frame')
    ensures frame == frame'
  {
    hide Xor, HalveTimes, FromLE, ToLE, Register, Shl, AgreeOutside;
    var f, f', n := FromLE(frame), FromLE(frame'), 8 * |frame|;
    BurstWithin(frame, frame', j);
    SealedIffResidue(frame);
    SealedIffResidue(frame');
    RegisterFolds(ALL_ONES, frame);
    RegisterFolds(ALL_ONES, frame');
    SameRegisterVanishes(f, f', n);
    var k := if j <= n then j else n;
    var d := BurstValue(frame, frame', k);
    ShiftedSurvives(d, k, n);
    ShlZero(k);
    XorSelf(f');
    XorCancel(f, f', f');
    ToFromLE(frame);
    ToFromLE(frame');
  }

  /** A window beyond the end holds no difference. */
  lemma BurstWithin(frame: Bytes, frame': Bytes, j: nat)
    requires |frame| == |frame'| && AgreeOutside(frame, frame', j)
    ensures AgreeOutside(frame, frame', if j <= 8 * |frame| then j else 8 * |frame|)
  {
    hide FrameBit;
    forall i: nat | i >= 8 * |frame|
      ensures FrameBit(frame, i) == FrameBit(frame', i)
    {
      FrameBitIs(frame, i);
      FrameBitIs(frame', i);
    }
  }

  lemma {:induction false} ShlZero(j: nat)
    ensures Shl(0, j) == 0
  {
    if j > 0 {
      ShlZero(j - 1);
    }
  }

  /** In particular, two sealed frames of one length that differ only inside four consecutive bytes are the same. */
  lemma BurstDetected(head: Bytes, window: Bytes, window': Bytes, tail: Bytes)
    requires |window| == |window'| <= 4
    requires |head| + |window| + |tail| >= 4
    requires Sealed(head + window + tail) && Sealed(head + window' + tail)
    ensures window == window'
  {
    hide Sealed, AgreeOutside;
    var frame, frame' := head + window + tail, head + window' + tail;
    WindowAgrees(head, window, window', tail);
    BitBurstDetected(frame, frame', 8 * |head|);
    assert window == frame[|head|..|head| + |window|] && window' == frame'[|head|..|head| + |window|];
  }

  lemma WindowAgrees(head: Bytes, window: Bytes, window': Bytes, tail: Bytes)
    requires |window| == |window'| <= 4
    ensures AgreeOutside(head + window + tail, head + window' + tail, 8 * |head|)
  {
    hide Bit, FrameBit;
    var frame, frame' := head + window + tail, head + window' + tail;
    forall i: nat | i < 8 * |head| || i >= 8 * |head| + 32
      ensures FrameBit(frame, i) == FrameBit(frame', i)
    {
      FrameBitIs(frame, i);
      FrameBitIs(frame', i);
      assert i / 8 < |head| || i / 8 >= |head| + |window|;
    }
  }
}
