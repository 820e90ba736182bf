/** The checksum on 32-bit patterns, as the loop's bitwise operators work on them, and the standard it implements. */
module Crc32Bits {
  import opened Bytes
  import opened Words
  import opened Crc32

  type Pattern = bv32

  predicate Odd(r: Pattern) { r & 1 == 1 }

  function Half(r: Pattern): (h: Pattern) { r >> 1 }

  function Differ(a: Pattern, b: Pattern): (d: Pattern) { a ^ b }

  /** The value of the low `k` bits of a pattern. */
  function Value(r: Pattern, k: nat): (n: nat)
    decreases k
  {
    if k == 0 then 0 else (if Odd(r) then 1 else 0) + 2 * Value(Half(r), k - 1)
  }

  lemma ValueHalves(r: Pattern, k: nat)
    requires k > 0
    ensures Value(r, k) / 2 == Value(Half(r), k - 1) && Value(r, k) % 2 == if Odd(r) then 1 else 0
  {
    hide Odd, Half;
  }

  lemma DifferHalves(a: Pattern, b: Pattern)
    ensures Half(Differ(a, b)) == Differ(Half(a), Half(b))
    ensures Odd(Differ(a, b)) <==> Odd(a) != Odd(b)
  {
  }

  lemma XorFromHalves(x: nat, y: nat, z: nat)
    requires z / 2 == Xor(x / 2, y / 2) && z % 2 == if x % 2 == y % 2 then 0 else 1
    ensures Xor(x, y) == z
  {
    XorUnfold(x, y);
  }

  lemma {:induction false} XorValue(a: Pattern, b: Pattern, k: nat)
    ensures Xor(Value(a, k), Value(b, k)) == Value(Differ(a, b), k)
    decreases k
  {
    hide Odd, Half, Differ;
    if k > 0 {
      hide Value, Xor;
      XorValue(Half(a), Half(b), k - 1);
      DifferHalves(a, b);
      ValueHalves(a, k);
      ValueHalves(b, k);
      ValueHalves(Differ(a, b), k);
      XorFromHalves(Value(a, k), Value(b, k), Value(Differ(a, b), k));
    }
  }

  /** `r` without its low `n` bits. */
  function Halved(r: Pattern, n: nat): (h: Pattern)
    decreases n
  {
    if n == 0 then r else Halved(Half(r), n - 1)
  }

  lemma {:induction false} ValueNarrows(r: Pattern, k: nat)
    requires !Odd(Halved(r, k))
    ensures Value(r, k + 1) == Value(r, k)
    decreases k
  {
    hide Odd, Half;
    if k > 0 {
      ValueNarrows(Half(r), k - 1);
    }
  }

  lemma {:induction false} HalvedAdd(r: Pattern, m: nat, n: nat)
    ensures Halved(r, m + n) == Halved(Halved(r, m), n)
    decreases m
  {
    hide Half;
    if m > 0 {
      HalvedAdd(Half(r), m - 1, n);
    }
  }

  function Down(r: Pattern): (h: Pattern) { r >> 8 }

  lemma HalvedByte(r: Pattern)
    ensures Halved(r, 8) == Down(r)
  {
  }

  lemma NothingAbove(r: Pattern)
    ensures !Odd(Halved(Down(Down(Down(Half(r)))), 7))
  {
    assert Halved(Down(Down(Down(Half(r)))), 7) == r >> 32;
  }

  lemma AllHalved(r: Pattern)
    ensures !Odd(Halved(Half(r), 31))
  {
    hide *;
    var h := Half(r);
    HalvedAdd(h, 8, 23);
    HalvedByte(h);
    HalvedAdd(Down(h), 8, 15);
    HalvedByte(Down(h));
    HalvedAdd(Down(Down(h)), 8, 7);
    HalvedByte(Down(Down(h)));
    NothingAbove(r);
  }

  lemma HalfValue(r: Pattern)
    ensures Value(r, 32) / 2 == Value(Half(r), 32) && Value(r, 32) % 2 == if Odd(r) then 1 else 0
  {
    hide *;
    ValueHalves(r, 32);
    AllHalved(r);
    ValueNarrows(Half(r), 31);
  }

  // ── The register on patterns ─────────────────────────────────────────────

  /** Shift one message bit in: the bit-serial step with the pattern's own operators. */
  function Shifted(r: Pattern, b: bv8): (s: Pattern) {
    if Odd(r) == (b & 1 == 1) then Half(r) else Differ(0xEDB88320, Half(r))
  }

  function ShiftedBy(r: Pattern, b: bv8, n: nat): (s: Pattern)
    decreases n
  {
    if n == 0 then r else ShiftedBy(Shifted(r, b), b >> 1, n - 1)
  }

  lemma PolyValue()
    ensures Value(0xEDB88320, 32) == POLY
  {
    assert Value(0xE, 4) == 0xE;
    assert Value(0xED, 8) == 0xED;
    assert Value(0xEDB, 12) == 0xEDB;
    assert Value(0xEDB8, 16) == 0xEDB8;
    assert Value(0xEDB88, 20) == 0xEDB88;
    assert Value(0xEDB883, 24) == 0xEDB883;
    assert Value(0xEDB8832, 28) == 0xEDB8832;
  }

  lemma ByteHalves(b: bv8)
    ensures b as nat / 2 == (b >> 1) as nat && b as nat % 2 == if b & 1 == 1 then 1 else 0
  {
    assert b as nat == 2 * ((b >> 1) as nat) + if b & 1 == 1 then 1 else 0;
  }

  lemma ShiftedIs(r: Pattern, b: bv8)
    ensures ShiftIn(Value(r, 32), b as nat % 2) == Value(Shifted(r, b), 32)
  {
    hide Value, Xor, Odd, Half, Differ;
    HalfValue(r);
    ByteHalves(b);
    PolyValue();
    XorValue(0xEDB88320, Half(r), 32);
  }

  /** On every register and byte, the patterns follow the reference. */
  lemma {:induction false} ShiftedByIs(r: Pattern, b: bv8, n: nat)
    ensures ShiftInBits(Value(r, 32), b as nat, n) == Value(ShiftedBy(r, b, n), 32)
    decreases n
  {
    hide Value, Shifted;
    if n > 0 {
      ShiftedIs(r, b);
      ByteHalves(b);
      ShiftedByIs(Shifted(r, b), b >> 1, n - 1);
    }
  }

  // ── The standard ─────────────────────────────────────────────────────────

  /** The exponents of the CRC polynomial of section 8 of RFC 1952, below the leading 32. */
  const EXPONENTS := {26, 23, 22, 16, 12, 11, 10, 8, 7, 5, 4, 2, 1, 0}

  lemma BitHalf(n: nat, i: nat)
    ensures Bit(n, 0) == n % 2 && Bit(n, i + 1) == Bit(n / 2, i)
  {
  }

  lemma BitsAbove(n: nat, i: nat)
    requires i >= 4
    ensures Bit(n, i) == Bit(n / 2 / 2 / 2 / 2, i - 4)
  {
    hide Bit;
    BitHalf(n, i - 1);
    BitHalf(n / 2, i - 2);
    BitHalf(n / 2 / 2, i - 3);
    BitHalf(n / 2 / 2 / 2, i - 4);
  }

  lemma FourBits(n: nat)
    ensures Bit(n, 0) == n % 2 && Bit(n, 1) == n / 2 % 2
    ensures Bit(n, 2) == n / 2 / 2 % 2 && Bit(n, 3) == n / 2 / 2 / 2 % 2
  {
    hide Bit;
    BitHalf(n, 0);
    BitHalf(n / 2, 0);
    BitHalf(n, 1);
    BitHalf(n / 2 / 2, 0);
    BitHalf(n / 2, 1);
    BitHalf(n, 2);
    BitHalf(n / 2 / 2 / 2, 0);
  }

  /** The high half of the polynomial's word. */
  lemma HighBits(i: nat)
    requires i < 16
    ensures Bit(0xEDB8, i) == 1 <==> 15 - i in EXPONENTS
  {
    hide Bit;
    if i >= 4 { BitsAbove(0xEDB8, i); }
    if i >= 8 { BitsAbove(0xEDB, i - 4); }
    if i >= 12 { BitsAbove(0xED, i - 8); }
    FourBits(0xEDB8);
    FourBits(0xEDB);
    FourBits(0xED);
    FourBits(0xE);
  }

  lemma PolyBits(i: nat)
    requires i < 32
    ensures Bit(POLY, i) == 1 <==> 31 - i in EXPONENTS
  {
    hide Bit;
    if i < 4 {
      FourBits(POLY);
    } else {
      BitsAbove(POLY, i);
      if i < 8 {
        FourBits(0xEDB8832);
      } else {
        BitsAbove(0xEDB8832, i - 4);
        if i < 12 {
          FourBits(0xEDB883);
        } else {
          BitsAbove(0xEDB883, i - 8);
          if i < 16 {
            FourBits(0xEDB88);
          } else {
            BitsAbove(0xEDB88, i - 12);
            HighBits(i - 16);
          }
        }
      }
    }
  }

  /** The register is the shift register of that polynomial, lowest bit standing for the highest power: every bit moves
      down one place, and when the bit that leaves differs from the message bit, exactly the bits that stand for the
      polynomial's exponents change. */
  lemma ShiftInByExponents(r: nat, bit: nat, i: nat)
    requires bit < 2 && i < 32
    ensures var moved := Bit(r, i + 1);
            Bit(ShiftIn(r, bit), i) == if r % 2 != bit && 31 - i in EXPONENTS then 1 - moved else moved
  {
    hide Xor;
    XorBit(POLY, r / 2, i);
    PolyBits(i);
    assert Bit(r, i + 1) == Bit(r / 2, i);
  }

  lemma RegisterByte(r: nat, b: Byte, rest: Bytes)
    ensures Register(r, [b] + rest) == Register(ShiftInBits(r, b, 8), rest)
  {
    assert ([b] + rest)[1..] == rest;
  }

  lemma PatternByte(r: Pattern, b: bv8, rest: Bytes)
    ensures b as nat < 256
    ensures Register(Value(r, 32), [b as nat] + rest) == Register(Value(ShiftedBy(r, b, 8), 32), rest)
  {
    hide *;
    ShiftedByIs(r, b, 8);
    RegisterByte(Value(r, 32), b as nat, rest);
  }

  function CheckInput(): (m: Bytes) { [0x31, 0x32, 0x33, 0x34, 0x35, 0x36, 0x37, 0x38, 0x39] }

  lemma FirstThree()
    ensures Register(Value(0xFFFFFFFF, 32), CheckInput()) == Register(Value(0x77B79C2D, 32), CheckInput()[3..])
  {
    hide Value, Register;
    var m := CheckInput();
    assert m == [0x31] + m[1..] && m[1..] == [0x32] + m[2..] && m[2..] == [0x33] + m[3..];
    PatternByte(0xFFFFFFFF, 0x31, m[1..]);
    PatternByte(0x7C231048, 0x32, m[2..]);
    PatternByte(0xB0ACBB32, 0x33, m[3..]);
  }

  lemma NextThree()
    ensures Register(Value(0x77B79C2D, 32), CheckInput()[3..]) == Register(Value(0xF68D2C9E, 32), CheckInput()[6..])
  {
    hide Value, Register;
    var m := CheckInput();
    assert m[3..] == [0x34] + m[4..] && m[4..] == [0x35] + m[5..] && m[5..] == [0x36] + m[6..];
    PatternByte(0x77B79C2D, 0x34, m[4..]);
    PatternByte(0x641C1F5C, 0x35, m[5..]);
    PatternByte(0x340AC5E3, 0x36, m[6..]);
  }

  lemma LastThree()
    ensures Register(Value(0xF68D2C9E, 32), CheckInput()[6..]) == Value(0x340BC6D9, 32)
  {
    hide Value, Register;
    var m := CheckInput();
    assert m[6..] == [0x37] + m[7..] && m[7..] == [0x38] + m[8..] && m[8..] == [0x39] + [];
    PatternByte(0xF68D2C9E, 0x37, m[7..]);
    PatternByte(0xAFFC9660, 0x38, m[8..]);
    PatternByte(0x651F2550, 0x39, []);
    RegisterNothing(Value(0x340BC6D9, 32));
  }

  lemma RegisterNothing(r: nat)
    ensures Register(r, []) == r
  {
  }

  lemma OnesValue()
    ensures Value(0xFFFFFFFF, 32) == ALL_ONES
  {
    assert Value(0xF, 4) == 0xF;
    assert Value(0xFF, 8) == 0xFF;
    assert Value(0xFFF, 12) == 0xFFF;
    assert Value(0xFFFF, 16) == 0xFFFF;
    assert Value(0xFFFFF, 20) == 0xFFFFF;
    assert Value(0xFFFFFF, 24) == 0xFFFFFF;
    assert Value(0xFFFFFFF, 28) == 0xFFFFFFF;
  }

  lemma CheckValue()
    ensures Value(0xCBF43926, 32) == 0xCBF43926
  {
    assert Value(0xC, 4) == 0xC;
    assert Value(0xCB, 8) == 0xCB;
    assert Value(0xCBF, 12) == 0xCBF;
    assert Value(0xCBF4, 16) == 0xCBF4;
    assert Value(0xCBF43, 20) == 0xCBF43;
    assert Value(0xCBF439, 24) == 0xCBF439;
    assert Value(0xCBF4392, 28) == 0xCBF4392;
  }

  /** The check value every CRC-32 implementation is compared with: that of the digits 1 to 9. */
  lemma DigitsChecksum()
    ensures Checksum([0x31, 0x32, 0x33, 0x34, 0x35, 0x36, 0x37, 0x38, 0x39]) == 0xCBF43926
  {
    hide Value, Register, Xor;
    FirstThree();
    NextThree();
    LastThree();
    OnesValue();
    XorValue(0x340BC6D9, 0xFFFFFFFF, 32);
    CheckValue();
  }
}
