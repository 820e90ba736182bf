/** Bitwise exclusive-or on naturals, with the algebra the checksum proofs use. */
module Words {

  /** Bitwise exclusive-or, defined bit by bit from the low end. */
  function Xor(a: nat, b: nat): (x: nat) {
    if a == 0 then b else 2 * Xor(a / 2, b / 2) + if a % 2 == b % 2 then 0 else 1
  }

  lemma XorUnfold(a: nat, b: nat)
    ensures Xor(a, b) / 2 == Xor(a / 2, b / 2)
    ensures Xor(a, b) % 2 == if a % 2 == b % 2 then 0 else 1
  {
  }

  /** A word is its upper bits and its lowest bit. */
  lemma SameWord(x: nat, y: nat)
    requires x / 2 == y / 2 && x % 2 == y % 2
    ensures x == y
  {
  }

  lemma {:induction false} XorZero(a: nat)
    ensures Xor(a, 0) == a
  {
    if a > 0 {
      XorZero(a / 2);
    }
  }

  lemma {:induction false} XorSelf(a: nat)
    ensures Xor(a, a) == 0
  {
    if a > 0 {
      XorSelf(a / 2);
    }
  }

  lemma {:induction false} XorCommutes(a: nat, b: nat)
    ensures Xor(a, b) == Xor(b, a)
    decreases a + b
  {
    if a == 0 {
      XorZero(b);
    } else {
      XorCommutes(a / 2, b / 2);
      XorUnfold(a, b);
      XorUnfold(b, a);
    }
  }

  lemma {:induction false} XorAssociates(a: nat, b: nat, c: nat)
    ensures Xor(Xor(a, b), c) == Xor(a, Xor(b, c))
    decreases a + b + c
  {
    if a > 0 {
      XorAssociates(a / 2, b / 2, c / 2);
      XorUnfold(a, b);
      XorUnfold(b, c);
      var ab, bc := Xor(a, b), Xor(b, c);
      XorUnfold(ab, c);
      XorUnfold(a, bc);
      SameWord(Xor(ab, c), Xor(a, bc));
    }
  }

  /** Exclusive-or with a fixed word cancels on the right. */
  lemma XorCancel(a: nat, b: nat, c: nat)
    ensures Xor(a, c) == Xor(b, c) <==> a == b
  {
  }

  /** Four-way regrouping: (a^b)^(c^d) == (a^c)^(b^d). */
  lemma XorRegroup(a: nat, b: nat, c: nat, d: nat)
    ensures Xor(Xor(a, b), Xor(c, d)) == Xor(Xor(a, c), Xor(b, d))
  {
    XorAssociates(a, b, Xor(c, d));
    XorAssociates(b, c, d);
    XorCommutes(b, c);
    XorAssociates(c, b, d);
    XorAssociates(a, c, Xor(b, d));
  }

  function Pow2(k: nat): (p: nat)
    ensures p >= 1
  {
    if k == 0 then 1 else 2 * Pow2(k - 1)
  }

  lemma {:induction false} XorBound(a: nat, b: nat, k: nat)
    requires a < Pow2(k) && b < Pow2(k)
    ensures Xor(a, b) < Pow2(k)
  {
    if k > 0 {
      XorBound(a / 2, b / 2, k - 1);
      XorUnfold(a, b);
    }
  }

  lemma Pow2Constants()
    ensures Pow2(8) == 256
    ensures Pow2(32) == 0x1_0000_0000
  {
    assert Pow2(4) == 16;
    assert Pow2(8) == 256;
    assert Pow2(12) == 4096;
    assert Pow2(16) == 0x1_0000;
    assert Pow2(20) == 0x10_0000;
    assert Pow2(24) == 0x100_0000;
    assert Pow2(28) == 0x1000_0000;
  }

  /** `h` shifted left by `k` bits. */
  function Shl(h: nat, k: nat): (x: nat) {
    if k == 0 then h else 2 * Shl(h, k - 1)
  }

  lemma ShlByte(h: nat)
    ensures Shl(h, 8) == 256 * h
  {
    assert Shl(h, 1) == 2 * h;
    assert Shl(h, 2) == 4 * h;
    assert Shl(h, 3) == 8 * h;
    assert Shl(h, 4) == 16 * h;
    assert Shl(h, 5) == 32 * h;
    assert Shl(h, 6) == 64 * h;
    assert Shl(h, 7) == 128 * h;
  }

  /** Words with no bit in common add: `k` low bits, and a word shifted past them. */
  lemma {:induction false} XorDisjoint(r: nat, h: nat, k: nat)
    requires r < Pow2(k)
    ensures Xor(r, Shl(h, k)) == r + Shl(h, k)
  {
    if k > 0 {
      var q := Shl(h, k - 1);
      XorDisjoint(r / 2, h, k - 1);
      XorUnfold(r, 2 * q);
      SameWord(Xor(r, 2 * q), r + 2 * q);
    }
  }

  lemma XorHighByte(a: nat, b: nat)
    requires b < 256
    ensures Xor(a, b) / 256 == a / 256
  {
    var lo, hi := a % 256, a / 256;
    Pow2Constants();
    ShlByte(hi);
    XorDisjoint(lo, hi, 8);
    XorCommutes(lo, 256 * hi);
    XorAssociates(256 * hi, lo, b);
    XorBound(lo, b, 8);
    XorDisjoint(Xor(lo, b), hi, 8);
    XorCommutes(Xor(lo, b), 256 * hi);
  }

  // ── Single bits ──────────────────────────────────────────────────────────

  /** Bit `i`, the lowest being bit 0. */
  function Bit(n: nat, i: nat): (b: nat)
    ensures b < 2
    decreases i
  {
    if i == 0 then n % 2 else Bit(n / 2, i - 1)
  }

  lemma {:induction false} XorBit(a: nat, b: nat, i: nat)
    ensures Bit(Xor(a, b), i) == if Bit(a, i) == Bit(b, i) then 0 else 1
    decreases i
  {
    XorUnfold(a, b);
    if i > 0 {
      XorBit(a / 2, b / 2, i - 1);
    }
  }

  ghost predicate ClearFrom(x: nat, k: nat) {
    forall i: nat :: i >= k ==> Bit(x, i) == 0
  }

  lemma ClearHalf(x: nat, k: nat)
    requires ClearFrom(x, k)
    ensures ClearFrom(x / 2, if k > 0 then k - 1 else 0)
  {
    forall i: nat | i >= (if k > 0 then k - 1 else 0)
      ensures Bit(x / 2, i) == 0
    {
      assert Bit(x, i + 1) == Bit(x / 2, i);
    }
  }

  lemma {:induction false} NoBits(x: nat)
    requires ClearFrom(x, 0)
    ensures x == 0
  {
    if x > 0 {
      assert Bit(x, 0) == 0;
      ClearHalf(x, 0);
      NoBits(x / 2);
    }
  }

  lemma {:induction false} FewBits(x: nat, k: nat)
    requires ClearFrom(x, k)
    ensures x < Pow2(k)
    decreases k
  {
    if k == 0 {
      NoBits(x);
    } else {
      ClearHalf(x, k);
      FewBits(x / 2, k - 1);
    }
  }

  /** A number whose bits all lie in a window is a small one, shifted there. */
  lemma {:induction false} WindowBits(x: nat, j: nat, w: nat) returns (d: nat)
    requires ClearFrom(x, j + w) && forall i: nat :: i < j ==> Bit(x, i) == 0
    ensures d < Pow2(w) && x == Shl(d, j)
    decreases j
  {
    if j == 0 {
      FewBits(x, w);
      d := x;
    } else {
      assert Bit(x, 0) == 0;
      ClearHalf(x, j + w);
      forall i: nat | i < j - 1
        ensures Bit(x / 2, i) == 0
      {
        assert Bit(x, i + 1) == Bit(x / 2, i);
      }
      d := WindowBits(x / 2, j - 1, w);
    }
  }

  /** The bits of a low part and of a part shifted past it. */
  lemma {:induction false} BitSplits(lo: nat, hi: nat, k: nat, i: nat)
    requires lo < Pow2(k)
    ensures Bit(lo + Shl(hi, k), i) == if i < k then Bit(lo, i) else Bit(hi, i - k)
    decreases k
  {
    if k > 0 && i > 0 {
      assert (lo + Shl(hi, k)) / 2 == lo / 2 + Shl(hi, k - 1);
      BitSplits(lo / 2, hi, k - 1, i - 1);
    }
  }

  lemma {:induction false} BitOfZero(i: nat)
    ensures Bit(0, i) == 0
  {
    if i > 0 {
      BitOfZero(i - 1);
    }
  }
}
