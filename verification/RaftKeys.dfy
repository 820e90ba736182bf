/** Keys of the Raft log in the key-value store: three markers and one key per log index. */
module RaftKeys {
  import opened Wrappers
  import opened Bytes

  type Index = x: int | 0 <= x < 0x1_0000_0000_0000_0000

  /** The ASCII bytes of `raft/log/`. */
  function LogPrefix(): (k: Bytes) {
    [0x72, 0x61, 0x66, 0x74, 0x2f, 0x6c, 0x6f, 0x67, 0x2f]
  }

  /** `raft/vote` */
  function VoteKey(): (k: Bytes) {
    [0x72, 0x61, 0x66, 0x74, 0x2f, 0x76, 0x6f, 0x74, 0x65]
  }

  /** `raft/committed` */
  function CommittedKey(): (k: Bytes) {
    [0x72, 0x61, 0x66, 0x74, 0x2f, 0x63, 0x6f, 0x6d, 0x6d, 0x69, 0x74, 0x74, 0x65, 0x64]
  }

  /** `raft/last_purged` */
  function LastPurgedKey(): (k: Bytes) {
    [0x72, 0x61, 0x66, 0x74, 0x2f, 0x6c, 0x61, 0x73, 0x74, 0x5f, 0x70, 0x75, 0x72, 0x67, 0x65, 0x64]
  }

  // ── Big-endian numbers ───────────────────────────────────────────────────

  function ToBE(n: nat, width: nat): (bs: Bytes)
    ensures |bs| == width
  {
    if width == 0 then [] else ToBE(n / 256, width - 1) + [n % 256]
  }

  function FromBE(bs: Bytes): (n: nat) {
    if bs == [] then 0 else FromBE(bs[..|bs| - 1]) * 256 + bs[|bs| - 1]
  }

  lemma {:induction false} FromToBE(n: nat, width: nat)
    requires n < Pow256(width)
    ensures FromBE(ToBE(n, width)) == n
  {
    if width > 0 {
      FromToBE(n / 256, width - 1);
      assert ToBE(n, width)[..width - 1] == ToBE(n / 256, width - 1);
    }
  }

  lemma {:induction false} ToFromBE(bs: Bytes)
    ensures FromBE(bs) < Pow256(|bs|) && ToBE(FromBE(bs), |bs|) == bs
  {
    if bs != [] {
      var init, last := bs[..|bs| - 1], bs[|bs| - 1];
      ToFromBE(init);
      assert bs == init + [last];
    }
  }

  // ── Lexicographic order ──────────────────────────────────────────────────

  /** Byte strings compare as the store orders them: first difference decides, a proper prefix comes first. */
  predicate Less(a: Bytes, b: Bytes) {
    b != [] && (a == [] || a[0] < b[0] || (a[0] == b[0] && Less(a[1..], b[1..])))
  }

  lemma {:induction false} LessSnoc(a: Bytes, x: Byte, b: Bytes, y: Byte)
    requires |a| == |b|
    ensures Less(a + [x], b + [y]) <==> Less(a, b) || (a == b && x < y)
  {
    if a == [] {
      assert a + [x] == [x] && b + [y] == [y];
    } else {
      assert (a + [x])[1..] == a[1..] + [x] && (b + [y])[1..] == b[1..] + [y];
      LessSnoc(a[1..], x, b[1..], y);
      assert a == [a[0]] + a[1..] && b == [b[0]] + b[1..];
    }
  }

  lemma {:induction false} LessShared(p: Bytes, a: Bytes, b: Bytes)
    ensures Less(p + a, p + b) <==> Less(a, b)
  {
    if p == [] {
      assert p + a == a && p + b == b;
    } else {
      assert (p + a)[1..] == p[1..] + a && (p + b)[1..] == p[1..] + b;
      LessShared(p[1..], a, b);
    }
  }

  /** Big-endian order is numeric order. */
  lemma {:induction false} BigEndianOrder(m: nat, n: nat, width: nat)
    requires m < Pow256(width) && n < Pow256(width)
    ensures Less(ToBE(m, width), ToBE(n, width)) <==> m < n
  {
    if width > 0 {
      BigEndianOrder(m / 256, n / 256, width - 1);
      LessSnoc(ToBE(m / 256, width - 1), m % 256, ToBE(n / 256, width - 1), n % 256);
      if ToBE(m / 256, width - 1) == ToBE(n / 256, width - 1) {
        FromToBE(m / 256, width - 1);
        FromToBE(n / 256, width - 1);
      }
    }
  }

  lemma {:induction false} LessTotal(a: Bytes, b: Bytes)
    ensures Less(a, b) || a == b || Less(b, a)
    ensures !(Less(a, b) && Less(b, a))
  {
    if a != [] && b != [] {
      LessTotal(a[1..], b[1..]);
      assert a == [a[0]] + a[1..] && b == [b[0]] + b[1..];
    }
  }

  lemma {:induction false} LessTransitive(a: Bytes, b: Bytes, c: Bytes)
    requires Less(a, b) && Less(b, c)
    ensures Less(a, c)
  {
    if a != [] && a[0] == b[0] == c[0] {
      LessTransitive(a[1..], b[1..], c[1..]);
    }
  }

  // ── Log keys ─────────────────────────────────────────────────────────────

  function LogKey(index: Index): (k: Bytes) {
    LogPrefix() + ToBE(index, 8)
  }

  predicate HasLogPrefix(k: Bytes) {
    LogPrefix() <= k
  }

  /** The index a key stands for, if it is a log key. */
  function LogIndexFromKey(k: Bytes): (i: Option<Index>) {
    if |k| != |LogPrefix()| + 8 || !HasLogPrefix(k) then None
    else
      EightBytes(k[|LogPrefix()|..]);
      Some(FromBE(k[|LogPrefix()|..]))
  }

  lemma EightBytes(bs: Bytes)
    requires |bs| == 8
    ensures FromBE(bs) < 0x1_0000_0000_0000_0000 && ToBE(FromBE(bs), 8) == bs
  {
    ToFromBE(bs);
    WidthConstants();
  }

  lemma InRange(i: Index)
    ensures i < Pow256(8)
  {
    WidthConstants();
  }

  function Ascii(s: string): (bs: Bytes)
    requires forall i :: 0 <= i < |s| ==> s[i] < 128 as char
  {
    seq(|s|, i requires 0 <= i < |s| => s[i] as int)
  }

  /** The keys by name, and the bytes of one index. */
  lemma KeyNames()
    ensures VoteKey() == Ascii("raft/vote") && CommittedKey() == Ascii("raft/committed")
    ensures LastPurgedKey() == Ascii("raft/last_purged")
    ensures LogKey(0x0102_0304_0506_0708) == Ascii("raft/log/") + [1, 2, 3, 4, 5, 6, 7, 8]
  {
    assert ToBE(0x0102_0304, 4) == [1, 2, 3, 4];
    assert ToBE(0x0102_0304_0506_0708, 8) == [1, 2, 3, 4, 5, 6, 7, 8];
  }

  /** The two key functions are inverse: a key reads as index `i` exactly when it is the key of `i`. */
  lemma KeyRoundTrip(k: Bytes, i: Index)
    ensures LogIndexFromKey(k) == Some(i) <==> k == LogKey(i)
  {
    hide ToBE, FromBE, Pow256;
    var n := |LogPrefix()|;
    InRange(i);
    FromToBE(i, 8);
    if |k| == n + 8 && HasLogPrefix(k) {
      EightBytes(k[n..]);
      assert k == k[..n] + k[n..] && k[..n] == LogPrefix();
      assert LogKey(i)[n..] == ToBE(i, 8);
    }
  }

  lemma KeyInjective(i: Index, j: Index)
    ensures LogKey(i) == LogKey(j) <==> i == j
  {
    hide LogKey, LogIndexFromKey;
    KeyRoundTrip(LogKey(i), i);
    KeyRoundTrip(LogKey(i), j);
  }

  /** Keys sort as their indices do. */
  lemma KeyOrder(i: Index, j: Index)
    ensures Less(LogKey(i), LogKey(j)) <==> i < j
  {
    hide ToBE, Less, Pow256, LogPrefix;
    InRange(i);
    InRange(j);
    LessShared(LogPrefix(), ToBE(i, 8), ToBE(j, 8));
    BigEndianOrder(i, j, 8);
  }

  /** No marker key is a log key, or under the log prefix, and the markers differ. */
  lemma MarkersApart()
    ensures !HasLogPrefix(VoteKey()) && !HasLogPrefix(CommittedKey()) && !HasLogPrefix(LastPurgedKey())
    ensures VoteKey() != CommittedKey() && VoteKey() != LastPurgedKey() && CommittedKey() != LastPurgedKey()
    ensures forall i: Index :: HasLogPrefix(LogKey(i))
  {
    hide ToBE;
    var p := LogPrefix();
    assert p[5] != VoteKey()[5] && p[5] != CommittedKey()[5] && p[6] != LastPurgedKey()[6];
    assert VoteKey()[5] != CommittedKey()[5];
    assert |VoteKey()| != |LastPurgedKey()| && |CommittedKey()| != |LastPurgedKey()|;
  }
}
