/** Byte strings behind a four-byte little-endian length: the unit of both the batch format and the
    WebTransport streams. */
module LengthPrefix {
  import opened Bytes

  /** One length-prefixed string; a length of 2^32 or more is cut to its low 32 bits. */
  function Pack(data: Bytes): (b: Bytes) {
    ToLE(|data|, 4) + data
  }

  function PackAll(items: seq<Bytes>): (b: Bytes) {
    if items == [] then [] else Pack(items[0]) + PackAll(items[1..])
  }

  ghost predicate AllShorter(items: seq<Bytes>, limit: nat) {
    forall i :: 0 <= i < |items| ==> |items[i]| < limit
  }

  lemma {:induction false} PackAllAppend(items: seq<Bytes>, item: Bytes)
    ensures PackAll(items + [item]) == PackAll(items) + Pack(item)
  {
    if items == [] {
      assert (items + [item])[1..] == [];
      assert PackAll([item]) == Pack(item) + PackAll([]);
    } else {
      assert (items + [item])[1..] == items[1..] + [item];
      PackAllAppend(items[1..], item);
    }
  }

  /** A packed string announces itself, whatever follows. */
  lemma PackReads(data: Bytes, rest: Bytes)
    requires |data| < U32
    ensures var b := Pack(data) + rest;
            && |b| >= 4 + |data| && FromLE(b[..4]) == |data|
            && b[4..4 + |data|] == data && b[4 + |data|..] == rest
  {
    var b := Pack(data) + rest;
    WidthConstants();
    FromToLE(|data|, 4);
    assert b[..4] == ToLE(|data|, 4);
  }

  lemma PackUnique(x: Bytes, restX: Bytes, w: Bytes, restW: Bytes)
    requires |x| < U32 && |w| < U32
    requires Pack(x) + restX == Pack(w) + restW
    ensures x == w && restX == restW
  {
    hide ToLE, FromLE, Pack;
    PackReads(x, restX);
    PackReads(w, restW);
  }

  /** Packed sequences are uniquely decodable: two readings of the same bytes agree as far as the shorter
      goes, and the shorter one's rest is the longer one's remaining items. */
  lemma {:induction false} PackAllUnique(xs: seq<Bytes>, y: Bytes, ws: seq<Bytes>, z: Bytes)
    requires AllShorter(xs, U32) && AllShorter(ws, U32) && |xs| <= |ws|
    requires PackAll(xs) + y == PackAll(ws) + z
    ensures xs == ws[..|xs|] && y == PackAll(ws[|xs|..]) + z
  {
    hide Pack;
    if xs == [] {
      assert PackAll(xs) + y == y;
      assert ws[0..] == ws;
    } else {
      var restX, restW := PackAll(xs[1..]) + y, PackAll(ws[1..]) + z;
      assert PackAll(xs) + y == Pack(xs[0]) + restX;
      assert PackAll(ws) + z == Pack(ws[0]) + restW;
      PackUnique(xs[0], restX, ws[0], restW);
      PackAllUnique(xs[1..], y, ws[1..], z);
      assert ws[1..][|xs[1..]|..] == ws[|xs|..];
      assert xs == [xs[0]] + xs[1..];
      assert ws[..|xs|] == [ws[0]] + ws[1..][..|xs[1..]|];
    }
  }

  /** If packed items, followed by anything, begin other packed items, they are the first of them. */
  lemma PackAllPrefix(xs: seq<Bytes>, y: Bytes, ws: seq<Bytes>)
    requires AllShorter(xs, U32) && AllShorter(ws, U32)
    requires PackAll(xs) + y <= PackAll(ws)
    ensures xs <= ws && y <= PackAll(ws[|xs|..])
  {
    hide *;
    var w := PackAll(ws);
    var z := w[|PackAll(xs)| + |y|..];
    assert w + [] == PackAll(xs) + (y + z) by {
      SplitPrefix(PackAll(xs), y, w);
    }
    if |xs| <= |ws| {
      PackAllUnique(xs, y + z, ws, []);
      assert PackAll(ws[|xs|..]) + [] == PackAll(ws[|xs|..]);
    } else {
      PackAllUnique(ws, [], xs, y + z);
      PackAllNonempty(xs[|ws|..]);
    }
  }

  lemma SplitPrefix(a: Bytes, b: Bytes, w: Bytes)
    requires a + b <= w
    ensures w + [] == a + (b + w[|a| + |b|..])
  {
    assert w == w[..|a + b|] + w[|a + b|..];
  }

  lemma PackAllNonempty(xs: seq<Bytes>)
    requires xs != []
    ensures |PackAll(xs)| >= 4
  {
  }
}
