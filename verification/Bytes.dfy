/** Bytes, and the joining of blocks of bytes. */
module Bytes {

  datatype Option<+T> = None | Some(value: T)

  newtype byte = x: int | 0 <= x < 256

  type bytes = seq<byte>

  function Min(a: nat, b: nat): nat {
    if a < b then a else b
  }

  function Max(a: nat, b: nat): nat {
    if a < b then b else a
  }

  function Join(blocks: seq<bytes>): bytes {
    if blocks == [] then [] else blocks[0] + Join(blocks[1..])
  }

  lemma {:induction false} JoinAppend(a: seq<bytes>, b: seq<bytes>)
    ensures Join(a + b) == Join(a) + Join(b)
  {
    if a == [] {
      assert a + b == b;
    } else {
      assert (a + b)[1..] == a[1..] + b;
      JoinAppend(a[1..], b);
    }
  }

  lemma JoinSnoc(a: seq<bytes>, b: bytes)
    ensures Join(a + [b]) == Join(a) + b
  {
    JoinAppend(a, [b]);
    assert Join([b]) == b + Join([]);
  }

  /** The cutting of a byte string into blocks of `b` bytes, the last one of 1 to `b` bytes. */
  function Chunks(s: bytes, b: nat): seq<bytes>
    requires b >= 1
  {
    if s == [] then [] else if |s| <= b then [s] else [s[..b]] + Chunks(s[b..], b)
  }

  lemma {:induction false} ChunksJoin(s: bytes, b: nat)
    requires b >= 1
    ensures Join(Chunks(s, b)) == s
  {
    if |s| > b {
      ChunksJoin(s[b..], b);
      assert Chunks(s, b)[1..] == Chunks(s[b..], b);
    } else if s != [] {
      assert Join([s]) == s + Join([]);
    }
  }

  /** The i-th block is the i-th slice of b bytes. */
  lemma {:induction false} ChunkAt(s: bytes, b: nat, i: nat)
    requires b >= 1 && i < |Chunks(s, b)|
    ensures i * b < |s| && Chunks(s, b)[i] == s[i * b..Min(i * b + b, |s|)]
  {
    if |s| <= b {
      assert i == 0 && s[0..|s|] == s;
    } else if i == 0 {
      assert Chunks(s, b)[0] == s[..b];
    } else {
      ChunkAt(s[b..], b, i - 1);
      assert (i - 1) * b + b == i * b;
      assert s[b..][(i - 1) * b..Min((i - 1) * b + b, |s| - b)] == s[i * b..Min(i * b + b, |s|)];
    }
  }

  lemma MulMonotone(p: nat, q: nat, b: nat)
    requires p <= q
    ensures p * b <= q * b
  {
  }

  lemma QuotientOf(x: nat, b: nat, q: nat)
    requires q * b <= x < q * b + b
    ensures x / b == q
  {
    var d := x / b;
    assert x == d * b + x % b;
    if d < q {
      MulMonotone(d + 1, q, b);
    } else if q < d {
      MulMonotone(q + 1, d, b);
    }
  }

  /** How many blocks of b bytes it takes to carry n bytes. */
  function BlocksFor(n: nat, b: nat): nat
    requires b >= 1
  {
    if n == 0 then 0 else if n <= b then 1 else 1 + BlocksFor(n - b, b)
  }

  /** ceil(n / b) */
  lemma {:induction false} BlocksForIsCeiling(n: nat, b: nat)
    requires b >= 1
    ensures BlocksFor(n, b) == (n + b - 1) / b
  {
    if n > b {
      BlocksForIsCeiling(n - b, b);
      var q := BlocksFor(n - b, b);
      assert q * b <= n - 1 < q * b + b;
      QuotientOf(n + b - 1, b, q + 1);
    } else if n > 0 {
      QuotientOf(n + b - 1, b, 1);
    } else {
      QuotientOf(b - 1, b, 0);
    }
  }

  lemma {:induction false} ChunksCount(s: bytes, b: nat)
    requires b >= 1
    ensures |Chunks(s, b)| == BlocksFor(|s|, b)
  {
    if |s| > b {
      ChunksCount(s[b..], b);
    }
  }

  /** Full blocks cut off in front are the first blocks of the cutting. */
  lemma {:induction false} ChunksOfFullBlocks(blocks: seq<bytes>, rest: bytes, b: nat)
    requires b >= 1
    requires forall i :: 0 <= i < |blocks| ==> |blocks[i]| == b
    ensures Chunks(Join(blocks) + rest, b) == blocks + Chunks(rest, b)
  {
    if blocks == [] {
      assert Join(blocks) + rest == rest;
    } else {
      var tail := Join(blocks[1..]) + rest;
      ChunksOfFullBlocks(blocks[1..], rest, b);
      assert Join(blocks) + rest == blocks[0] + tail;
      var all := blocks[0] + tail;
      assert all[..b] == blocks[0] && all[b..] == tail;
      if tail == [] {
        assert all == blocks[0];
      }
      assert blocks == [blocks[0]] + blocks[1..];
    }
  }
}
