// Hashing a message in blocks of 64 bytes, and what a partly filled buffer means. Both hashes of
// scripts/mkhash.c work this way.
module Blocks {
  import opened Words

  const BLOCK: nat := 64

  type Block = s: seq<Byte> | |s| == 64 witness seq(64, _ => 0)

  /** The chaining value after the complete blocks of m. */
  function Fold<S>(f: (S, Block) -> S, s: S, m: seq<Byte>): S {
    if |m| < BLOCK then s else Fold(f, f(s, m[..BLOCK]), m[BLOCK..])
  }

  function Zeros(n: nat): (s: seq<Byte>)
    ensures |s| == n
  {
    seq(n, _ => 0)
  }

  /** The padding for a message of n bytes: one byte 0x80, then zeros up to 8 bytes before the end of
      a block, then the length. */
  function Padding(n: nat, length: seq<Byte>): (p: seq<Byte>)
    requires |length| == 8
    ensures (n + |p|) % BLOCK == 0
  {
    [0x80] + Zeros((119 - n % BLOCK) % BLOCK) + length
  }

  lemma PaddingBytes(n: nat, length: seq<Byte>, i: nat)
    requires |length| == 8 && i < |Padding(n, length)|
    ensures var p := Padding(n, length);
      p[i] == if i == 0 then 0x80 else if i < |p| - 8 then 0 else length[i + 8 - |p|]
  {
  }

  // The padding without the length, for a message that leaves r bytes in the buffer.
  function PadStart(r: nat): (p: seq<Byte>)
    requires r < BLOCK
    ensures (r + |p|) % BLOCK == 56
  {
    if r < 56 then [0x80] + Zeros(55 - r) else [0x80] + Zeros(63 - r) + Zeros(56)
  }

  lemma PaddingParts(n: nat, length: seq<Byte>)
    requires |length| == 8
    ensures Padding(n, length) == PadStart(n % BLOCK) + length
  {
  }

  /** The number of zeros is the least that works. */
  lemma PaddingIsLeast(n: nat, k: nat)
    requires (n + 1 + k + 8) % BLOCK == 0
    ensures (119 - n % BLOCK) % BLOCK <= k
  {
  }

  lemma {:induction false} FoldAppend<S>(f: (S, Block) -> S, s: S, a: seq<Byte>, b: seq<Byte>)
    requires |a| % BLOCK == 0
    ensures Fold(f, s, a + b) == Fold(f, Fold(f, s, a), b)
    decreases |a|
  {
    if a == [] {
      assert a + b == b;
    } else {
      assert (a + b)[..BLOCK] == a[..BLOCK] && (a + b)[BLOCK..] == a[BLOCK..] + b;
      FoldAppend(f, f(s, a[..BLOCK]), a[BLOCK..], b);
    }
  }

  // Bytes after the last complete block do not matter.
  lemma {:induction false} FoldIgnoresRest<S>(f: (S, Block) -> S, s: S, a: seq<Byte>, b: seq<Byte>)
    requires |a| % BLOCK == 0 && |b| < BLOCK
    ensures Fold(f, s, a + b) == Fold(f, s, a)
  {
    FoldAppend(f, s, a, b);
  }

  function Whole(m: seq<Byte>): (r: seq<Byte>)
    ensures |r| % BLOCK == 0 && |r| == |m| - |m| % BLOCK
  {
    m[..|m| - |m| % BLOCK]
  }

  function Rest(m: seq<Byte>): (r: seq<Byte>)
    ensures |r| == |m| % BLOCK && Whole(m) + r == m
  {
    m[|m| - |m| % BLOCK..]
  }

  /** The chaining value and the buffer stand for the message m: its complete blocks were
      compressed, and the rest is at the start of the buffer. */
  ghost predicate Absorbed<S>(f: (S, Block) -> S, init: S, m: seq<Byte>, s: S, buf: seq<Byte>) {
    |buf| == BLOCK && s == Fold(f, init, m) && buf[..|m| % BLOCK] == Rest(m)
  }

  lemma {:induction false} AbsorbedStart<S>(f: (S, Block) -> S, init: S, buf: seq<Byte>)
    requires |buf| == BLOCK
    ensures Absorbed(f, init, [], init, buf)
  {
  }

  lemma AbsorbedLength<S>(f: (S, Block) -> S, init: S, m: seq<Byte>, s: S, buf: seq<Byte>)
    requires Absorbed(f, init, m, s, buf)
    ensures |buf| == BLOCK
  {
  }

  lemma AbsorbedState<S>(f: (S, Block) -> S, init: S, m: seq<Byte>, s: S, buf: seq<Byte>)
    requires Absorbed(f, init, m, s, buf)
    ensures s == Fold(f, init, m)
  {
  }

  // A buffer that does not become full.
  lemma {:induction false} AbsorbShort<S>(f: (S, Block) -> S, init: S, m: seq<Byte>, s: S, buf: seq<Byte>, data: seq<Byte>, buf': seq<Byte>)
    requires Absorbed(f, init, m, s, buf) && |m| % BLOCK + |data| < BLOCK && |buf'| == BLOCK
    requires buf'[..|m| % BLOCK] == buf[..|m| % BLOCK]
    requires buf'[|m| % BLOCK..|m| % BLOCK + |data|] == data
    ensures Absorbed(f, init, m + data, s, buf')
  {
    var r := |m| % BLOCK;
    assert |m + data| % BLOCK == r + |data|;
    assert Whole(m + data) == Whole(m);
    assert Rest(m + data) == Rest(m) + data;
    assert buf'[..r + |data|] == Rest(m) + data;
    FoldIgnoresRest(f, init, Whole(m), Rest(m));
    FoldIgnoresRest(f, init, Whole(m), Rest(m) + data);
    assert m + data == Whole(m) + (Rest(m) + data);
  }

  // A buffer that is filled up by data.
  lemma {:induction false} AbsorbFill<S>(f: (S, Block) -> S, init: S, m: seq<Byte>, s: S, buf: seq<Byte>, data: seq<Byte>)
    requires Absorbed(f, init, m, s, buf) && |m| % BLOCK + |data| == BLOCK
    ensures |buf[..|m| % BLOCK] + data| == BLOCK
    ensures |m + data| % BLOCK == 0 && Fold(f, init, m + data) == f(s, buf[..|m| % BLOCK] + data)
  {
    var r := |m| % BLOCK;
    var block := Rest(m) + data;
    assert m + data == Whole(m) + block;
    FoldIgnoresRest(f, init, Whole(m), Rest(m));
    FoldAppend(f, init, Whole(m), block);
    assert Fold(f, s, block) == f(s, block) by {
      assert block[..BLOCK] == block && block[BLOCK..] == [];
    }
  }

  // A complete block on top of complete blocks.
  lemma {:induction false} AbsorbBlock<S>(f: (S, Block) -> S, init: S, m: seq<Byte>, block: Block)
    requires |m| % BLOCK == 0
    ensures |m + block| % BLOCK == 0 && Fold(f, init, m + block) == f(Fold(f, init, m), block)
  {
    AbsorbFill(f, init, m, Fold(f, init, m), Zeros(BLOCK), block);
    assert Zeros(BLOCK)[..0] + block == block;
  }

  // What is left after the complete blocks.
  lemma {:induction false} AbsorbRest<S>(f: (S, Block) -> S, init: S, m: seq<Byte>, buf: seq<Byte>, data: seq<Byte>)
    requires |m| % BLOCK == 0 && |data| < BLOCK == |buf| && buf[..|data|] == data
    ensures Absorbed(f, init, m + data, Fold(f, init, m), buf)
  {
    AbsorbShort(f, init, m, Fold(f, init, m), buf, data, buf);
  }

  // ----- copying into a buffer -----

  method Copy(dst: array<Byte>, at: nat, src: seq<Byte>)
    requires at + |src| <= dst.Length
    modifies dst
    ensures dst[..] == old(dst[..at]) + src + old(dst[at + |src|..])
  {
    var i := 0;
    while i < |src|
      invariant 0 <= i <= |src|
      invariant forall k | 0 <= k < dst.Length :: dst[k] == if at <= k < at + i then src[k - at] else old(dst[k])
    {
      dst[at + i] := src[i];
      i := i + 1;
    }
  }

  function Flatten(chunks: seq<seq<Byte>>): seq<Byte> {
    if chunks == [] then [] else Flatten(chunks[..|chunks| - 1]) + chunks[|chunks| - 1]
  }

  lemma FlattenGrows(chunks: seq<seq<Byte>>, i: nat)
    requires i <= |chunks|
    ensures Flatten([]) == []
    ensures i < |chunks| ==> Flatten(chunks[..i + 1]) == Flatten(chunks[..i]) + chunks[i]
  {
    if i < |chunks| {
      assert chunks[..i + 1][..i] == chunks[..i];
    }
  }
}
