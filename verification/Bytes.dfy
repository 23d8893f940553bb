/** File contents as byte sequences, the zero-filling positional write, and the
    division of a file into cache blocks. */
module Bytes {

  newtype byte = x: int | 0 <= x < 256

  type File = seq<byte>

  /** Size of a cache block in bytes. */
  const BLOCK_SIZE: nat := 1048576
  /** Blocks per aligned fetch batch. */
  const PREFETCH_BATCH_BLOCKS: nat := 8

  function Max(a: nat, b: nat): (m: nat)
    ensures m == a || m == b
    ensures a <= m && b <= m
  {
    if a < b then b else a
  }

  function Min(a: nat, b: nat): (m: nat)
    ensures m == a || m == b
    ensures m <= a && m <= b
  {
    if a < b then a else b
  }

  /** Seeking to `off` and writing all of `d`: a hole before `off` reads as zeros, and
      writing nothing changes nothing, not even the length. */
  function WriteAt(f: File, off: nat, d: File): (g: File)
  {
    if |d| == 0 then
      f
    else
      seq(Max(|f|, off + |d|), i requires 0 <= i < Max(|f|, off + |d|) =>
        if off <= i < off + |d| then d[i - off] else if i < |f| then f[i] else 0)
  }

  /** The byte at position p, or -1 past the end of the file. */
  function At(f: File, p: nat): (v: int)
    ensures v == -1 <==> |f| <= p
  {
    if p < |f| then f[p] as int else -1
  }

  lemma AtExtensional(f: File, g: File)
    requires forall p: nat :: At(f, p) == At(g, p)
    ensures f == g
  {
    assert At(f, |f|) == At(g, |f|);
    assert At(f, |g|) == At(g, |g|);
    forall p: nat | p < |f|
      ensures f[p] == g[p]
    {
      assert At(f, p) == At(g, p);
    }
  }

  /** What a write leaves at each position. */
  lemma WriteAtByte(f: File, off: nat, d: File, p: nat)
    ensures At(WriteAt(f, off, d), p) ==
            if off <= p < off + |d| then d[p - off] as int
            else if p < |f| then f[p] as int
            else if p < off && d != [] then 0
            else -1
  {
  }

  /** Writes to disjoint ranges commute, holes included. */
  lemma DisjointWritesCommute(f: File, a: nat, x: File, b: nat, y: File)
    requires a + |x| <= b || b + |y| <= a
    ensures WriteAt(WriteAt(f, a, x), b, y) == WriteAt(WriteAt(f, b, y), a, x)
  {
    assert WriteAt(WriteAt(f, a, x), b, y) == WriteAt(WriteAt(f, b, y), a, x);
  }

  /** A write absorbs any earlier partial transfer of itself. */
  lemma PrefixAbsorbed(f: File, off: nat, d: File, k: nat)
    requires k <= |d|
    ensures WriteAt(WriteAt(f, off, d[..k]), off, d) == WriteAt(f, off, d)
  {
    assert WriteAt(WriteAt(f, off, d[..k]), off, d) == WriteAt(f, off, d);
  }

  /** Two back-to-back writes are one write of the concatenation. */
  lemma AdjacentWritesMerge(f: File, off: nat, x: File, y: File)
    ensures WriteAt(WriteAt(f, off, x), off + |x|, y) == WriteAt(f, off, x + y)
  {
    var mid := WriteAt(f, off, x);
    forall p: nat
      ensures At(WriteAt(mid, off + |x|, y), p) == At(WriteAt(f, off, x + y), p)
    {
      WriteAtByte(f, off, x, p);
      WriteAtByte(mid, off + |x|, y, p);
      WriteAtByte(f, off, x + y, p);
    }
    AtExtensional(WriteAt(mid, off + |x|, y), WriteAt(f, off, x + y));
  }

  // ------------------------------------------------------------------ blocks

  /** The bytes of block `i` of a file: full, short, or empty past the end. */
  function Block(f: File, i: nat): (b: File)
    ensures |b| <= BLOCK_SIZE
  {
    f[Min(i * BLOCK_SIZE, |f|)..Min((i + 1) * BLOCK_SIZE, |f|)]
  }

  lemma BlockAt(f: File, i: nat, k: nat)
    requires k < BLOCK_SIZE
    ensures At(Block(f, i), k) == At(f, i * BLOCK_SIZE + k)
  {
  }

  /** Two blocks with the same bytes at every position of the block are equal. */
  lemma SameBlock(x: File, f: File, i: nat)
    requires |x| <= BLOCK_SIZE
    requires forall k: nat :: k < BLOCK_SIZE ==> At(x, k) == At(f, i * BLOCK_SIZE + k)
    ensures x == Block(f, i)
  {
    var y := Block(f, i);
    forall k: nat ensures At(x, k) == At(y, k) {
      if k < BLOCK_SIZE {
        BlockAt(f, i, k);
      }
    }
    AtExtensional(x, y);
  }

  /** The block of a file's last byte. */
  function LastBlock(len: nat): nat {
    (if len == 0 then 0 else len - 1) / BLOCK_SIZE
  }

  /** Does the half-open byte range touch block i?  `len` 0 counts as one byte, as the
      cache's range invalidation does. */
  predicate Touches(off: nat, len: nat, i: nat)
  {
    off / BLOCK_SIZE <= i <= (off + Max(len, 1) - 1) / BLOCK_SIZE
  }

  /** Does this write start past the block that holds the end of the file? */
  predicate LeavesGap(f: File, off: nat, d: File) {
    d != [] && |f| / BLOCK_SIZE < off / BLOCK_SIZE
  }

  /** Which blocks a write can change: exactly the ones its range touches, if and only if
      it does not start past the block that holds the end of the file. */
  lemma RangeInvalidationCovers(f: File, off: nat, d: File)
    requires d != []
    ensures (forall i: nat :: Block(WriteAt(f, off, d), i) != Block(f, i) ==> Touches(off, |d|, i))
            <==> off / BLOCK_SIZE <= |f| / BLOCK_SIZE
  {
    var g := WriteAt(f, off, d);
    if off / BLOCK_SIZE <= |f| / BLOCK_SIZE {
      forall i: nat | !Touches(off, |d|, i) ensures Block(g, i) == Block(f, i) {
        forall k: nat | k < BLOCK_SIZE ensures At(Block(f, i), k) == At(g, i * BLOCK_SIZE + k) {
          BlockAt(f, i, k);
          WriteAtByte(f, off, d, i * BLOCK_SIZE + k);
        }
        SameBlock(Block(f, i), g, i);
      }
    } else {
      var i := |f| / BLOCK_SIZE;
      BlockAt(f, i, |f| % BLOCK_SIZE);
      BlockAt(g, i, |f| % BLOCK_SIZE);
      WriteAtByte(f, off, d, |f|);
      assert Block(g, i) != Block(f, i);
      assert !Touches(off, |d|, i);
    }
  }

  /** A write changes only blocks its range touches and blocks of the hole before it. */
  lemma WriteChangesBlock(f: File, off: nat, d: File, i: nat)
    requires d != [] ==> !Touches(off, |d|, i)
    requires forall p: nat :: |f| <= p < off && p / BLOCK_SIZE == i ==> d == []
    ensures Block(WriteAt(f, off, d), i) == Block(f, i)
  {
    var g := WriteAt(f, off, d);
    forall k: nat | k < BLOCK_SIZE ensures At(Block(f, i), k) == At(g, i * BLOCK_SIZE + k) {
      BlockAt(f, i, k);
      var p := i * BLOCK_SIZE + k;
      assert p / BLOCK_SIZE == i;
      WriteAtByte(f, off, d, p);
    }
    SameBlock(Block(f, i), g, i);
  }

  /** The blocks that a write changes without touching them: those from the one holding the end of
      the file to the one before the write. */
  lemma GapBlocks(f: File, off: nat, d: File, i: nat)
    requires d != [] && !Touches(off, |d|, i)
    ensures Block(WriteAt(f, off, d), i) != Block(f, i) <==> |f| / BLOCK_SIZE <= i < off / BLOCK_SIZE
  {
    var g := WriteAt(f, off, d);
    if |f| / BLOCK_SIZE <= i < off / BLOCK_SIZE {
      var q := Max(|f|, i * BLOCK_SIZE);
      BlockAt(f, i, q - i * BLOCK_SIZE);
      BlockAt(g, i, q - i * BLOCK_SIZE);
      WriteAtByte(f, off, d, q);
    } else {
      WriteChangesBlock(f, off, d, i);
    }
  }
}
