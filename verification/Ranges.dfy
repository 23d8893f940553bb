/** Range reads: the daemon's read loop, the frames it sends, the client's frame loop, and
    the cutting of frames into cache blocks. */
module Ranges {
  import opened Bytes
  import opened Wrappers

  /** Most bytes one range request returns. */
  const MAX_RANGE_BYTES: nat := 16777216
  /** Size of the frames a range is sent in. */
  const RANGE_FRAME_BYTES: nat := 1048576

  /** The bytes of f from `offset`, at most `size` of them. */
  function Slice(f: File, offset: nat, size: nat): File {
    f[Min(offset, |f|)..Min(offset + size, |f|)]
  }

  function Concat(frames: seq<File>): File {
    if frames == [] then [] else frames[0] + Concat(frames[1..])
  }

  /** Consecutive pieces of n bytes, the last one possibly shorter, none of them empty. */
  function Chunks(data: File, n: nat): (c: seq<File>)
    requires n > 0
    decreases |data|
  {
    if data == [] then [] else if |data| <= n then [data] else [data[..n]] + Chunks(data[n..], n)
  }

  /** The daemon's answer to a range request: `read` returns any positive number of bytes. */
  method ReadRange(f: File, offset: nat, len: nat) returns (data: File, eof: bool)
    ensures data == Slice(f, offset, Min(len, MAX_RANGE_BYTES))
    ensures eof <==> |f| <= offset + |data|
  {
    var fileLen := |f|;
    var want := Min(Min(len, MAX_RANGE_BYTES), if offset < fileLen then fileLen - offset else 0);
    data := [];
    while |data| < want
      invariant |data| <= want
      invariant data == Slice(f, offset, |data|)
      decreases want - |data|
    {
      var at := offset + |data|;
      var n: nat :| 1 <= n <= want - |data|;
      data := data + f[at..at + n];
    }
    eof := offset + |data| >= fileLen;
  }

  /** Do the first n delivered frames make up an answer of `len` bytes? */
  predicate Fits(incoming: seq<File>, n: nat, len: nat) {
    && n <= |incoming|
    && |Concat(incoming[..n])| == len
    && forall j: nat :: j < n ==> incoming[j] != []
  }

  /** The client's loop over the frames of a range; `incoming` is what the connection
      delivers before it breaks. */
  method ReceiveFrames(incoming: seq<File>, len: nat) returns (r: Result<seq<File>>)
    ensures r.Ok? ==> r.value <= incoming && Fits(incoming, |r.value|, len)
    ensures r.Failed? ==> forall n: nat :: !Fits(incoming, n, len)
  {
    var received, n := 0, 0;
    while received < len
      invariant n <= |incoming| && received == |Concat(incoming[..n])| <= len
      invariant forall j: nat :: j < n ==> incoming[j] != []
      decreases |incoming| - n
    {
      if n == |incoming| || incoming[n] == [] || received + |incoming[n]| > len {
        NothingFits(incoming, n, len);
        return Failed;
      }
      ConcatSnoc(incoming, n);
      received := received + |incoming[n]|;
      n := n + 1;
    }
    return Ok(incoming[..n]);
  }

  lemma {:induction false} ConcatAppend(a: seq<File>, b: seq<File>)
    ensures Concat(a + b) == Concat(a) + Concat(b)
  {
    if a == [] {
      assert a + b == b;
    } else {
      assert (a + b)[1..] == a[1..] + b;
      ConcatAppend(a[1..], b);
    }
  }

  lemma ConcatSnoc(frames: seq<File>, n: nat)
    requires n < |frames|
    ensures Concat(frames[..n + 1]) == Concat(frames[..n]) + frames[n]
  {
    assert frames[..n + 1] == frames[..n] + [frames[n]];
    ConcatAppend(frames[..n], [frames[n]]);
    assert Concat([frames[n]]) == frames[n];
  }

  lemma {:induction false} ConcatGrows(frames: seq<File>, n: nat, m: nat)
    requires n <= m <= |frames|
    ensures |Concat(frames[..n])| <= |Concat(frames[..m])|
  {
    if n < m {
      ConcatSnoc(frames, m - 1);
      ConcatGrows(frames, n, m - 1);
    }
  }

  /** The frame loop gives up only where no prefix of the frames makes up an answer. */
  lemma NothingFits(incoming: seq<File>, n: nat, len: nat)
    requires n <= |incoming| && |Concat(incoming[..n])| < len
    requires n < |incoming| ==> incoming[n] == [] || |Concat(incoming[..n])| + |incoming[n]| > len
    ensures forall m: nat :: !Fits(incoming, m, len)
  {
    forall m: nat | m <= |incoming| ensures !Fits(incoming, m, len) {
      if m <= n {
        ConcatGrows(incoming, m, n);
      } else {
        ConcatSnoc(incoming, n);
        ConcatGrows(incoming, n + 1, m);
      }
    }
  }

  lemma FitsOnce(incoming: seq<File>, n: nat, m: nat, len: nat)
    requires Fits(incoming, n, len) && Fits(incoming, m, len) && n <= m
    ensures n == m
  {
    if n < m {
      ConcatSnoc(incoming, n);
      ConcatGrows(incoming, n + 1, m);
    }
  }

  /** Cutting into chunks loses nothing: joined they are the data, and chunk i is the i-th
      piece of n bytes. */
  lemma {:induction false} ChunksFaithful(data: File, n: nat)
    requires n > 0
    ensures Concat(Chunks(data, n)) == data
    ensures forall c <- Chunks(data, n) :: c != [] && |c| <= n
    ensures forall i: nat :: i + 1 < |Chunks(data, n)| ==> |Chunks(data, n)[i]| == n
    decreases |data|
  {
    if data != [] && |data| > n {
      ChunksFaithful(data[n..], n);
      var all, rest := Chunks(data, n), Chunks(data[n..], n);
      assert all == [data[..n]] + rest && all[1..] == rest;
      assert data[..n] + data[n..] == data;
      hide Chunks, Concat;
      forall i: nat | i + 1 < |all|
        ensures |all[i]| == n
      {
        assert i > 0 ==> all[i] == rest[i - 1];
      }
    }
  }

  /** What the client makes of a complete answer, whatever follows it: only the frames of the
      answer fit, and joined they are the data. */
  lemma FramesArrive(data: File, rest: seq<File>, n: nat)
    ensures Fits(Chunks(data, RANGE_FRAME_BYTES) + rest, n, |data|) <==> n == |Chunks(data, RANGE_FRAME_BYTES)|
    ensures Fits(Chunks(data, RANGE_FRAME_BYTES) + rest, n, |data|) ==>
      Concat((Chunks(data, RANGE_FRAME_BYTES) + rest)[..n]) == data
  {
    var sent := Chunks(data, RANGE_FRAME_BYTES);
    var all := sent + rest;
    ChunksFaithful(data, RANGE_FRAME_BYTES);
    assert all[..|sent|] == sent;
    forall j: nat | j < |sent| ensures all[j] != [] {
      assert sent[j] in sent;
    }
    assert Fits(all, |sent|, |data|);
    if Fits(all, n, |data|) {
      FitsOnce(all, Min(n, |sent|), Max(n, |sent|), |data|);
    }
  }

  // ------------------------------------------------------------------ blocks

  /** Are the frames already blocks: all full but the last, which is no longer than a block? */
  predicate Aligned(frames: seq<File>) {
    && (forall i: nat :: i + 1 < |frames| ==> |frames[i]| == BLOCK_SIZE)
    && (frames != [] ==> |frames[|frames| - 1]| <= BLOCK_SIZE)
  }

  function IntoBlocks(frames: seq<File>): seq<File> {
    if Aligned(frames) then frames else Chunks(Concat(frames), BLOCK_SIZE)
  }

  lemma {:induction false} AlignedBlocks(blocks: seq<File>, i: nat)
    requires Aligned(blocks) && i < |blocks|
    ensures blocks[i] == Block(Concat(blocks), i)
    decreases |blocks|
  {
    var all, rest := Concat(blocks), Concat(blocks[1..]);
    if i == 0 {
      if |blocks| == 1 {
        assert rest == [];
      }
      assert Block(all, 0) == blocks[0];
    } else {
      assert |blocks[0]| == BLOCK_SIZE;
      AlignedBlocks(blocks[1..], i - 1);
      BlockShift(all, BLOCK_SIZE, rest, i - 1);
    }
  }

  /** Dropping whole leading blocks renumbers the rest. */
  lemma BlockShift(f: File, n: nat, g: File, i: nat)
    requires n % BLOCK_SIZE == 0 && n <= |f| && g == f[n..]
    ensures Block(g, i) == Block(f, n / BLOCK_SIZE + i)
  {
  }

  /** `into_blocks` keeps the bytes and yields exactly the blocks of the concatenation; there
      is a block for every position, so a cached block is never short of a later one. */
  lemma IntoBlocksExact(frames: seq<File>)
    ensures Concat(IntoBlocks(frames)) == Concat(frames)
    ensures forall i: nat :: i < |IntoBlocks(frames)| ==> IntoBlocks(frames)[i] == Block(Concat(frames), i)
    ensures |Concat(frames)| <= |IntoBlocks(frames)| * BLOCK_SIZE
  {
    var blocks := IntoBlocks(frames);
    ChunksFaithful(Concat(frames), BLOCK_SIZE);
    assert Aligned(blocks);
    forall i: nat | i < |blocks| ensures blocks[i] == Block(Concat(frames), i) {
      AlignedBlocks(blocks, i);
    }
    ConcatBound(blocks);
  }

  lemma {:induction false} ConcatBound(blocks: seq<File>)
    requires forall b <- blocks :: |b| <= BLOCK_SIZE
    ensures |Concat(blocks)| <= |blocks| * BLOCK_SIZE
  {
    if blocks != [] {
      ConcatBound(blocks[1..]);
    }
  }

  /** Block i of the range that starts at block `first` is block first + i of the file. */
  lemma RangeBlock(f: File, first: nat, count: nat, i: nat)
    requires i < count
    ensures Block(Slice(f, first * BLOCK_SIZE, count * BLOCK_SIZE), i) == Block(f, first + i)
  {
    var g := Slice(f, first * BLOCK_SIZE, count * BLOCK_SIZE);
    forall k: nat | k < BLOCK_SIZE ensures At(Block(g, i), k) == At(f, (first + i) * BLOCK_SIZE + k) {
      BlockAt(g, i, k);
      assert i * BLOCK_SIZE + k < count * BLOCK_SIZE;
    }
    SameBlock(Block(g, i), f, first + i);
  }

  /** What arrives of the answer to a range request before the connection breaks. */
  datatype Arrival = Whole | Unanswered | CutAfter(frames: nat)

  /** A whole range request over a connection that may break after any frame. */
  method RangeRequest(f: File, offset: nat, len: nat, arrival: Arrival) returns (r: Result<seq<File>>)
    ensures arrival.Whole? ==> r.Ok?
    ensures arrival.Unanswered? ==> r.Failed?
    ensures r.Ok? ==> Concat(r.value) == Slice(f, offset, Min(len, MAX_RANGE_BYTES))
  {
    var data, _ := ReadRange(f, offset, len);
    var sent := Chunks(data, RANGE_FRAME_BYTES);
    if arrival.Unanswered? {
      return Failed;
    }
    var arrived := if arrival.Whole? then |sent| else Min(arrival.frames, |sent|);
    if arrival.Whole? {
      FramesArrive(data, [], |sent|);
      assert sent[..arrived] == sent + [];
    }
    r := ReceiveFrames(sent[..arrived], |data|);
    if r.Ok? {
      var n := |r.value|;
      assert r.value == sent[..arrived][..n] == sent[..n];
      assert (sent + [])[..n] == sent[..n];
      forall j: nat | j < n ensures (sent + [])[j] != [] {
        assert (sent + [])[j] == sent[..arrived][j];
      }
      FramesArrive(data, [], n);
    }
  }

  /** One iteration of the read loop: what has been gathered up to the start of a block,
      followed by the wanted part of the block, is what is wanted up to the block's end. */
  lemma GatherBlock(f: File, offset: nat, end: nat, i: nat)
    requires offset / BLOCK_SIZE <= i && i * BLOCK_SIZE <= end && offset <= end
    ensures var start := i * BLOCK_SIZE;
      var block := Block(f, i);
      var from := Max(offset, start) - start;
      var to := Min(Min(end, start + BLOCK_SIZE) - start, |block|);
      Wanted(f, offset, end, i) + (if from < to then block[from..to] else []) == Wanted(f, offset, end, i + 1)
  {
    var start := i * BLOCK_SIZE;
    var block := Block(f, i);
    var from := Max(offset, start) - start;
    var to := Min(Min(end, start + BLOCK_SIZE) - start, |block|);
    BlockLength(f, i);
    hide Wanted, Block;
    if from < to {
      GatherSome(f, offset, end, i, from, to);
    } else {
      GatherNone(f, offset, end, i);
    }
  }

  lemma GatherSome(f: File, offset: nat, end: nat, i: nat, from: nat, to: nat)
    requires offset / BLOCK_SIZE <= i && i * BLOCK_SIZE <= end && offset <= end && from < to
    requires from == Max(offset, i * BLOCK_SIZE) - i * BLOCK_SIZE
    requires to == Min(Min(end, (i + 1) * BLOCK_SIZE), |f|) - i * BLOCK_SIZE
    ensures to <= |Block(f, i)| && Wanted(f, offset, end, i) + Block(f, i)[from..to] == Wanted(f, offset, end, i + 1)
  {
    GatherEnds(|f|, offset, end, i);
    WantedIs(f, offset, end, i);
    WantedIs(f, offset, end, i + 1);
    BlockLength(f, i);
    hide Wanted, Block, Stop;
    BlockPart(f, i, from, to);
    SliceJoins(f, Min(offset, |f|), i * BLOCK_SIZE + from, i * BLOCK_SIZE + to);
  }

  lemma GatherNone(f: File, offset: nat, end: nat, i: nat)
    requires offset / BLOCK_SIZE <= i && i * BLOCK_SIZE <= end && offset <= end
    requires Max(offset, i * BLOCK_SIZE) >= Min(Min(end, (i + 1) * BLOCK_SIZE), |f|)
    ensures Wanted(f, offset, end, i) == Wanted(f, offset, end, i + 1)
  {
    GatherEnds(|f|, offset, end, i);
    WantedIs(f, offset, end, i);
    WantedIs(f, offset, end, i + 1);
  }

  lemma WantedIs(f: File, offset: nat, end: nat, i: nat)
    ensures Min(offset, |f|) <= Stop(|f|, offset, end, i)
    ensures Wanted(f, offset, end, i) == f[Min(offset, |f|)..Stop(|f|, offset, end, i)]
  {
  }

  lemma BlockLength(f: File, i: nat)
    ensures |Block(f, i)| == if i * BLOCK_SIZE < |f| then Min((i + 1) * BLOCK_SIZE, |f|) - i * BLOCK_SIZE else 0
  {
  }

  lemma BlockPart(f: File, i: nat, from: nat, to: nat)
    requires from < to <= |Block(f, i)|
    ensures i * BLOCK_SIZE + to <= |f| && Block(f, i)[from..to] == f[i * BLOCK_SIZE + from..i * BLOCK_SIZE + to]
  {
    Subslice(f, i * BLOCK_SIZE, Min((i + 1) * BLOCK_SIZE, |f|), from, to);
  }

  /** Where the wanted bytes before block i stop. */
  function Stop(len: nat, offset: nat, end: nat, i: nat): nat {
    Min(Max(offset, Min(end, i * BLOCK_SIZE)), len)
  }

  lemma GatherEnds(len: nat, offset: nat, end: nat, i: nat)
    requires offset / BLOCK_SIZE <= i && i * BLOCK_SIZE <= end && offset <= end
    ensures var start := i * BLOCK_SIZE;
      var from := Max(offset, start) - start;
      var to := Min(Min(end, start + BLOCK_SIZE), len) - start;
      if from < to then Stop(len, offset, end, i) == start + from && Stop(len, offset, end, i + 1) == start + to &&
        offset <= start + from
      else Stop(len, offset, end, i + 1) == Stop(len, offset, end, i)
  {
  }

  lemma SliceJoins(f: File, a: nat, b: nat, c: nat)
    requires a <= b <= c <= |f|
    ensures f[a..b] + f[b..c] == f[a..c]
  {
  }

  lemma Subslice(f: File, s: nat, e: nat, i: nat, j: nat)
    requires s <= e <= |f| && i <= j <= e - s
    ensures f[s..e][i..j] == f[s + i..s + j]
  {
    var a, b := f[s..e][i..j], f[s + i..s + j];
    forall k: nat | k < j - i ensures a[k] == b[k] {
      assert a[k] == f[s..e][i + k] == f[s + (i + k)];
    }
    assert a == b;
  }

  /** The wanted bytes that lie before block i. */
  function Wanted(f: File, offset: nat, end: nat, i: nat): File {
    Slice(f, offset, Max(offset, Min(end, i * BLOCK_SIZE)) - offset)
  }

  /** A short block is the last: nothing wanted lies after it. */
  lemma ShortBlockEnds(f: File, offset: nat, end: nat, i: nat)
    requires |Block(f, i)| < BLOCK_SIZE && offset <= end
    ensures Wanted(f, offset, end, i + 1) == Slice(f, offset, end - offset)
  {
  }

  lemma WantedStart(f: File, offset: nat, end: nat)
    ensures Wanted(f, offset, end, offset / BLOCK_SIZE) == []
  {
  }

  lemma WantedEnd(f: File, offset: nat, end: nat, last: nat)
    requires offset <= end && last == (if end == 0 then 0 else end - 1) / BLOCK_SIZE
    ensures forall i: nat | last < i :: Wanted(f, offset, end, i) == Slice(f, offset, end - offset)
  {
  }

  lemma WantedPrefix(f: File, offset: nat, end: nat, i: nat)
    requires offset <= end
    ensures Wanted(f, offset, end, i) <= Slice(f, offset, end - offset)
  {
  }
}
