/** The frames of a streamed write: how many of those that arrive are written, and how the daemon
    announces what it has written. */
module Streams {
  import opened Bytes
  import opened Ranges

  /** Bytes written before a streamed write announces what it has. */
  const STREAM_ANNOUNCE_BYTES: nat := 4194304
  /** Size of the frames a streamed write is sent in. */
  const STREAM_WRITE_CHUNK_SIZE: nat := 1048576

  /** An announced range. */
  datatype Tile = Tile(offset: nat, len: int)

  /** How many of the arriving frames are written: until they make up the length, run out, or the
      next one overshoots. */
  function Taken(frames: seq<File>, len: nat): (n: nat)
    ensures n <= |frames|
  {
    if len == 0 || frames == [] || |frames[0]| > len then 0 else 1 + Taken(frames[1..], len - |frames[0]|)
  }

  function Written(frames: seq<File>, len: nat): File {
    Concat(frames[..Taken(frames, len)])
  }

  /** Bytes announced while these frames are written one after the other. */
  function Told(frames: seq<File>): nat {
    if frames == [] then
      0
    else
      var told := Told(frames[..|frames| - 1]);
      if |Concat(frames)| - told >= STREAM_ANNOUNCE_BYTES then |Concat(frames)| else told
  }

  /** The announcements made meanwhile. */
  function Tiles(offset: nat, frames: seq<File>): seq<Tile> {
    if frames == [] then
      []
    else
      var init := frames[..|frames| - 1];
      var told := Told(init);
      if |Concat(frames)| - told >= STREAM_ANNOUNCE_BYTES then
        Tiles(offset, init) + [Tile(offset + told, |Concat(frames)| - told)]
      else
        Tiles(offset, init)
  }

  /** All announcements of a stream of `len` bytes of which these frames were written: a complete
      one announces the rest at its end, an empty one its offset. */
  function Announcements(offset: nat, len: nat, frames: seq<File>): seq<Tile> {
    if |Concat(frames)| == len && (len > Told(frames) || len == 0) then
      Tiles(offset, frames) + [Tile(offset + Told(frames), len - Told(frames))]
    else
      Tiles(offset, frames)
  }

  /** How much of what was written is announced. */
  function Announced(len: nat, frames: seq<File>): nat {
    if |Concat(frames)| == len then len else Told(frames)
  }

  /** Do the announcements follow each other without gap or overlap from one offset to the other? */
  predicate Tiling(tiles: seq<Tile>, from: nat, to: int) {
    if tiles == [] then
      from == to
    else
      tiles[|tiles| - 1].offset + tiles[|tiles| - 1].len == to &&
        Tiling(tiles[..|tiles| - 1], from, tiles[|tiles| - 1].offset)
  }

  // ------------------------------------------------------------------ what is written

  /** The frames written stay within the length, and they are all that arrived before the length
      was made up or would have been exceeded. */
  lemma {:induction false} TakenExactly(frames: seq<File>, len: nat, n: nat)
    requires n <= |frames|
    ensures n == Taken(frames, len) <==>
      && |Concat(frames[..n])| <= len
      && (forall m: nat :: m < n ==> |Concat(frames[..m])| < len)
      && (n == |frames| || |Concat(frames[..n])| == len || |Concat(frames[..n + 1])| > len)
  {
    TakenStops(frames, len);
    var k := Taken(frames, len);
    if n < k {
      TakenBelow(frames, len, n + 1);
    } else if k < n {
      ConcatGrows(frames, k + 1, n);
    }
  }

  lemma {:induction false} TakenBelow(frames: seq<File>, len: nat, m: nat)
    requires m <= Taken(frames, len)
    ensures |Concat(frames[..m])| <= len
    ensures m < Taken(frames, len) ==> |Concat(frames[..m])| < len
  {
    if m > 0 {
      TakenBelow(frames[1..], len - |frames[0]|, m - 1);
      assert frames[..m][1..] == frames[1..][..m - 1];
    }
  }

  lemma {:induction false} TakenStops(frames: seq<File>, len: nat)
    ensures var n := Taken(frames, len);
      && |Concat(frames[..n])| <= len
      && (forall m: nat :: m < n ==> |Concat(frames[..m])| < len)
      && (n == |frames| || |Concat(frames[..n])| == len || |Concat(frames[..n + 1])| > len)
  {
    var n := Taken(frames, len);
    forall m: nat | m <= n
      ensures |Concat(frames[..m])| <= len && (m < n ==> |Concat(frames[..m])| < len)
    {
      TakenBelow(frames, len, m);
    }
    TakenEnds(frames, len);
  }

  lemma {:induction false} TakenEnds(frames: seq<File>, len: nat)
    ensures var n := Taken(frames, len);
      n == |frames| || |Concat(frames[..n])| == len || |Concat(frames[..n + 1])| > len
  {
    var n := Taken(frames, len);
    if frames != [] {
      if len > 0 && |frames[0]| <= len {
        TakenEnds(frames[1..], len - |frames[0]|);
        assert frames[..n][1..] == frames[1..][..n - 1];
        if n < |frames| {
          assert frames[..n + 1][1..] == frames[1..][..n];
        }
      } else if len > 0 {
        assert frames[..1] == [frames[0]] && [frames[0]][1..] == [];
      }
    }
  }

  /** One turn of the loop over the frames. */
  lemma NextTaken(frames: seq<File>, len: nat, k: nat)
    requires k <= |frames| && |Concat(frames[..k])| <= len
    requires Taken(frames, len) == k + Taken(frames[k..], len - |Concat(frames[..k])|)
    ensures k < |frames| ==> |Concat(frames[..k + 1])| == |Concat(frames[..k])| + |frames[k]|
    ensures var written := |Concat(frames[..k])|;
      if written == len || k == |frames| || written + |frames[k]| > len
      then Taken(frames, len) == k
      else Taken(frames, len) == k + 1 + Taken(frames[k + 1..], len - |Concat(frames[..k + 1])|)
  {
    if k < |frames| {
      ConcatSnoc(frames, k);
      assert frames[k..][1..] == frames[k + 1..];
    }
  }

  /** Writing the next frame behind the others writes their concatenation. */
  lemma FrameContent(f: File, offset: nat, frames: seq<File>, k: nat)
    requires k < |frames|
    ensures WriteAt(WriteAt(f, offset, Concat(frames[..k])), offset + |Concat(frames[..k])|, frames[k])
      == WriteAt(f, offset, Concat(frames[..k + 1]))
  {
    hide WriteAt, Concat;
    ConcatSnoc(frames, k);
    AdjacentWritesMerge(f, offset, Concat(frames[..k]), frames[k]);
  }

  // ------------------------------------------------------------------ what is announced

  lemma ConcatLast(frames: seq<File>)
    requires frames != []
    ensures |Concat(frames)| == |Concat(frames[..|frames| - 1])| + |frames[|frames| - 1]|
  {
    ConcatSnoc(frames, |frames| - 1);
    assert frames[..|frames|] == frames;
  }

  lemma {:induction false} ToldBound(frames: seq<File>)
    ensures Told(frames) <= |Concat(frames)| < Told(frames) + STREAM_ANNOUNCE_BYTES
  {
    if frames != [] {
      ToldBound(frames[..|frames| - 1]);
      ConcatLast(frames);
    }
  }

  lemma {:induction false} TilesTile(offset: nat, frames: seq<File>)
    ensures Tiling(Tiles(offset, frames), offset, offset + Told(frames))
    ensures Tiles(offset, frames) == [] <==> Told(frames) == 0
  {
    NothingTiled(offset);
    hide Concat, Tiling;
    if frames != [] {
      var init := frames[..|frames| - 1];
      TilesTile(offset, init);
      ToldBound(init);
      ConcatLast(frames);
      TilingSnoc(Tiles(offset, init), offset, offset + Told(init), |Concat(frames)| - Told(init));
    }
  }

  lemma NothingTiled(offset: nat)
    ensures Tiling([], offset, offset)
  {
  }

  lemma TilingSnoc(tiles: seq<Tile>, from: nat, at: nat, len: int)
    requires Tiling(tiles, from, at)
    ensures len >= 0 ==> Tiling(tiles + [Tile(at, len)], from, at + len)
  {
    if len >= 0 {
      assert (tiles + [Tile(at, len)])[..|tiles|] == tiles;
    }
  }

  /** The announcements tile what they announce.  A complete stream announces everything, in at
      least one announcement; one that is cut leaves less than STREAM_ANNOUNCE_BYTES out. */
  lemma AnnouncementsTile(offset: nat, len: nat, frames: seq<File>)
    requires |Concat(frames)| <= len
    ensures Tiling(Announcements(offset, len, frames), offset, offset + Announced(len, frames))
    ensures |Concat(frames)| == len ==> Announced(len, frames) == len && Announcements(offset, len, frames) != []
    ensures Announced(len, frames) <= |Concat(frames)| < Announced(len, frames) + STREAM_ANNOUNCE_BYTES
  {
    TilesTile(offset, frames);
    ToldBound(frames);
    TilingSnoc(Tiles(offset, frames), offset, offset + Told(frames), len - Told(frames));
  }

  /** What a client's stream leaves unannounced when it is cut after m of its frames: everything
      written is announced if and only if the stream was complete or m is a multiple of four. */
  lemma CutAnnouncedExactly(data: File, m: nat)
    requires m <= |Chunks(data, STREAM_WRITE_CHUNK_SIZE)|
    ensures var sent := Chunks(data, STREAM_WRITE_CHUNK_SIZE)[..m];
      && Taken(sent, |data|) == m
      && (Announced(|data|, sent) == |Concat(sent)| <==> m == |Chunks(data, STREAM_WRITE_CHUNK_SIZE)| || m % 4 == 0)
      && (m < |Chunks(data, STREAM_WRITE_CHUNK_SIZE)| ==>
        |Concat(sent)| - Announced(|data|, sent) == m % 4 * STREAM_WRITE_CHUNK_SIZE)
  {
    var all := Chunks(data, STREAM_WRITE_CHUNK_SIZE);
    hide Chunks, Concat, Taken, Told;
    SentTaken(data, all, m);
    SentPrefix(data, all, m);
    if m < |all| {
      SentBelow(data, all, m);
      FullFramesTold(all[..m]);
    }
  }

  lemma SentBelow(data: File, all: seq<File>, m: nat)
    requires all == Chunks(data, STREAM_WRITE_CHUNK_SIZE) && m < |all|
    ensures |Concat(all[..m])| < |data|
    ensures forall i: nat :: i < m ==> |all[i]| == STREAM_WRITE_CHUNK_SIZE
  {
    ChunksFaithful(data, STREAM_WRITE_CHUNK_SIZE);
    hide Chunks, Concat;
    assert all[..|all|] == all;
    ConcatSnoc(all, m);
    assert all[m] in all;
    ConcatGrows(all, m + 1, |all|);
  }

  lemma SentTaken(data: File, all: seq<File>, m: nat)
    requires all == Chunks(data, STREAM_WRITE_CHUNK_SIZE) && m <= |all|
    ensures Taken(all[..m], |data|) == m
  {
    hide Chunks, Concat, Taken;
    forall k: nat | k < m
      ensures |Concat(all[..m][..k])| < |data|
    {
      assert all[..m][..k] == all[..k];
      SentBelow(data, all, k);
    }
    assert all[..m][..m] == all[..m];
    SentPrefix(data, all, m);
    TakenExactly(all[..m], |data|, m);
  }

  lemma SentPrefix(data: File, all: seq<File>, m: nat)
    requires all == Chunks(data, STREAM_WRITE_CHUNK_SIZE) && m <= |all|
    ensures Concat(all[..m]) <= data
    ensures m == |all| ==> Concat(all[..m]) == data
  {
    ChunksFaithful(data, STREAM_WRITE_CHUNK_SIZE);
    hide Chunks, Concat;
    assert all == all[..m] + all[m..];
    assert all[..|all|] == all;
    ConcatAppend(all[..m], all[m..]);
  }

  /** The first m frames of a stream carry its first m frame sizes of bytes. */
  lemma {:induction false} SentBytes(data: File, all: seq<File>, m: nat)
    requires all == Chunks(data, STREAM_WRITE_CHUNK_SIZE) && m <= |all|
    ensures Concat(all[..m]) == data[..Min(|data|, m * STREAM_WRITE_CHUNK_SIZE)]
    ensures |data| <= |all| * STREAM_WRITE_CHUNK_SIZE
    decreases m, |all|
  {
    if |data| > STREAM_WRITE_CHUNK_SIZE {
      var rest := data[STREAM_WRITE_CHUNK_SIZE..];
      SentBytes(rest, all[1..], if m == 0 then 0 else m - 1);
      if m > 0 {
        assert all[..m] == [all[0]] + all[1..][..m - 1];
      }
    }
  }

  /** Of full frames every fourth announces. */
  lemma {:induction false} FullFramesTold(frames: seq<File>)
    requires forall i: nat :: i < |frames| ==> |frames[i]| == STREAM_WRITE_CHUNK_SIZE
    ensures |Concat(frames)| == |frames| * STREAM_WRITE_CHUNK_SIZE
    ensures Told(frames) == |frames| / 4 * STREAM_ANNOUNCE_BYTES
  {
    if frames != [] {
      FullFramesTold(frames[..|frames| - 1]);
      ConcatLast(frames);
    }
  }
}
