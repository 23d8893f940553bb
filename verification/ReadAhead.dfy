/** Read-ahead: the window kept per file and the batches scheduled after a read. */
module ReadAhead {
  import opened Bytes
  import opened Wrappers

  /** A half-open range of blocks. */
  datatype Batch = Batch(first: nat, end: nat)

  datatype Outcome = Off | Aborted | Scheduled(tiles: seq<Batch>, started: seq<Batch>)

  function AbsDiff(a: nat, b: nat): nat {
    if a < b then b - a else a - b
  }

  /** Restricting to an interval aborts when the interval is empty. */
  function Clamp(x: nat, lo: nat, hi: nat): Option<nat> {
    if hi < lo then None else Some(Max(lo, Min(x, hi)))
  }

  /** Consecutive non-empty batches from one block to another. */
  predicate Tiling(tiles: seq<Batch>, from: nat, to: nat) {
    if tiles == [] then
      from == to
    else
      var t := tiles[|tiles| - 1];
      t.first < t.end == to && Tiling(tiles[..|tiles| - 1], from, t.first)
  }

  predicate InOneBatch(t: Batch) {
    t.first < t.end && t.first / PREFETCH_BATCH_BLOCKS == (t.end - 1) / PREFETCH_BATCH_BLOCKS
  }

  predicate AnyMissing(t: Batch, cached: set<nat>) {
    exists i :: t.first <= i < t.end && i !in cached
  }

  lemma {:induction false} TilingCovers(tiles: seq<Batch>, from: nat, to: nat, b: nat)
    requires Tiling(tiles, from, to)
    ensures from <= to
    ensures from <= b < to <==> exists t <- tiles :: t.first <= b < t.end
    ensures forall i: nat, j: nat :: i < j < |tiles| ==> tiles[i].end <= tiles[j].first
  {
    if tiles != [] {
      var init, last := tiles[..|tiles| - 1], tiles[|tiles| - 1];
      TilingCovers(init, from, last.first, b);
      assert tiles == init + [last];
      TilingOrdered(tiles, from, to);
    }
  }

  lemma {:induction false} TilingOrdered(tiles: seq<Batch>, from: nat, to: nat)
    requires Tiling(tiles, from, to)
    ensures forall i: nat, j: nat :: i < j < |tiles| ==> tiles[i].end <= tiles[j].first
  {
    if tiles != [] {
      var init, last := tiles[..|tiles| - 1], tiles[|tiles| - 1];
      TilingOrdered(init, from, last.first);
      forall i: nat, j: nat | i < j < |tiles|
        ensures tiles[i].end <= tiles[j].first
      {
        if j == |tiles| - 1 {
          TilingEnds(init, from, last.first, i);
        } else {
          assert tiles[i] == init[i] && tiles[j] == init[j];
        }
      }
    }
  }

  lemma TilingSnoc(tiles: seq<Batch>, from: nat, t: Batch)
    requires Tiling(tiles, from, t.first) && t.first < t.end
    ensures Tiling(tiles + [t], from, t.end)
  {
    assert (tiles + [t])[..|tiles|] == tiles;
  }

  lemma {:induction false} TilingEnds(tiles: seq<Batch>, from: nat, to: nat, i: nat)
    requires Tiling(tiles, from, to) && i < |tiles|
    ensures tiles[i].end <= to
  {
    if i < |tiles| - 1 {
      TilingEnds(tiles[..|tiles| - 1], from, tiles[|tiles| - 1].first, i);
    }
  }

  /** Is a tile within one aligned batch and within what may be read ahead? */
  predicate Within(t: Batch, horizon: nat, window: nat, fileSize: Option<nat>) {
    && InOneBatch(t)
    && t.end <= horizon + PREFETCH_BATCH_BLOCKS
    && (window < PREFETCH_BATCH_BLOCKS ==> t.end <= horizon + 1)
    && (fileSize.Some? ==> t.end <= LastBlock(fileSize.value) + 1)
  }

  /** The tiles to be fetched: those with a missing block that are not queued already. */
  function Wanted(tiles: seq<Batch>, cached: set<nat>, queued: set<nat>): seq<Batch> {
    if tiles == [] then
      []
    else
      var t := tiles[|tiles| - 1];
      Wanted(tiles[..|tiles| - 1], cached, queued) + if AnyMissing(t, cached) && t.first !in queued then [t] else []
  }

  lemma WantedSnoc(tiles: seq<Batch>, t: Batch, cached: set<nat>, queued: set<nat>)
    ensures Wanted(tiles + [t], cached, queued)
         == Wanted(tiles, cached, queued) + if AnyMissing(t, cached) && t.first !in queued then [t] else []
  {
    assert (tiles + [t])[..|tiles|] == tiles;
  }

  lemma {:induction false} WantedExactly(tiles: seq<Batch>, cached: set<nat>, queued: set<nat>, t: Batch)
    ensures t in Wanted(tiles, cached, queued) <==>
      t in tiles && t.first !in queued && exists b: nat :: t.first <= b < t.end && b !in cached
  {
    if tiles != [] {
      WantedExactly(tiles[..|tiles| - 1], cached, queued, t);
      assert tiles == tiles[..|tiles| - 1] + [tiles[|tiles| - 1]];
    }
  }

  class Reader {
    var nextOffset: nat
    var window: nat
    var epoch: nat
    const most: nat

    /** The window never exceeds the configured maximum. */
    predicate Valid()
      reads this
    {
      window <= most
    }

    constructor (most: nat)
      ensures Valid() && this.most == most && nextOffset == 0 && window == 0 && epoch == 0
    {
      this.most, nextOffset, window, epoch := most, 0, 0, 0;
    }

    /** Is the read close to where the previous one ended? */
    predicate Sequential(offset: nat)
      reads this
    {
      offset <= nextOffset + 2 * BLOCK_SIZE && nextOffset <= offset + 2 * BLOCK_SIZE
    }

    /** The window after a read, or None where the clamp aborts. */
    method Advance(offset: nat, size: nat) returns (ok: bool)
      requires Valid() && most > 0
      modifies this
      ensures Valid()
      ensures ok <==> !(old(Sequential(offset)) && most == 1)
      ensures ok ==> nextOffset == offset + size && 1 <= window
      ensures ok && old(Sequential(offset)) ==> epoch == old(epoch) && window == Max(2, Min(old(window) * 2, most))
      ensures ok && !old(Sequential(offset)) ==> epoch == old(epoch) + 1 && window == 1
    {
      if AbsDiff(offset, nextOffset) <= 2 * BLOCK_SIZE {
        var clamped := Clamp(window * 2, 2, most);
        if clamped == None {
          return false;
        }
        window := clamped.value;
      } else {
        epoch := epoch + 1;
        window := 1;
      }
      nextOffset := offset + size;
      return true;
    }

    /** Schedules what lies ahead of a read.  It aborts if and only if the maximum window is one
        block and the read is sequential.  Otherwise the tiles are consecutive, non-empty, each
        within one aligned batch; they start behind the block just read, reach the horizon if
        that lies ahead, and never pass the last block; and exactly the tiles with a missing block
        that are not queued already are started. */
    method Schedule(offset: nat, size: nat, fileSize: Option<nat>, cached: set<nat>, queued: set<nat>)
        returns (r: Outcome)
      requires Valid()
      modifies this
      ensures Valid()
      ensures r.Off? <==> most == 0
      ensures r.Off? ==> unchanged(this)
      ensures r.Scheduled? ==> nextOffset == offset + size
      ensures r.Scheduled? && old(Sequential(offset)) ==>
        epoch == old(epoch) && window == Max(2, Min(old(window) * 2, most))
      ensures r.Scheduled? && !old(Sequential(offset)) ==> epoch == old(epoch) + 1 && window == 1
      ensures r.Aborted? <==> most == 1 && old(Sequential(offset))
      ensures r.Scheduled? ==>
        var current := (offset + Max(size, 1) - 1) / BLOCK_SIZE;
        var horizon := if fileSize.Some? then Min(current + window, (Max(fileSize.value, 1) - 1) / BLOCK_SIZE)
          else current + window;
        && Touches(offset, size, current) && !Touches(offset, size, current + 1)
        && (horizon <= current ==> r.tiles == [])
        && (current < horizon ==> r.tiles != [] && r.tiles[|r.tiles| - 1].end > horizon)
        && (r.tiles != [] ==> Tiling(r.tiles, current + 1, r.tiles[|r.tiles| - 1].end))
        && (forall t <- r.tiles ::
              && t.first < t.end && t.first / PREFETCH_BATCH_BLOCKS == (t.end - 1) / PREFETCH_BATCH_BLOCKS
              && t.end <= horizon + PREFETCH_BATCH_BLOCKS && (window < PREFETCH_BATCH_BLOCKS ==> t.end <= horizon + 1)
              && (fileSize.Some? ==> t.end <= (Max(fileSize.value, 1) - 1) / BLOCK_SIZE + 1))
      ensures r.Scheduled? ==> r.started == Wanted(r.tiles, cached, queued)
    {
      if most == 0 {
        return Off;
      }
      var ok := Advance(offset, size);
      if !ok {
        return Aborted;
      }
      var current := LastRead(offset, size);
      var horizon := if fileSize.Some? then Min(current + window, LastBlock(fileSize.value)) else current + window;
      var tiles, started := ScheduleLoop(current + 1, horizon, window, fileSize, cached, queued);
      return Scheduled(tiles, started);
    }
  }

  function LastRead(offset: nat, size: nat): nat {
    (offset + (if size == 0 then 0 else size - 1)) / BLOCK_SIZE
  }

  method ScheduleLoop(start: nat, horizon: nat, window: nat, fileSize: Option<nat>, cached: set<nat>, queued: set<nat>)
    returns (tiles: seq<Batch>, started: seq<Batch>)
    requires fileSize.Some? ==> horizon <= LastBlock(fileSize.value)
    ensures horizon < start ==> tiles == []
    ensures start <= horizon ==> tiles != [] && tiles[|tiles| - 1].end > horizon
    ensures tiles != [] ==> Tiling(tiles, start, tiles[|tiles| - 1].end)
    ensures forall t <- tiles :: Within(t, horizon, window, fileSize)
    ensures started == Wanted(tiles, cached, queued)
  {
    tiles, started := [], [];
    var first := start;
    hide Within, Wanted, AnyMissing;
    NoneWanted(start, cached, queued);
    while first <= horizon
      invariant Tiling(tiles, start, first) && (tiles != [] ==> tiles[|tiles| - 1].end == first)
      invariant tiles == [] <==> first == start
      invariant horizon < start ==> tiles == []
      invariant forall t <- tiles :: Within(t, horizon, window, fileSize)
      invariant started == Wanted(tiles, cached, queued)
      decreases horizon + 1 - first
    {
      var batchEnd := (first / PREFETCH_BATCH_BLOCKS + 1) * PREFETCH_BATCH_BLOCKS;
      var end := if window >= PREFETCH_BATCH_BLOCKS then batchEnd else Min(batchEnd, horizon + 1);
      end := if fileSize.Some? then Min(end, LastBlock(fileSize.value) + 1) else end;
      var run := Batch(first, end);
      TileWithin(run, horizon, window, fileSize);
      TilingSnoc(tiles, start, run);
      WantedSnoc(tiles, run, cached, queued);
      hide Tiling;
      first := end;
      tiles := tiles + [run];
      var missing := AnyMissing(run, cached);
      if !missing || run.first in queued {
        continue;
      }
      started := started + [run];
    }
  }

  lemma NoneWanted(start: nat, cached: set<nat>, queued: set<nat>)
    ensures Wanted([], cached, queued) == [] && Tiling([], start, start)
  {
  }

  /** One turn of the scheduling loop gets ahead and stays within one batch. */
  lemma TileWithin(run: Batch, horizon: nat, window: nat, fileSize: Option<nat>)
    requires run.first <= horizon && (fileSize.Some? ==> horizon <= LastBlock(fileSize.value))
    requires var batchEnd := (run.first / PREFETCH_BATCH_BLOCKS + 1) * PREFETCH_BATCH_BLOCKS;
      var end := if window >= PREFETCH_BATCH_BLOCKS then batchEnd else Min(batchEnd, horizon + 1);
      run.end == if fileSize.Some? then Min(end, LastBlock(fileSize.value) + 1) else end
    ensures run.first < run.end && Within(run, horizon, window, fileSize)
  {
  }
}
