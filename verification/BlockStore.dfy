/** The block store: cached blocks indexed by key and by the tick of their last use.  It
    behaves as a plain list of blocks, least recently used first. */
module BlockStore {
  import opened Bytes
  import opened Wrappers
  import Mount
  import opened Paths
  import Uploads

  type Key = Mount.Key

  datatype Cached = Cached(data: File, tick: nat)

  /** One line of the reference cache. */
  datatype Entry = Entry(key: Key, data: File)

  // ------------------------------------------------------------------ the reference cache

  function Size(l: seq<Entry>): nat {
    if l == [] then 0 else |l[0].data| + Size(l[1..])
  }

  predicate Distinct(l: seq<Entry>) {
    forall i: nat, j: nat :: i < j < |l| ==> l[i].key != l[j].key
  }

  predicate HasKey(l: seq<Entry>, k: Key) {
    exists i: nat :: i < |l| && l[i].key == k
  }

  function Without(l: seq<Entry>, keys: set<Key>): seq<Entry> {
    if l == [] then
      []
    else
      var rest := Without(l[..|l| - 1], keys);
      if l[|l| - 1].key in keys then rest else rest + [l[|l| - 1]]
  }

  /** Drops least recently used entries until the rest fits. */
  function Evict(l: seq<Entry>, capacity: nat): seq<Entry> {
    if l == [] || Size(l) <= capacity then l else Evict(l[1..], capacity)
  }

  function Insert(l: seq<Entry>, k: Key, data: File, capacity: nat): seq<Entry> {
    Evict(Without(l, {k}) + [Entry(k, data)], capacity)
  }

  lemma {:induction false} SizeAppend(a: seq<Entry>, b: seq<Entry>)
    ensures Size(a + b) == Size(a) + Size(b)
  {
    if a == [] {
      assert a + b == b;
    } else {
      assert (a + b)[1..] == a[1..] + b;
      SizeAppend(a[1..], b);
    }
  }

  lemma SizeLast(l: seq<Entry>)
    requires l != []
    ensures Size(l) == Size(l[..|l| - 1]) + |l[|l| - 1].data|
  {
    assert l == l[..|l| - 1] + [l[|l| - 1]];
    SizeAppend(l[..|l| - 1], [l[|l| - 1]]);
    assert Size([l[|l| - 1]]) == |l[|l| - 1].data|;
  }

  /** Eviction removes the shortest prefix of least recently used entries whose removal
      restores the bound. */
  lemma {:induction false} EvictShortest(l: seq<Entry>, capacity: nat)
    ensures Size(Evict(l, capacity)) <= capacity
    ensures |Evict(l, capacity)| <= |l| && Evict(l, capacity) == l[|l| - |Evict(l, capacity)|..]
    ensures forall m: nat :: m < |l| - |Evict(l, capacity)| ==> Size(l[m..]) > capacity
  {
    if l != [] && Size(l) > capacity {
      EvictShortest(l[1..], capacity);
      forall m: nat | m < |l| - |Evict(l, capacity)|
        ensures Size(l[m..]) > capacity
      {
        if m == 0 {
          assert l[0..] == l;
        } else {
          assert l[m..] == l[1..][m - 1..];
        }
      }
    }
  }

  /** What was just inserted stays if and only if it fits at all. */
  lemma InsertedStays(l: seq<Entry>, k: Key, data: File, capacity: nat)
    ensures HasKey(Insert(l, k, data, capacity), k) <==> |data| <= capacity
    ensures HasKey(Insert(l, k, data, capacity), k) ==>
      Insert(l, k, data, capacity)[|Insert(l, k, data, capacity)| - 1] == Entry(k, data)
  {
    var all := Without(l, {k}) + [Entry(k, data)];
    var kept := Insert(l, k, data, capacity);
    EvictShortest(all, capacity);
    WithoutHas(l, {k}, k);
    assert all[|all| - 1..] == [Entry(k, data)];
    assert Size([Entry(k, data)]) == |data|;
    if |data| <= capacity {
      assert kept != [];
      assert kept[|kept| - 1] == all[|all| - 1];
    } else if kept != [] {
      SizeLast(kept);
    }
  }

  lemma HasKeyLast(l: seq<Entry>, k: Key)
    requires l != []
    ensures HasKey(l, k) <==> HasKey(l[..|l| - 1], k) || l[|l| - 1].key == k
    ensures Distinct(l) <==> Distinct(l[..|l| - 1]) && !HasKey(l[..|l| - 1], l[|l| - 1].key)
  {
    var init, last := l[..|l| - 1], l[|l| - 1];
    assert l == init + [last];
    assert forall i: nat :: i < |init| ==> init[i] == l[i];
  }

  lemma {:induction false} WithoutHas(l: seq<Entry>, keys: set<Key>, k: Key)
    ensures HasKey(Without(l, keys), k) <==> HasKey(l, k) && k !in keys
    ensures Distinct(l) ==> Distinct(Without(l, keys))
  {
    if l != [] {
      var last := l[|l| - 1];
      WithoutHas(l[..|l| - 1], keys, k);
      WithoutHas(l[..|l| - 1], keys, last.key);
      HasKeyLast(l, k);
      HasKeyLast(l, last.key);
      var w := Without(l[..|l| - 1], keys);
      if last.key !in keys {
        assert (w + [last])[..|w|] == w;
        HasKeyLast(w + [last], k);
      }
    }
  }

  lemma {:induction false} WithoutTwice(l: seq<Entry>, a: set<Key>, b: set<Key>)
    ensures Without(Without(l, a), b) == Without(l, a + b)
  {
    if l != [] {
      var init, last := l[..|l| - 1], l[|l| - 1];
      WithoutTwice(init, a, b);
      var w := Without(init, a);
      assert (w + [last])[..|w|] == w;
    }
  }

  lemma {:induction false} WithoutNothing(l: seq<Entry>, keys: set<Key>)
    requires forall e <- l :: e.key !in keys
    ensures Without(l, keys) == l
  {
    if l != [] {
      WithoutNothing(l[..|l| - 1], keys);
      assert l == l[..|l| - 1] + [l[|l| - 1]];
    }
  }

  lemma {:induction false} WithoutSize(l: seq<Entry>, i: nat)
    requires Distinct(l) && i < |l|
    ensures Size(Without(l, {l[i].key})) + |l[i].data| == Size(l)
  {
    var init, last := l[..|l| - 1], l[|l| - 1];
    SizeLast(l);
    HasKeyLast(l, last.key);
    if i == |l| - 1 {
      WithoutNothing(init, {last.key});
    } else {
      WithoutSize(init, i);
      assert init[i] == l[i];
      SizeLast(Without(init, {l[i].key}) + [last]);
      assert (Without(init, {l[i].key}) + [last])[..|Without(init, {l[i].key})|] == Without(init, {l[i].key});
    }
  }

  // ------------------------------------------------------------------ the two indexes

  /** Do the two indexes name the same blocks, tick by tick? */
  predicate Linked(blocks: map<Key, Cached>, lru: map<nat, Key>) {
    && (forall k <- blocks :: blocks[k].tick in lru && lru[blocks[k].tick] == k)
    && (forall t <- lru :: lru[t] in blocks && blocks[lru[t]].tick == t)
  }

  /** The blocks last used at tick n or before, in that order. */
  function Recency(blocks: map<Key, Cached>, lru: map<nat, Key>, n: nat): seq<Entry>
    requires Linked(blocks, lru)
  {
    if n == 0 then
      []
    else
      Recency(blocks, lru, n - 1) + (if n in lru then [Entry(lru[n], blocks[lru[n]].data)] else [])
  }

  /** The list holds exactly the cached blocks used by then, once each. */
  lemma {:induction false} RecencyHas(blocks: map<Key, Cached>, lru: map<nat, Key>, n: nat)
    requires Linked(blocks, lru)
    ensures forall e <- Recency(blocks, lru, n) ::
      e.key in blocks && blocks[e.key].data == e.data && 1 <= blocks[e.key].tick <= n
    ensures forall k <- blocks :: 1 <= blocks[k].tick <= n ==> Entry(k, blocks[k].data) in Recency(blocks, lru, n)
    ensures Distinct(Recency(blocks, lru, n))
  {
    if n > 0 {
      RecencyHas(blocks, lru, n - 1);
      var l := Recency(blocks, lru, n - 1);
      if n in lru {
        assert forall i: nat :: i < |l| ==> l[i] in l;
        assert forall k <- blocks :: blocks[k].tick == n ==> k == lru[n];
      }
    }
  }

  lemma {:induction false} RecencyDrop(blocks: map<Key, Cached>, lru: map<nat, Key>, n: nat, k: Key)
    requires Linked(blocks, lru) && k in blocks
    ensures Linked(blocks - {k}, lru - {blocks[k].tick})
    ensures Recency(blocks - {k}, lru - {blocks[k].tick}, n) == Without(Recency(blocks, lru, n), {k})
  {
    if n > 0 {
      RecencyDrop(blocks, lru, n - 1, k);
      var l := Recency(blocks, lru, n - 1);
      if n in lru {
        assert lru[n] == k <==> n == blocks[k].tick;
        var all := l + [Entry(lru[n], blocks[lru[n]].data)];
        assert all[..|all| - 1] == l && Recency(blocks, lru, n) == all;
      } else {
        assert Recency(blocks, lru, n) == l;
      }
    }
  }

  lemma {:induction false} RecencyFrame(blocks: map<Key, Cached>, lru: map<nat, Key>, n: nat, k: Key, c: Cached)
    requires Linked(blocks, lru) && k !in blocks && c.tick !in lru && n < c.tick
    ensures Linked(blocks[k := c], lru[c.tick := k])
    ensures Recency(blocks[k := c], lru[c.tick := k], n) == Recency(blocks, lru, n)
  {
    if n > 0 {
      RecencyFrame(blocks, lru, n - 1, k, c);
    }
  }

  /** A block used at a fresh tick joins at the end. */
  lemma RecencyPush(blocks: map<Key, Cached>, lru: map<nat, Key>, n: nat, k: Key, data: File)
    requires Linked(blocks, lru) && k !in blocks && forall t <- lru :: t <= n
    ensures Linked(blocks[k := Cached(data, n + 1)], lru[n + 1 := k])
    ensures Recency(blocks[k := Cached(data, n + 1)], lru[n + 1 := k], n + 1)
      == Recency(blocks, lru, n) + [Entry(k, data)]
  {
    RecencyFrame(blocks, lru, n, k, Cached(data, n + 1));
  }

  lemma RecencyEmpty(n: nat)
    ensures Recency(map[], map[], n) == []
  {
  }

  /** The smallest tick is the head of the list. */
  lemma {:induction false} RecencyHead(blocks: map<Key, Cached>, lru: map<nat, Key>, n: nat, t: nat)
    requires Linked(blocks, lru) && t in lru && forall u <- lru :: 1 <= t <= u
    ensures n < t ==> Recency(blocks, lru, n) == []
    ensures t <= n ==> Recency(blocks, lru, n) != [] && Recency(blocks, lru, n)[0] == Entry(lru[t], blocks[lru[t]].data)
  {
    if n > 0 {
      RecencyHead(blocks, lru, n - 1, t);
    }
  }

  lemma {:induction false} WithoutHead(l: seq<Entry>)
    requires Distinct(l) && l != []
    ensures Without(l, {l[0].key}) == l[1..]
  {
    var init := l[..|l| - 1];
    if |l| > 1 {
      WithoutHead(init);
      assert init[1..] + [l[|l| - 1]] == l[1..];
    }
  }

  lemma {:induction false} Least(s: set<nat>) returns (t: nat)
    requires s != {}
    ensures t in s && forall u <- s :: t <= u
    decreases |s|
  {
    t :| t in s;
    if s != {t} {
      var u := Least(s - {t});
      assert s == {t} + (s - {t});
      if u < t {
        t := u;
      }
    }
  }

  /** Moving a block to a fresh tick moves it to the end and changes no size. */
  lemma RecencyTouch(blocks: map<Key, Cached>, lru: map<nat, Key>, n: nat, k: Key)
    requires Linked(blocks, lru) && k in blocks && forall t <- lru :: 1 <= t <= n
    ensures var b, l := blocks[k := Cached(blocks[k].data, n + 1)], (lru - {blocks[k].tick})[n + 1 := k];
      && Linked(b, l)
      && Recency(b, l, n + 1) == Without(Recency(blocks, lru, n), {k}) + [Entry(k, blocks[k].data)]
      && Size(Recency(b, l, n + 1)) == Size(Recency(blocks, lru, n))
  {
    var b, l := blocks - {k}, lru - {blocks[k].tick};
    RecencyDrop(blocks, lru, n, k);
    RecencyPush(b, l, n, k, blocks[k].data);
    assert blocks[k := Cached(blocks[k].data, n + 1)] == b[k := Cached(blocks[k].data, n + 1)];
    SizeAppend(Recency(b, l, n), [Entry(k, blocks[k].data)]);
    RemovalShrinks(blocks, lru, n, k);
  }

  lemma RemovalShrinks(blocks: map<Key, Cached>, lru: map<nat, Key>, n: nat, k: Key)
    requires Linked(blocks, lru) && k in blocks && 1 <= blocks[k].tick <= n
    ensures Size(Without(Recency(blocks, lru, n), {k})) + |blocks[k].data| == Size(Recency(blocks, lru, n))
  {
    var l := Recency(blocks, lru, n);
    RecencyHas(blocks, lru, n);
    var i: nat :| i < |l| && l[i] == Entry(k, blocks[k].data);
    WithoutSize(l, i);
  }

  function CachedPaths(blocks: map<Key, Cached>): set<Path> {
    set k <- blocks :: k.0
  }

  function BumpAll(generations: map<Path, nat>, paths: set<Path>): map<Path, nat> {
    map p | p in generations.Keys + paths :: Mount.Generation(generations, p) + (if p in paths then 1 else 0)
  }

  class BlockStore {
    var blocks: map<Key, Cached>
    var lru: map<nat, Key>
    var generations: map<Path, nat>
    var tick: nat
    var bytes: nat
    const capacity: nat

    /** The cached blocks, least recently used first. */
    ghost function Contents(): seq<Entry>
      requires Linked(blocks, lru)
      reads this
    {
      Recency(blocks, lru, tick)
    }

    /** Blocks and ticks correspond one to one, and the byte count is exact. */
    ghost predicate Accounted()
      reads this
    {
      && Linked(blocks, lru)
      && (forall t <- lru :: 1 <= t <= tick)
      && bytes == Size(Contents())
    }

    ghost predicate Valid()
      reads this
    {
      Accounted() && bytes <= capacity
    }

    constructor (capacity: nat)
      ensures Valid() && Contents() == [] && generations == map[]
      ensures this.capacity == Max(capacity, 4 * BLOCK_SIZE)
    {
      this.capacity := Max(capacity, 4 * BLOCK_SIZE);
      blocks, lru, generations := map[], map[], map[];
      tick, bytes := 0, 0;
    }

    /** What is cached is what the list holds. */
    lemma ContentsHas(k: Key)
      requires Accounted()
      ensures k in blocks <==> HasKey(Contents(), k)
      ensures k in blocks ==> Entry(k, blocks[k].data) in Contents()
      ensures Distinct(Contents())
    {
      RecencyHas(blocks, lru, tick);
      if HasKey(Contents(), k) {
        var i: nat :| i < |Contents()| && Contents()[i].key == k;
        assert Contents()[i] in Contents();
      }
    }

    lemma Absent(k: Key)
      requires Accounted() && k !in blocks
      ensures Without(Contents(), {k}) == Contents()
    {
      RecencyHas(blocks, lru, tick);
      WithoutNothing(Contents(), {k});
    }

    /** Takes one block out of both indexes; the subtraction never saturates. */
    method Remove(k: Key)
      requires Accounted() && k in blocks
      modifies `blocks, `lru, `bytes
      ensures Accounted()
      ensures blocks == old(blocks) - {k}
      ensures Contents() == Without(old(Contents()), {k})
      ensures bytes + |old(blocks)[k].data| == old(bytes)
    {
      RemovalShrinks(blocks, lru, tick, k);
      RecencyDrop(blocks, lru, tick, k);
      var removed := blocks[k];
      blocks := blocks - {k};
      bytes := Uploads.SaturatingSub(bytes, |removed.data|);
      lru := lru - {removed.tick};
    }

    /** A hit makes the block the most recently used one; a miss changes nothing. */
    method Get(k: Key) returns (found: Option<File>)
      requires Valid()
      modifies `blocks, `lru, `tick
      ensures Valid()
      ensures found.Some? <==> HasKey(old(Contents()), k)
      ensures found.Some? ==> Entry(k, found.value) in old(Contents())
      ensures Contents() == if found.Some? then Without(old(Contents()), {k}) + [Entry(k, found.value)]
        else old(Contents())
    {
      ContentsHas(k);
      if k !in blocks {
        return None;
      }
      RecencyTouch(blocks, lru, tick, k);
      var entry := blocks[k];
      tick := tick + 1;
      lru := (lru - {entry.tick})[tick := k];
      blocks := blocks[k := Cached(entry.data, tick)];
      return Some(entry.data);
    }

    /** Drops the least recently used block. */
    method PopFirst()
      requires Accounted() && lru != map[]
      modifies `blocks, `lru, `bytes
      ensures Accounted()
      ensures old(Contents()) != [] && Contents() == old(Contents())[1..]
    {
      ghost var _ := Least(lru.Keys);
      var t :| t in lru && forall u <- lru :: t <= u;
      RecencyHead(blocks, lru, tick, t);
      RecencyHas(blocks, lru, tick);
      WithoutHead(Contents());
      Remove(lru[t]);
    }

    /** A block read before the last invalidation of its path is turned away; any other
        replaces what was cached under its key, becomes the most recently used block, and
        pushes out just enough of the least recently used ones. */
    method InsertBlock(k: Key, data: File, generation: nat)
      requires Valid()
      modifies this
      ensures Valid() && generations == old(generations)
      ensures Contents() == (if Mount.Generation(old(generations), k.0) == generation then
        Insert(old(Contents()), k, data, capacity)
                             else old(Contents()))
    {
      if Mount.Generation(generations, k.0) != generation {
        return;
      }
      hide Linked, Recency, Without, Evict;
      if k in blocks {
        Remove(k);
      } else {
        Absent(k);
      }
      Push(k, data);
      Trim();
    }

    /** Adds a block under a fresh tick. */
    method Push(k: Key, data: File)
      requires Accounted() && k !in blocks
      modifies `blocks, `lru, `tick, `bytes
      ensures Accounted() && Contents() == old(Contents()) + [Entry(k, data)]
    {
      RecencyPush(blocks, lru, tick, k, data);
      SizeAppend(Contents(), [Entry(k, data)]);
      tick := tick + 1;
      bytes := bytes + |data|;
      lru := lru[tick := k];
      blocks := blocks[k := Cached(data, tick)];
    }

    /** Pops until the bound holds again. */
    method Trim()
      requires Accounted()
      modifies `blocks, `lru, `bytes
      ensures Valid() && Contents() == Evict(old(Contents()), capacity)
    {
      while bytes > capacity
        invariant Accounted()
        invariant Evict(Contents(), capacity) == Evict(old(Contents()), capacity)
        decreases |Contents()|
      {
        if lru == map[] {
          RecencyHas(blocks, lru, tick);
          break;
        }
        PopFirst();
      }
    }

    /** Removes the doomed blocks one by one and advances the generation of each path. */
    method InvalidateWhere(paths: set<Path>, keep: Key -> bool)
      requires Valid()
      modifies `blocks, `lru, `bytes, `generations
      ensures Valid()
      ensures generations == BumpAll(old(generations), paths)
      ensures Contents() == Without(old(Contents()), set k <- old(blocks) | k.0 in paths && !keep(k))
    {
      hide Linked, Recency, Without, Size, BumpAll;
      ghost var before := Contents();
      var all := set k <- blocks | k.0 in paths && !keep(k);
      Advance(paths);
      var doomed := all;
      assert Without(before, all - doomed) == before by {
        WithoutNothing(before, all - doomed);
      }
      while doomed != {}
        invariant doomed <= all && doomed <= blocks.Keys
        invariant Accounted() && bytes <= capacity && generations == BumpAll(old(generations), paths)
        invariant Contents() == Without(before, all - doomed)
      {
        var k :| k in doomed;
        ghost var gone := all - doomed;
        WithoutTwice(before, gone, {k});
        Remove(k);
        doomed := doomed - {k};
        assert all - doomed == gone + {k};
      }
      assert all - {} == all;
    }

    method Advance(paths: set<Path>)
      modifies `generations
      ensures generations == BumpAll(old(generations), paths)
    {
      var rest := paths;
      while rest != {}
        invariant rest <= paths
        invariant generations == BumpAll(old(generations), paths - rest)
      {
        var p :| p in rest;
        generations := Mount.Bump(generations, p);
        rest := rest - {p};
      }
    }

    method InvalidatePath(path: Path)
      requires Valid()
      modifies this
      ensures Valid()
      ensures generations == BumpAll(old(generations), {path})
      ensures Contents() == Without(old(Contents()), set k <- old(blocks) | k.0 == path)
    {
      var paths, keep := {path}, (k: Key) => false;
      assert (set k <- blocks | k.0 == path) == set k <- blocks | k.0 in paths && !keep(k);
      InvalidateWhere(paths, keep);
    }

    /** The saturating ends of the range agree with the blocks it touches. */
    method InvalidateRange(path: Path, offset: nat, len: nat)
      requires Valid()
      modifies this
      ensures Valid()
      ensures generations == BumpAll(old(generations), {path})
      ensures Contents() == Without(old(Contents()), set k <- old(blocks) | k.0 == path && Touches(offset, len, k.1))
    {
      var first := offset / BLOCK_SIZE;
      var last := Uploads.SaturatingSub(offset + Max(len, 1), 1) / BLOCK_SIZE;
      var paths, keep := {path}, (k: Key) => k.1 < first || k.1 > last;
      assert (set k <- blocks | k.0 == path && Touches(offset, len, k.1)) == set k <- blocks | k.0 in paths && !keep(k);
      InvalidateWhere(paths, keep);
    }

    /** Advances the named path and those paths under it that have cached blocks. */
    method InvalidateTree(path: Path)
      requires Valid()
      modifies this
      ensures Valid()
      ensures generations == BumpAll(old(generations), {path} + set p <- CachedPaths(old(blocks)) | Under(path, p))
      ensures Contents() == Without(old(Contents()), set k <- old(blocks) | Under(path, k.0))
    {
      hide Linked, Recency, Without, Size, BumpAll;
      var paths := {path} + set p <- CachedPaths(blocks) | Under(path, p);
      var keep := (k: Key) => false;
      assert (set k <- blocks | Under(path, k.0)) == set k <- blocks | k.0 in paths && !keep(k);
      InvalidateWhere(paths, keep);
    }

    method Clear()
      requires Valid()
      modifies this
      ensures Valid() && Contents() == []
      ensures generations == BumpAll(old(generations), CachedPaths(old(blocks)))
    {
      Advance(CachedPaths(blocks));
      blocks, lru, bytes := map[], map[], 0;
      RecencyEmpty(tick);
    }
  }
}
