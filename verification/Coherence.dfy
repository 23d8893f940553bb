/** Coherence of one mount's block cache with a daemon that other clients write to.  The
    mount learns of foreign changes from the change feed and of its own from its uploader;
    until it has, and only until then, a cached byte may differ from the daemon's. */
module Coherence {
  import opened Bytes
  import opened Wrappers
  import opened Paths
  import Feed
  import Mount

  type Key = Mount.Key
  type Origin = Feed.Origin

  /** A change of the daemon's files and the event that announces it.  `low` is where its
      effect starts: before the written range if the write left a hole. */
  datatype Change = Change(origin: Origin, event: Feed.Event, low: nat)

  datatype State = State(
    me: Origin,
    files: map<Path, File>,
    // changes made but not yet announced; announced ones; how many of these were received
    unrecorded: map<nat, Change>,
    log: seq<Change>,
    cursor: nat,
    // received and not yet applied
    batch: seq<Change>,
    // this mount's own changes whose ranges it has not invalidated yet
    own: map<nat, Change>,
    // paths with buffered or in-flight local writes
    pending: set<Path>,
    cache: map<Key, File>,
    generations: map<Path, nat>,
    fetches: map<nat, Mount.Fetch>,
    // the mount's ignore list
    ignore: seq<string>,
    // history: paths at or below which a change may have gone unnoticed, since they were last cleared
    blind: set<Path>)

  /** Does this change concern byte q of path p? */
  predicate Affects(c: Change, p: Path, q: nat) {
    match c.event.kind
    case Write(offset, len) => p == c.event.path && c.low <= q < offset + len
    case Metadata => false
    case Replaced => Under(c.event.path, p)
  }

  /** The effect of a write starts in the first block its announced range touches. */
  predicate Announced(c: Change) {
    c.event.kind.Write? ==> c.low <= c.event.kind.offset && c.low / BLOCK_SIZE == c.event.kind.offset / BLOCK_SIZE
  }

  /** Does announcing `c` also announce x? */
  ghost predicate Announces(c: Change, x: Change) {
    c.origin == x.origin && forall p: Path, q: nat | Affects(x, p, q) :: Affects(c, p, q)
  }

  function News(log: seq<Change>, me: Origin): seq<Change> {
    if log == [] then
      []
    else
      var rest := News(log[..|log| - 1], me);
      if log[|log| - 1].origin != me then rest + [log[|log| - 1]] else rest
  }

  // ------------------------------------------------------------------ invalidation

  /** The paths a tree invalidation bumps: the named path, and paths beneath it that happen to
      have cached blocks. */
  function TreePaths(cache: map<Key, File>, root: Path): set<Path> {
    (set k <- cache | Under(root, k.0) :: k.0) + {root}
  }

  function InvalidateTree(s: State, root: Path): State {
    var paths := TreePaths(s.cache, root);
    s.(generations := map p <- s.generations.Keys + paths ::
         Mount.Generation(s.generations, p) + if p in paths then 1 else 0,
       cache := map k <- s.cache | k.0 !in paths :: s.cache[k])
  }

  function InvalidateRange(s: State, p: Path, offset: nat, len: nat): State {
    s.(generations := Mount.Bump(s.generations, p), cache := Mount.DropRange(s.cache, p, offset, len))
  }

  function Invalidate(s: State, event: Feed.Event): State {
    match event.kind
    case Write(offset, len) => InvalidateRange(s, event.path, offset, len)
    case Metadata => s
    case Replaced => InvalidateTree(s, event.path)
  }

  /** Will a fetch that has already read its data notice this tree invalidation? */
  predicate FetchesNotice(s: State, event: Feed.Event) {
    event.kind.Replaced? ==>
      forall n <- s.fetches | s.fetches[n].data.Some? && Under(event.path, s.fetches[n].path) ::
        s.fetches[n].path in TreePaths(s.cache, event.path)
  }

  predicate PendingLocally(s: State, path: Path) {
    exists p <- s.pending :: Under(path, p)
  }

  /** Events for the root, for ignored paths and for paths with local writes still pending are
      dropped. */
  predicate Dropped(s: State, event: Feed.Event) {
    event.path == "" || Ignored(s.ignore, event.path) || PendingLocally(s, event.path)
  }

  /** Does a fetch of something at or below `root` have its data? */
  predicate InHand(s: State, root: Path) {
    exists n <- s.fetches :: s.fetches[n].data.Some? && Under(root, s.fetches[n].path)
  }

  /** An invalidation and what it makes up for: where a tree has been dropped and no fetch has data
      from it, nothing unnoticed is left. */
  function Clear(s: State, event: Feed.Event): State {
    var t := Invalidate(s, event);
    if event.kind.Replaced? && !InHand(s, event.path) then t.(blind := set r <- s.blind | !Under(event.path, r)) else t
  }

  /** `apply_change`. */
  function ApplyChange(s: State, event: Feed.Event): State {
    if Dropped(s, event) then s else Clear(s, event)
  }

  /** Notes that a change below `root` may go unnoticed. */
  function Unnoticed(s: State, root: Path, missed: bool): State {
    if missed then s.(blind := s.blind + {root}) else s
  }

  /** `invalidate_all` after a reset: the cache is emptied and the paths in it are bumped; a fetch
      of another path that has its data already is not cut off. */
  function InvalidateAll(s: State): State {
    var paths := set k <- s.cache :: k.0;
    s.(cache := map[],
       generations := map p <- s.generations.Keys + paths ::
         Mount.Generation(s.generations, p) + if p in paths then 1 else 0,
       blind := set n <- s.fetches | s.fetches[n].data.Some? && s.fetches[n].path !in paths :: s.fetches[n].path)
  }

  // ------------------------------------------------------------------ steps

  datatype Step =
    | ServerWrite(id: nat, origin: Origin, path: Path, offset: nat, data: File)
    | ServerReplace(id: nat, origin: Origin, path: Path, files: map<Path, File>)
    | Record(ids: set<nat>, change: Change)
    | Poll(at: nat, next: nat)
    | ApplyFirst
    | Reset(answered: nat)
    | InvalidateOwn(id: nat)
    | LocalWrites(pending: set<Path>)
    | FetchBegin(flight: nat, path: Path, index: nat)
    | FetchRead(flight: nat)
    | FetchInsert(flight: nat)
    | Evict(keys: set<Key>)

  /** Where the answer starts that a poll from this cursor gets when the log has `at` entries:
      behind the cursor, or at the oldest entry left. */
  function AnswerStart(cursor: nat, at: nat): nat {
    Max(cursor, Feed.Overflow(at))
  }

  /** What is evicted past the cursor before the poll is answered, and never received. */
  function Missed(s: State, at: nat): seq<Change>
    requires s.cursor <= AnswerStart(s.cursor, at) <= |s.log|
  {
    News(s.log[s.cursor..AnswerStart(s.cursor, at)], s.me)
  }

  /** What the daemon and the mount can do.  A replacement changes one subtree (a rename is two),
      and an announcement covers the changes it stands for (and may be spurious).  A poll is
      answered when the log has `at` entries, with what is left of those up to `next`; a reset when
      it has `answered`, and the mount is cleared at some time after that. */
  ghost predicate Enabled(s: State, l: Step) {
    match l
    case ServerWrite(id, origin, path, offset, data) => id !in s.unrecorded && id !in s.own && data != []
    case ServerReplace(id, origin, path, files) =>
      && id !in s.unrecorded && id !in s.own
      && forall p: Path | !Under(path, p) :: Content(files, p) == Content(s.files, p)
    case Record(ids, change) =>
      Announced(change) && forall id <- ids :: id in s.unrecorded && Announces(change, s.unrecorded[id])
    case Poll(at, next) => AnswerStart(s.cursor, at) <= next <= at <= |s.log|
    case ApplyFirst => s.batch != []
    case Reset(answered) => s.cursor <= answered <= |s.log|
    case InvalidateOwn(id) => id in s.own
    case LocalWrites(pending) => true
    case FetchBegin(flight, path, index) => flight !in s.fetches
    case FetchRead(flight) => flight in s.fetches
    case FetchInsert(flight) => flight in s.fetches && s.fetches[flight].data.Some?
    case Evict(keys) => true
  }

  /** The change a write makes.  A write past the block holding the end of the file changes blocks
      its announcement does not touch; only its own range counts as announced. */
  function WriteChange(origin: Origin, path: Path, f: File, offset: nat, data: File): Change {
    Change(origin, Feed.Event(path, Feed.Write(offset, |data|)), if LeavesGap(f, offset, data) then offset
      else Min(offset, |f|))
  }

  function Changed(s: State, id: nat, c: Change, files: map<Path, File>): State {
    s.(files := files,
       unrecorded := s.unrecorded[id := c],
       own := if c.origin == s.me then s.own[id := c] else s.own)
  }

  function Apply(s: State, l: Step): State
    requires Enabled(s, l)
  {
    match l
    case ServerWrite(id, origin, path, offset, data) =>
      var f := Content(s.files, path);
      Unnoticed(Changed(s, id, WriteChange(origin, path, f, offset, data), s.files[path := WriteAt(f, offset, data)]),
                path, LeavesGap(f, offset, data))
    case ServerReplace(id, origin, path, files) =>
      Changed(s, id, Change(origin, Feed.Event(path, Feed.Replaced), 0), files)
    case Record(ids, change) => s.(unrecorded := s.unrecorded - ids, log := s.log + [change])
    case Poll(at, next) =>
      s.(batch := s.batch + News(s.log[AnswerStart(s.cursor, at)..next], s.me),
         cursor := next,
         blind := s.blind + (set c <- Missed(s, at) :: c.event.path))
    case ApplyFirst =>
      var event := s.batch[0].event;
      Unnoticed(ApplyChange(s, event).(batch := s.batch[1..]), event.path, Dropped(s, event) ||
        !FetchesNotice(s, event))
    case Reset(answered) => InvalidateAll(s).(cursor := answered)
    case InvalidateOwn(id) =>
      var event := s.own[id].event;
      Unnoticed(Clear(s, event).(own := s.own - {id}), event.path, !FetchesNotice(s, event))
    case LocalWrites(pending) => s.(pending := pending)
    case FetchBegin(flight, path, index) =>
      s.(fetches := s.fetches[flight := Mount.Fetch(path, index, Mount.Generation(s.generations, path), None)])
    case FetchRead(flight) =>
      var f := s.fetches[flight];
      s.(fetches := s.fetches[flight := f.(data := Some(Block(Content(s.files, f.path), f.index)))])
    case FetchInsert(flight) =>
      var f := s.fetches[flight];
      var t := s.(fetches := s.fetches - {flight});
      if Mount.Generation(s.generations, f.path) == f.generation then
        t.(cache := s.cache[(f.path, f.index) := f.data.value])
      else
        t
    case Evict(keys) => s.(cache := s.cache - keys)
  }

  // ------------------------------------------------------------------ coherence

  /** Is byte q of p covered by a foreign change that has not been applied here, or by an own
      change that has not been invalidated here? */
  predicate Awaited(s: State, p: Path, q: nat) {
    || (exists id <- s.unrecorded :: s.unrecorded[id].origin != s.me && Affects(s.unrecorded[id], p, q))
    || (exists j :: s.cursor <= j < |s.log| && s.log[j].origin != s.me && Affects(s.log[j], p, q))
    || (exists c <- s.batch :: Affects(c, p, q))
    || (exists id <- s.own :: Affects(s.own[id], p, q))
  }

  predicate Blind(s: State, p: Path) {
    exists root <- s.blind :: Under(root, p)
  }

  predicate Covered(s: State, p: Path, q: nat) {
    Blind(s, p) || Awaited(s, p, q)
  }

  /** Every byte of the block that differs from the daemon's is covered. */
  ghost predicate Good(s: State, p: Path, i: nat, data: File) {
    && |data| <= BLOCK_SIZE
    && forall o: nat | o < BLOCK_SIZE && At(data, o) != At(Content(s.files, p), i * BLOCK_SIZE + o) ::
         Covered(s, p, i * BLOCK_SIZE + o)
  }

  ghost predicate CacheGood(s: State) {
    forall k <- s.cache :: Good(s, k.0, k.1, s.cache[k])
  }

  ghost predicate FetchesGood(s: State) {
    forall n <- s.fetches | s.fetches[n].data.Some? &&
      s.fetches[n].generation == Mount.Generation(s.generations, s.fetches[n].path) ::
      Good(s, s.fetches[n].path, s.fetches[n].index, s.fetches[n].data.value)
  }

  predicate Captured(s: State) {
    forall n <- s.fetches :: s.fetches[n].generation <= Mount.Generation(s.generations, s.fetches[n].path)
  }

  predicate WellAnnounced(s: State) {
    && s.cursor <= |s.log|
    && (forall id <- s.unrecorded :: Announced(s.unrecorded[id]))
    && (forall c <- s.log :: Announced(c))
    && (forall c <- s.batch :: Announced(c))
    && (forall id <- s.own :: Announced(s.own[id]))
  }

  ghost predicate Inv(s: State) {
    CacheGood(s) && FetchesGood(s) && Captured(s) && WellAnnounced(s)
  }

  // ------------------------------------------------------------------ invariant, step by step

  /** Nothing that was covered is uncovered, and every byte that changed is covered. */
  ghost predicate CoversMore(s: State, t: State, p: Path, q: nat) {
    && (Covered(s, p, q) ==> Covered(t, p, q))
    && (At(Content(s.files, p), q) != At(Content(t.files, p), q) ==> Covered(t, p, q))
  }

  lemma GoodFrame(s: State, t: State, p: Path, i: nat, data: File)
    requires Good(s, p, i, data)
    requires forall q: nat | q / BLOCK_SIZE == i :: CoversMore(s, t, p, q)
    ensures Good(t, p, i, data)
  {
    forall o: nat | o < BLOCK_SIZE && At(data, o) != At(Content(t.files, p), i * BLOCK_SIZE + o)
      ensures Covered(t, p, i * BLOCK_SIZE + o)
    {
      var q := i * BLOCK_SIZE + o;
      assert q / BLOCK_SIZE == i;
      assert CoversMore(s, t, p, q);
    }
  }

  /** Steps that leave the cache and the fetches alone. */
  lemma QuietStep(s: State, t: State)
    requires CacheGood(s) && FetchesGood(s)
    requires t.fetches == s.fetches && t.generations == s.generations
    requires forall k <- t.cache :: k in s.cache && t.cache[k] == s.cache[k]
    requires forall p: Path, q: nat :: CoversMore(s, t, p, q)
    ensures CacheGood(t) && FetchesGood(t)
  {
    forall k <- t.cache ensures Good(t, k.0, k.1, t.cache[k]) {
      GoodFrame(s, t, k.0, k.1, t.cache[k]);
    }
    forall n <- t.fetches | t.fetches[n].data.Some? &&
      t.fetches[n].generation == Mount.Generation(t.generations, t.fetches[n].path)
      ensures Good(t, t.fetches[n].path, t.fetches[n].index, t.fetches[n].data.value)
    {
      GoodFrame(s, t, t.fetches[n].path, t.fetches[n].index, t.fetches[n].data.value);
    }
  }

  lemma ChangedCovers(s: State, id: nat, c: Change, files: map<Path, File>, blind: set<Path>)
    requires id !in s.unrecorded && id !in s.own && s.blind <= blind
    requires forall p: Path, q: nat | At(Content(s.files, p), q) != At(Content(files, p), q) ::
      Affects(c, p, q) || exists root <- blind :: Under(root, p)
    ensures forall p: Path, q: nat :: CoversMore(s, Changed(s, id, c, files).(blind := blind), p, q)
  {
    var t := Changed(s, id, c, files).(blind := blind);
    assert t.unrecorded[id] == c;
    forall p: Path, q: nat ensures CoversMore(s, t, p, q) {
      if Affects(c, p, q) {
        assert id in t.unrecorded && (c.origin == s.me ==> id in t.own && t.own[id] == c);
        assert Covered(t, p, q);
      } else if Covered(s, p, q) {
        KeptCovers(s, t, p, q);
      }
    }
  }

  /** A state that keeps every pending change keeps what they cover. */
  lemma KeptCovers(s: State, t: State, p: Path, q: nat)
    requires Covered(s, p, q) && t.me == s.me && t.cursor == s.cursor && s.log <= t.log && t.batch == s.batch &&
      s.blind <= t.blind
    requires forall id <- s.unrecorded :: id in t.unrecorded && t.unrecorded[id] == s.unrecorded[id]
    requires forall id <- s.own :: id in t.own && t.own[id] == s.own[id]
    ensures Covered(t, p, q)
  {
  }

  lemma ServerWriteStep(s: State, l: Step)
    requires CacheGood(s) && FetchesGood(s) && Enabled(s, l) && l.ServerWrite?
    ensures CacheGood(Apply(s, l)) && FetchesGood(Apply(s, l))
  {
    var f := Content(s.files, l.path);
    var c := WriteChange(l.origin, l.path, f, l.offset, l.data);
    var files := s.files[l.path := WriteAt(f, l.offset, l.data)];
    var t := Apply(s, l);
    forall p: Path, q: nat | At(Content(s.files, p), q) != At(Content(files, p), q)
      ensures Affects(c, p, q) || exists root <- t.blind :: Under(root, p)
    {
      WriteAtByte(f, l.offset, l.data, q);
      assert LeavesGap(f, l.offset, l.data) ==> l.path in t.blind && Under(l.path, p);
    }
    ChangedCovers(s, l.id, c, files, t.blind);
    QuietStep(s, t);
  }

  lemma ServerReplaceStep(s: State, l: Step)
    requires CacheGood(s) && FetchesGood(s) && Enabled(s, l) && l.ServerReplace?
    ensures CacheGood(Apply(s, l)) && FetchesGood(Apply(s, l))
  {
    ChangedCovers(s, l.id, Change(l.origin, Feed.Event(l.path, Feed.Replaced), 0), l.files, s.blind);
    QuietStep(s, Apply(s, l));
  }

  lemma RecordStep(s: State, l: Step)
    requires CacheGood(s) && FetchesGood(s) && Enabled(s, l) && l.Record? && s.cursor <= |s.log|
    ensures CacheGood(Apply(s, l)) && FetchesGood(Apply(s, l))
  {
    var t := Apply(s, l);
    forall p: Path, q: nat | Covered(s, p, q) ensures Covered(t, p, q) {
      if id :| id in s.unrecorded && s.unrecorded[id].origin != s.me && Affects(s.unrecorded[id], p, q) {
        if id in l.ids {
          assert t.log[|s.log|] == l.change && Affects(l.change, p, q);
        } else {
          assert id in t.unrecorded;
        }
      } else if j :| s.cursor <= j < |s.log| && s.log[j].origin != s.me && Affects(s.log[j], p, q) {
        assert t.log[j] == s.log[j];
      }
    }
    QuietStep(s, t);
  }

  lemma {:induction false} NewsHas(log: seq<Change>, me: Origin, j: nat)
    requires j < |log| && log[j].origin != me
    ensures log[j] in News(log, me)
  {
    if j < |log| - 1 {
      NewsHas(log[..|log| - 1], me, j);
    }
  }

  lemma {:induction false} NewsFrom(log: seq<Change>, me: Origin)
    ensures forall c <- News(log, me) :: c in log
  {
    if log != [] {
      NewsFrom(log[..|log| - 1], me);
    }
  }

  lemma PollStep(s: State, at: nat, next: nat)
    requires CacheGood(s) && FetchesGood(s) && Enabled(s, Poll(at, next))
    ensures CacheGood(Apply(s, Poll(at, next))) && FetchesGood(Apply(s, Poll(at, next)))
  {
    var t := Apply(s, Poll(at, next));
    forall p: Path, q: nat | Covered(s, p, q) ensures Covered(t, p, q) {
      PollCovers(s, at, next, p, q);
    }
    QuietStep(s, t);
  }

  /** A change that a poll passes over is received, or its path becomes blind. */
  lemma PollCovers(s: State, at: nat, next: nat, p: Path, q: nat)
    requires Covered(s, p, q) && Enabled(s, Poll(at, next))
    ensures Covered(Apply(s, Poll(at, next)), p, q)
  {
    var t := Apply(s, Poll(at, next));
    if j :| s.cursor <= j < |s.log| && s.log[j].origin != s.me && Affects(s.log[j], p, q) {
      EntryCovers(s, at, next, j, p, q);
    } else if c :| c in s.batch && Affects(c, p, q) {
      assert c in t.batch;
    }
  }

  lemma EntryCovers(s: State, at: nat, next: nat, j: nat, p: Path, q: nat)
    requires Enabled(s, Poll(at, next)) && s.cursor <= j < |s.log| && s.log[j].origin != s.me && Affects(s.log[j], p, q)
    ensures Covered(Apply(s, Poll(at, next)), p, q)
  {
    var t, start := Apply(s, Poll(at, next)), AnswerStart(s.cursor, at);
    if j < start {
      var lost := s.log[s.cursor..start];
      NewsHas(lost, s.me, j - s.cursor);
      assert lost[j - s.cursor] == s.log[j];
      assert s.log[j].event.path in t.blind && Under(s.log[j].event.path, p);
      assert Blind(t, p);
    } else if j < next {
      var news := s.log[start..next];
      NewsHas(news, s.me, j - start);
      assert news[j - start] == s.log[j];
      assert s.log[j] in t.batch;
    }
  }

  /** The announced range touches every block with an affected byte. */
  lemma EffectTouches(c: Change, p: Path, q: nat)
    requires Announced(c) && c.event.kind.Write?
    ensures Affects(c, p, q) ==> p == c.event.path && Touches(c.event.kind.offset, c.event.kind.len, q / BLOCK_SIZE)
  {
  }

  /** An invalidation drops every cached block its change concerns. */
  lemma DropsConcerned(s: State, c: Change, k: Key, q: nat)
    requires Announced(c) && k in Invalidate(s, c.event).cache
    ensures k in s.cache && s.cache[k] == Invalidate(s, c.event).cache[k]
    ensures q / BLOCK_SIZE == k.1 ==> !Affects(c, k.0, q)
  {
    if c.event.kind.Write? {
      EffectTouches(c, k.0, q);
    }
  }

  /** ... and cuts off every fetch that read its data before and concerns it, if the fetches notice
      it at all. */
  lemma CutsConcerned(s: State, c: Change, n: nat, q: nat)
    requires Captured(s) && n in s.fetches && s.fetches[n].data.Some?
    requires s.fetches[n].generation == Mount.Generation(Invalidate(s, c.event).generations, s.fetches[n].path)
    ensures s.fetches[n].generation == Mount.Generation(s.generations, s.fetches[n].path)
    ensures FetchesNotice(s, c.event) || !Under(c.event.path, s.fetches[n].path) ==> !Affects(c, s.fetches[n].path, q)
  {
    hide Mount.DropRange, Captured;
    assert s.fetches[n].generation <= Mount.Generation(s.generations, s.fetches[n].path) by {
      CapturedFetch(s, n);
    }
  }

  lemma CapturedFetch(s: State, n: nat)
    requires Captured(s) && n in s.fetches
    ensures s.fetches[n].generation <= Mount.Generation(s.generations, s.fetches[n].path)
  {
  }

  /** Settling a change: it leaves the pending ones, and its range is invalidated. */
  lemma SettleStep(s: State, t: State, c: Change)
    requires CacheGood(s) && FetchesGood(s) && Captured(s) && Announced(c)
    requires FetchesNotice(s, c.event) || c.event.path in t.blind
    requires t.files == s.files && t.fetches == s.fetches
    requires t.cache == Invalidate(s, c.event).cache && t.generations == Invalidate(s, c.event).generations
    requires forall p: Path, q: nat | Covered(s, p, q) && !Affects(c, p, q) :: Covered(t, p, q)
    ensures CacheGood(t) && FetchesGood(t) && Captured(t)
  {
    SettleCache(s, t, c);
    SettleFetches(s, t, c);
  }

  lemma SettleCache(s: State, t: State, c: Change)
    requires CacheGood(s) && Announced(c) && t.files == s.files && t.cache == Invalidate(s, c.event).cache
    requires forall p: Path, q: nat | Covered(s, p, q) && !Affects(c, p, q) :: Covered(t, p, q)
    ensures CacheGood(t)
  {
    forall k <- t.cache ensures Good(t, k.0, k.1, t.cache[k]) {
      DropsConcerned(s, c, k, 0);
      forall q: nat | q / BLOCK_SIZE == k.1 ensures CoversMore(s, t, k.0, q) {
        DropsConcerned(s, c, k, q);
      }
      GoodFrame(s, t, k.0, k.1, s.cache[k]);
    }
  }

  lemma SettleFetches(s: State, t: State, c: Change)
    requires FetchesGood(s) && Captured(s) && t.files == s.files && t.fetches == s.fetches
    requires FetchesNotice(s, c.event) || c.event.path in t.blind
    requires t.generations == Invalidate(s, c.event).generations
    requires forall p: Path, q: nat | Covered(s, p, q) && !Affects(c, p, q) :: Covered(t, p, q)
    ensures FetchesGood(t) && Captured(t)
  {
    forall n <- t.fetches | t.fetches[n].data.Some? &&
      t.fetches[n].generation == Mount.Generation(t.generations, t.fetches[n].path)
      ensures Good(t, t.fetches[n].path, t.fetches[n].index, t.fetches[n].data.value)
    {
      var f := s.fetches[n];
      CutsConcerned(s, c, n, 0);
      forall q: nat ensures CoversMore(s, t, f.path, q) {
        CutsConcerned(s, c, n, q);
        assert Affects(c, f.path, q) ==> Blind(t, f.path);
      }
      GoodFrame(s, t, f.path, f.index, f.data.value);
    }
  }

  /** Dropping a change makes its paths blind. */
  lemma DropStep(s: State, t: State, c: Change)
    requires CacheGood(s) && FetchesGood(s) && s.blind <= t.blind && c.event.path in t.blind
    requires t.files == s.files && t.fetches == s.fetches && t.cache == s.cache && t.generations == s.generations
    requires forall p: Path, q: nat | Covered(s, p, q) && !Affects(c, p, q) :: Covered(t, p, q)
    ensures CacheGood(t) && FetchesGood(t)
  {
    forall p: Path, q: nat
      ensures CoversMore(s, t, p, q)
    {
      assert Affects(c, p, q) ==> Under(c.event.path, p) && Blind(t, p);
    }
    QuietStep(s, t);
  }

  lemma ApplyStep(s: State)
    requires Inv(s) && Enabled(s, ApplyFirst)
    ensures CacheGood(Apply(s, ApplyFirst)) && FetchesGood(Apply(s, ApplyFirst)) && Captured(Apply(s, ApplyFirst))
  {
    var t, c := Apply(s, ApplyFirst), s.batch[0];
    AppliedCovers(s);
    hide Covered, CacheGood, FetchesGood, Announced, FetchesNotice, Clear;
    ClearOnlyCache(s, c.event);
    if Dropped(s, c.event) {
      DropStep(s, t, c);
    } else {
      SettleStep(s, t, c);
    }
  }

  lemma AppliedCovers(s: State)
    requires s.batch != []
    ensures var t := Apply(s, ApplyFirst);
      forall p: Path, q: nat | Covered(s, p, q) && !Affects(s.batch[0], p, q) :: Covered(t, p, q)
  {
    hide Affects, Dropped, FetchesNotice, Clear, Blind;
    ClearOnlyCache(s, s.batch[0].event);
    var t := Apply(s, ApplyFirst);
    forall p: Path, q: nat | Covered(s, p, q) && !Affects(s.batch[0], p, q) ensures Covered(t, p, q) {
      if Blind(s, p) {
        ClearKeepsBlind(s, t, s.batch[0], p, q);
      }
      if x :| x in s.batch && Affects(x, p, q) {
        assert x in t.batch;
      }
    }
  }

  lemma InvalidateOwnStep(s: State, id: nat)
    requires Inv(s) && Enabled(s, InvalidateOwn(id))
    ensures var t := Apply(s, InvalidateOwn(id)); CacheGood(t) && FetchesGood(t) && Captured(t)
  {
    var t, c := Apply(s, InvalidateOwn(id)), s.own[id];
    OwnCovers(s, id);
    hide Covered, CacheGood, FetchesGood, Announced, FetchesNotice, Clear;
    ClearOnlyCache(s, c.event);
    SettleStep(s, t, c);
  }

  lemma OwnCovers(s: State, id: nat)
    requires id in s.own
    ensures var t := Apply(s, InvalidateOwn(id));
      forall p: Path, q: nat | Covered(s, p, q) && !Affects(s.own[id], p, q) :: Covered(t, p, q)
  {
    hide Affects, FetchesNotice, Clear, Blind;
    ClearOnlyCache(s, s.own[id].event);
    var t := Apply(s, InvalidateOwn(id));
    forall p: Path, q: nat | Covered(s, p, q) && !Affects(s.own[id], p, q) ensures Covered(t, p, q) {
      if Blind(s, p) {
        ClearKeepsBlind(s, t, s.own[id], p, q);
      }
      if x :| x in s.own && Affects(s.own[x], p, q) {
        assert x in t.own;
      }
    }
  }

  /** After a reset nothing is cached, and what a fetch could still insert is blind. */
  lemma ResetStep(s: State, answered: nat)
    requires FetchesGood(s) && Captured(s) && Enabled(s, Reset(answered))
    ensures var t := Apply(s, Reset(answered)); CacheGood(t) && FetchesGood(t) && Captured(t)
  {
    var t := Apply(s, Reset(answered));
    forall n <- t.fetches | t.fetches[n].data.Some? &&
      t.fetches[n].generation == Mount.Generation(t.generations, t.fetches[n].path)
      ensures Good(t, t.fetches[n].path, t.fetches[n].index, t.fetches[n].data.value)
    {
      var f := s.fetches[n];
      assert Good(s, f.path, f.index, f.data.value);
      assert f.path in t.blind && Under(f.path, f.path);
      assert Blind(t, f.path);
    }
  }

  /** Where the log, the batch, the own changes and the files are the same, so is what is good. */
  lemma GoodSame(s: State, t: State)
    requires t == s.(cache := t.cache, generations := t.generations, fetches := t.fetches)
    ensures forall p: Path, i: nat, data: File | Good(s, p, i, data) :: Good(t, p, i, data)
  {
    hide Affects;
    forall p: Path, q: nat | Covered(s, p, q)
      ensures Covered(t, p, q)
    {
    }
  }

  lemma FetchStep(s: State, l: Step)
    requires CacheGood(s) && FetchesGood(s) && Captured(s) && Enabled(s, l)
    requires l.FetchBegin? || l.FetchRead? || l.FetchInsert?
    ensures CacheGood(Apply(s, l)) && FetchesGood(Apply(s, l)) && Captured(Apply(s, l))
  {
    hide CacheGood, FetchesGood, Captured, Apply, Enabled;
    if l.FetchRead? {
      FetchReadStep(s, l.flight);
    } else if l.FetchInsert? {
      FetchInsertStep(s, l.flight);
    } else {
      FetchBeginStep(s, l);
    }
  }

  lemma FetchBeginStep(s: State, l: Step)
    requires CacheGood(s) && FetchesGood(s) && Captured(s) && Enabled(s, l) && l.FetchBegin?
    ensures CacheGood(Apply(s, l)) && FetchesGood(Apply(s, l)) && Captured(Apply(s, l))
  {
    hide Good, Covered, Block;
    GoodSame(s, Apply(s, l));
  }

  lemma FetchInsertStep(s: State, flight: nat)
    requires CacheGood(s) && FetchesGood(s) && Captured(s) && Enabled(s, FetchInsert(flight))
    ensures var t := Apply(s, FetchInsert(flight)); CacheGood(t) && FetchesGood(t) && Captured(t)
  {
    hide Good, Covered, Block;
    GoodSame(s, Apply(s, FetchInsert(flight)));
  }

  lemma FetchReadStep(s: State, flight: nat)
    requires CacheGood(s) && FetchesGood(s) && Captured(s) && Enabled(s, FetchRead(flight))
    ensures var t := Apply(s, FetchRead(flight)); CacheGood(t) && FetchesGood(t) && Captured(t)
  {
    hide Good, Covered, Block;
    var t, f := Apply(s, FetchRead(flight)), s.fetches[flight];
    GoodSame(s, t);
    ReadGood(t, f.path, f.index);
  }

  /** What the daemon holds is good. */
  lemma ReadGood(s: State, p: Path, i: nat)
    ensures Good(s, p, i, Block(Content(s.files, p), i))
  {
    hide Covered;
    forall o: nat | o < BLOCK_SIZE
      ensures At(Block(Content(s.files, p), i), o) == At(Content(s.files, p), i * BLOCK_SIZE + o)
    {
      BlockAt(Content(s.files, p), i, o);
    }
  }

  lemma StepCoherent(s: State, l: Step)
    requires Inv(s) && Enabled(s, l)
    ensures CacheGood(Apply(s, l)) && FetchesGood(Apply(s, l)) && Captured(Apply(s, l))
  {
    match l
    case ServerWrite(_, _, _, _, _) => ServerWriteStep(s, l);
    case ServerReplace(_, _, _, _) => ServerReplaceStep(s, l);
    case Record(_, _) => RecordStep(s, l);
    case Poll(at, next) => PollStep(s, at, next);
    case ApplyFirst => ApplyStep(s);
    case Reset(answered) => ResetStep(s, answered);
    case InvalidateOwn(id) => InvalidateOwnStep(s, id);
    case LocalWrites(_) => QuietStep(s, Apply(s, l));
    case Evict(_) => QuietStep(s, Apply(s, l));
    case _ => FetchStep(s, l);
  }

  lemma InvalidateOnlyCache(s: State, event: Feed.Event)
    ensures Invalidate(s, event) ==
      s.(cache := Invalidate(s, event).cache, generations := Invalidate(s, event).generations)
  {
  }

  lemma ClearOnlyCache(s: State, event: Feed.Event)
    ensures var t := Clear(s, event);
      && t == s.(cache := t.cache, generations := t.generations, blind := t.blind)
      && t.cache == Invalidate(s, event).cache && t.generations == Invalidate(s, event).generations
  {
    InvalidateOnlyCache(s, event);
    hide Invalidate;
  }

  /** Only what the change concerns is no longer blind. */
  lemma ClearKeepsBlind(s: State, t: State, c: Change, p: Path, q: nat)
    requires Clear(s, c.event).blind <= t.blind || s.blind <= t.blind
    requires Blind(s, p) && !Affects(c, p, q)
    ensures Blind(t, p)
  {
    InvalidateOnlyCache(s, c.event);
    hide Invalidate, InHand;
    var root :| root in s.blind && Under(root, p);
    if c.event.kind.Replaced? && Under(c.event.path, root) {
      UnderTransitive(c.event.path, root, p);
    }
  }

  lemma WriteAnnounced(origin: Origin, path: Path, f: File, offset: nat, data: File)
    requires data != []
    ensures Announced(WriteChange(origin, path, f, offset, data))
  {
    if offset > |f| && !LeavesGap(f, offset, data) {
      assert |f| / BLOCK_SIZE == offset / BLOCK_SIZE;
    }
  }

  lemma ServerAnnounced(s: State, l: Step)
    requires WellAnnounced(s) && Enabled(s, l) && (l.ServerWrite? || l.ServerReplace? || l.Record?)
    ensures WellAnnounced(Apply(s, l))
  {
    if l.ServerWrite? {
      WriteAnnounced(l.origin, l.path, Content(s.files, l.path), l.offset, l.data);
    }
    hide WriteChange, LeavesGap, Affects;
  }

  lemma ClientAnnounced(s: State, l: Step)
    requires WellAnnounced(s) && Enabled(s, l) && (l.Poll? || l.ApplyFirst? || l.InvalidateOwn? || l.Reset?)
    ensures WellAnnounced(Apply(s, l))
  {
    hide Clear, InvalidateAll, Affects, Announced, Dropped, FetchesNotice;
    if l.Poll? {
      NewsFrom(s.log[AnswerStart(s.cursor, l.at)..l.next], s.me);
    } else if l.ApplyFirst? {
      ClearOnlyCache(s, s.batch[0].event);
    } else if l.InvalidateOwn? {
      ClearOnlyCache(s, s.own[l.id].event);
    } else {
      ResetOnlyCache(s);
    }
  }

  lemma ResetOnlyCache(s: State)
    ensures var t := InvalidateAll(s); t == s.(cache := t.cache, generations := t.generations, blind := t.blind)
  {
  }

  lemma StepAnnounced(s: State, l: Step)
    requires WellAnnounced(s) && Enabled(s, l)
    ensures WellAnnounced(Apply(s, l))
  {
    hide Announced, Clear, InvalidateAll, Dropped, FetchesNotice, WriteChange, LeavesGap, Block, News;
    match l
    case ServerWrite(_, _, _, _, _) => ServerAnnounced(s, l);
    case ServerReplace(_, _, _, _) => ServerAnnounced(s, l);
    case Record(_, _) => ServerAnnounced(s, l);
    case Poll(_, _) => ClientAnnounced(s, l);
    case ApplyFirst => ClientAnnounced(s, l);
    case InvalidateOwn(_) => ClientAnnounced(s, l);
    case Reset(_) => ClientAnnounced(s, l);
    case _ =>
  }

  lemma StepKeepsInv(s: State, l: Step)
    requires Inv(s) && Enabled(s, l)
    ensures Inv(Apply(s, l))
  {
    StepCoherent(s, l);
    StepAnnounced(s, l);
  }

  // ------------------------------------------------------------------ whole runs

  /** A mount at start-up: the cursor is taken first, so everything recorded later is still to
      come; the snapshot's small files are then fetched into the empty cache. */
  ghost predicate Start(s: State) {
    && WellAnnounced(s) && s.cursor == |s.log|
    && s.batch == [] && s.own == map[] && s.cache == map[] && s.fetches == map[] && s.blind == {}
  }

  ghost predicate Runs(s: State, steps: seq<Step>)
    decreases steps
  {
    steps != [] ==> Enabled(s, steps[0]) && Runs(Apply(s, steps[0]), steps[1..])
  }

  function Exec(s: State, steps: seq<Step>): State
    requires Runs(s, steps)
    decreases steps
  {
    if steps == [] then s else Exec(Apply(s, steps[0]), steps[1..])
  }

  lemma {:induction false} RunKeepsInv(s: State, steps: seq<Step>)
    requires Inv(s) && Runs(s, steps)
    ensures Inv(Exec(s, steps))
    decreases steps
  {
    if steps != [] {
      StepKeepsInv(s, steps[0]);
      RunKeepsInv(Apply(s, steps[0]), steps[1..]);
    }
  }

  /** Cross-client coherence: in every state of every run, a byte of a cached block that differs
      from the daemon's is covered by a change this mount has not applied yet, unless the path has
      become blind: by a write past the block holding its end, a dropped event, an event evicted
      past the cursor of a blocked poll, or an invalidation or reset that a fetch with its data in
      hand did not notice.  What makes a path blind is forgotten with the next reset, or when a tree
      that has it is invalidated while no fetch has data from that tree. */
  lemma CacheCoherent(s: State, steps: seq<Step>, p: Path, i: nat, o: nat)
    requires Start(s) && Runs(s, steps)
    requires (p, i) in Exec(s, steps).cache && o < BLOCK_SIZE
    ensures var t := Exec(s, steps);
      || At(t.cache[(p, i)], o) == At(Content(t.files, p), i * BLOCK_SIZE + o)
      || Awaited(t, p, i * BLOCK_SIZE + o)
      || Blind(t, p)
  {
    RunKeepsInv(s, steps);
    var t := Exec(s, steps);
    assert Good(t, p, i, t.cache[(p, i)]);
  }

  /** Once every change to a path has been applied, and none went unnoticed, its cached blocks are
      the daemon's. */
  lemma CaughtUpMeansCurrent(s: State, steps: seq<Step>, p: Path, i: nat)
    requires Start(s) && Runs(s, steps) && (p, i) in Exec(s, steps).cache
    requires !Blind(Exec(s, steps), p) && forall q: nat :: !Awaited(Exec(s, steps), p, q)
    ensures Exec(s, steps).cache[(p, i)] == Block(Content(Exec(s, steps).files, p), i)
  {
    RunKeepsInv(s, steps);
    var t := Exec(s, steps);
    assert Good(t, p, i, t.cache[(p, i)]);
    SameBlock(t.cache[(p, i)], Content(t.files, p), i);
  }

  /** An invalidated tree is no longer blind, if no fetch has data from it and nothing above it is
      blind. */
  lemma ReplacementLiftsBlindness(s: State, p: Path)
    requires Enabled(s, ApplyFirst) && s.batch[0].event.kind.Replaced? && !Dropped(s, s.batch[0].event)
    requires forall n <- s.fetches :: s.fetches[n].data.Some? ==> !Under(s.batch[0].event.path, s.fetches[n].path)
    requires Under(s.batch[0].event.path, p)
    ensures Blind(Apply(s, ApplyFirst), p) <==>
      exists root <- s.blind :: Under(root, p) && !Under(s.batch[0].event.path, root)
  {
    var event := s.batch[0].event;
    assert !InHand(s, event.path);
    assert FetchesNotice(s, event) by {
      hide TreePaths;
    }
    InvalidateOnlyCache(s, event);
    hide Invalidate, FetchesNotice, Dropped, InHand, Under;
  }

  /** After a reset just the paths are blind that it could not cut a fetch off from. */
  lemma ResetLiftsBlindness(s: State, answered: nat, p: Path)
    requires Enabled(s, Reset(answered))
    ensures Blind(Apply(s, Reset(answered)), p) <==>
      exists n <- s.fetches :: s.fetches[n].data.Some? && Under(s.fetches[n].path, p) && forall k <- s.cache ::
        k.0 != s.fetches[n].path
  {
    var t, paths := Apply(s, Reset(answered)), set k <- s.cache :: k.0;
    if Blind(t, p) {
      var root :| root in t.blind && Under(root, p);
      var n :| n in s.fetches && s.fetches[n].data.Some? && s.fetches[n].path !in paths && s.fetches[n].path == root;
      assert forall k <- s.cache :: k.0 in paths;
    }
    if n :| n in s.fetches && s.fetches[n].data.Some? && Under(s.fetches[n].path, p) && forall k <- s.cache ::
      k.0 != s.fetches[n].path {
      assert s.fetches[n].path in t.blind;
    }
  }

  // ------------------------------------------------------------------ the poll step and the feed

  /** The log as the daemon keeps it. */
  function AsRecorded(log: seq<Change>): Feed.Log {
    seq(|log|, i requires 0 <= i < |log| => Feed.Recorded(i + 1, log[i].origin, log[i].event))
  }

  function Events(changes: seq<Change>): seq<Feed.Event> {
    seq(|changes|, i requires 0 <= i < |changes| => changes[i].event)
  }

  lemma {:induction false} NewsIsForeign(log: seq<Change>, me: Origin, a: nat, b: nat)
    requires a <= b <= |log| && me != 0
    ensures Feed.Foreign(AsRecorded(log)[a..b], me) == Events(News(log[a..b], me))
    decreases b
  {
    if a < b {
      NewsIsForeign(log, me, a, b - 1);
      assert log[a..b][..b - a - 1] == log[a..b - 1];
      assert AsRecorded(log)[a..b][..b - a - 1] == AsRecorded(log)[a..b - 1];
      var rest := News(log[a..b - 1], me);
      assert Events(rest + [log[b - 1]]) == Events(rest) + [log[b - 1].event];
    }
  }

  /** Whatever the daemon's long poll answers when the log has `at` entries, a poll step receives,
      also from a cursor that was overtaken; and paths become blind exactly if the reply misses
      something. */
  lemma PollIsReply(s: State, at: nat, next: nat, events: seq<Feed.Event>)
    requires s.me != 0 && s.cursor <= at <= |s.log|
    requires Feed.IsPage(AsRecorded(s.log[..at]), s.me, s.cursor, next, events)
    ensures Enabled(s, Poll(at, next))
    ensures var t := Apply(s, Poll(at, next)); t.cursor == next && Events(t.batch) == Events(s.batch) + events
    ensures Missed(s, at) == [] <==> Feed.NothingLost(AsRecorded(s.log[..at]), s.me, s.cursor)
  {
    hide Feed.Foreign, News, Feed.PageEnd, Announced, Affects;
    var log, start := s.log[..at], AnswerStart(s.cursor, at);
    if start == s.cursor {
      OwnIsNoNews([], s.me);
      assert s.log[s.cursor..start] == [];
    }
    NewsBetween(s, at, start, next);
    NewsBetween(s, at, s.cursor, start);
    EventsAppend(s.batch, News(s.log[start..next], s.me));
  }

  lemma NewsBetween(s: State, at: nat, a: nat, b: nat)
    requires s.me != 0 && a <= b <= at <= |s.log|
    ensures Feed.Foreign(AsRecorded(s.log[..at])[a..b], s.me) == Events(News(s.log[a..b], s.me))
  {
    NewsIsForeign(s.log[..at], s.me, a, b);
    assert s.log[..at][a..b] == s.log[a..b];
  }

  lemma EventsAppend(a: seq<Change>, b: seq<Change>)
    ensures Events(a + b) == Events(a) + Events(b)
  {
  }

  // ------------------------------------------------------------------ where the premises matter

  /** A tree invalidation reaches the generation of a path in the tree if and only if the path
      is the named one or happens to have a cached block. */
  lemma TreeBumpsExactly(s: State, root: Path, p: Path)
    ensures Mount.Generation(InvalidateTree(s, root).generations, p) != Mount.Generation(s.generations, p)
      <==> p == root || (Under(root, p) && exists k <- s.cache :: k.0 == p)
  {
  }

  /** So does a reset with a path's generation. */
  lemma ResetBumpsExactly(s: State, p: Path)
    ensures Mount.Generation(InvalidateAll(s).generations, p) != Mount.Generation(s.generations, p)
      <==> exists k <- s.cache :: k.0 == p
  {
    var paths := set k <- s.cache :: k.0;
    assert p in paths <==> exists k <- s.cache :: k.0 == p;
  }

  /** An event drops a cached block if and only if it concerns it, is not for the root, no local write
      is pending on its path or beneath it, and none of the names on its path is a pattern of the
      ignore list or extends one that ends in a star.  All other blocks are kept as they are. */
  lemma EventDropsBlockExactly(s: State, event: Feed.Event, k: Key, names: seq<string>)
    requires k in s.cache && names != [] && (forall name <- names :: '/' !in name) && event.path == Joined(names)
    ensures k !in ApplyChange(s, event).cache <==>
      && event.path != ""
      && (forall p <- s.pending :: p != event.path && !(event.path + "/" <= p))
      && (forall name <- names, pattern <- s.ignore ::
            pattern != name && forall prefix :: pattern == prefix + "*" ==> !(prefix <= name))
      && match event.kind
         case Write(offset, len) =>
           k.0 == event.path &&
             offset / BLOCK_SIZE <= k.1 <= (if len == 0 then offset else offset + len - 1) / BLOCK_SIZE
         case Metadata => false
         case Replaced => k.0 == event.path || event.path + "/" <= k.0
    ensures k in ApplyChange(s, event).cache ==> ApplyChange(s, event).cache[k] == s.cache[k]
  {
    hide *;
    DroppedExactly(s, event, names);
    ClearDropsExactly(s, event, k);
    if Dropped(s, event) {
      DroppedKeeps(s, event);
    } else {
      NotDropped(s, event);
    }
  }

  lemma DroppedExactly(s: State, event: Feed.Event, names: seq<string>)
    requires names != [] && (forall name <- names :: '/' !in name) && event.path == Joined(names)
    ensures !Dropped(s, event) <==>
      && event.path != ""
      && (forall p <- s.pending :: p != event.path && !(event.path + "/" <= p))
      && (forall name <- names, pattern <- s.ignore ::
            pattern != name && forall prefix :: pattern == prefix + "*" ==> !(prefix <= name))
  {
    IgnoredExactly(s.ignore, names);
    forall p: Path
      ensures Under(event.path, p) <==> p == event.path || event.path + "/" <= p
    {
      UnderExactly(event.path, p);
    }
    hide Ignored, Under, Joined;
  }

  lemma DroppedKeeps(s: State, event: Feed.Event)
    requires Dropped(s, event)
    ensures ApplyChange(s, event) == s
  {
    hide Clear, Dropped;
  }

  lemma NotDropped(s: State, event: Feed.Event)
    requires !Dropped(s, event)
    ensures ApplyChange(s, event).cache == Clear(s, event).cache
  {
    hide Clear, Dropped;
  }

  lemma ClearDropsExactly(s: State, event: Feed.Event, k: Key)
    requires k in s.cache
    ensures k !in Clear(s, event).cache <==>
      match event.kind
      case Write(offset, len) =>
        k.0 == event.path && offset / BLOCK_SIZE <= k.1 <= (if len == 0 then offset else offset + len - 1) / BLOCK_SIZE
      case Metadata => false
      case Replaced => k.0 == event.path || event.path + "/" <= k.0
    ensures k in Clear(s, event).cache ==> Clear(s, event).cache[k] == s.cache[k]
  {
    UnderExactly(event.path, k.0);
    ClearOnlyCache(s, event);
    hide Clear, Under;
    assert k.0 in TreePaths(s.cache, event.path) <==> k.0 == event.path || Under(event.path, k.0);
  }

  /** A local write elsewhere does not keep an event from being applied. */
  lemma PendingElsewhere(s: State, event: Feed.Event, p: Path)
    requires p != event.path && !(event.path + "/" <= p)
    ensures ApplyChange(s.(pending := s.pending + {p}), event) == ApplyChange(s, event).(pending := s.pending + {p})
  {
    UnderExactly(event.path, p);
    var t := s.(pending := s.pending + {p});
    ClearAside(s, event, t.pending);
    assert Dropped(t, event) == Dropped(s, event) by {
      hide Ignored, Under;
      assert PendingLocally(t, event.path) == PendingLocally(s, event.path);
    }
    hide Clear, Dropped, Under;
  }

  lemma ClearAside(s: State, event: Feed.Event, pending: set<Path>)
    ensures Clear(s.(pending := pending), event) == Clear(s, event).(pending := pending)
  {
    var t := s.(pending := pending);
    match event.kind
    case Write(offset, len) => hide Touches, Under;
    case Metadata =>
    case Replaced =>
      TreeAside(s, event.path, pending);
      hide InvalidateTree, Under;
      assert InHand(t, event.path) == InHand(s, event.path);
      assert (set r <- t.blind | !Under(event.path, r)) == set r <- s.blind | !Under(event.path, r);
  }

  lemma TreeAside(s: State, root: Path, pending: set<Path>)
    ensures InvalidateTree(s.(pending := pending), root) == InvalidateTree(s, root).(pending := pending)
  {
    var t := s.(pending := pending);
    var u, v := InvalidateTree(t, root), InvalidateTree(s, root);
    hide TreePaths;
    assert TreePaths(t.cache, root) == TreePaths(s.cache, root);
    assert u.cache == v.cache;
    assert u.generations == v.generations;
  }

  lemma {:induction false} RunSnoc(s: State, steps: seq<Step>, l: Step)
    requires Runs(s, steps) && Enabled(Exec(s, steps), l)
    ensures Runs(s, steps + [l]) && Exec(s, steps + [l]) == Apply(Exec(s, steps), l)
    decreases |steps|
  {
    if steps == [] {
      assert [] + [l] == [l] && [l][1..] == [];
    } else {
      assert (steps + [l])[1..] == steps[1..] + [l];
      RunSnoc(Apply(s, steps[0]), steps[1..], l);
    }
  }

  /** A mount (client 1) that starts with one file at p, holding the byte 1. */
  function Fresh(p: Path): State {
    State(1, map[p := [1]], map[], [], 0, [], map[], {}, map[], map[], map[], [], {})
  }

  /** It begins to fetch the file and has its data in hand. */
  lemma FetchInHand(p: Path) returns (steps: seq<Step>, t: State)
    ensures Runs(Fresh(p), steps) && Exec(Fresh(p), steps) == t
    ensures t == Fresh(p).(fetches := map[0 := Mount.Fetch(p, 0, 0, Some([1]))])
  {
    var s := Fresh(p);
    var a := Apply(s, FetchBegin(0, p, 0));
    assert Block([1], 0) == [1];
    t := Apply(a, FetchRead(0));
    assert t == Fresh(p).(fetches := map[0 := Mount.Fetch(p, 0, 0, Some([1]))]);
    hide Apply, Enabled;
    RunSnoc(s, [], FetchBegin(0, p, 0));
    RunSnoc(s, [FetchBegin(0, p, 0)], FetchRead(0));
    steps := [FetchBegin(0, p, 0)] + [FetchRead(0)];
  }

  /** Client 2 makes a change, which is announced and received. */
  lemma ChangeReceived(s: State, steps: seq<Step>, t: State, l: Step, c: Change) returns (more: seq<Step>, u: State)
    requires Runs(s, steps) && Exec(s, steps) == t && Enabled(t, l) && c.origin == 2 && Announced(c)
    requires t.me == 1 && t.log == [] && t.cursor == 0 && t.batch == [] && t.unrecorded == map[]
    requires Apply(t, l) == t.(files := Apply(t, l).files, unrecorded := map[7 := c])
    ensures Runs(s, more) && Exec(s, more) == u
    ensures u == t.(files := Apply(t, l).files, log := [c], cursor := 1, batch := [c])
  {
    u := RecordedAndPolled(Apply(t, l), c);
    hide Apply, Enabled, Announced;
    RunSnoc(s, steps, l);
    RunSnoc(s, steps + [l], Record({7}, c));
    RunSnoc(s, steps + [l] + [Record({7}, c)], Poll(1, 1));
    more := steps + [l] + [Record({7}, c)] + [Poll(1, 1)];
  }

  lemma RecordedAndPolled(a: State, c: Change) returns (u: State)
    requires c.origin == 2 && Announced(c)
    requires a.me == 1 && a.log == [] && a.cursor == 0 && a.batch == [] && a.unrecorded == map[7 := c]
    ensures Enabled(a, Record({7}, c)) && Enabled(Apply(a, Record({7}, c)), Poll(1, 1))
    ensures u == Apply(Apply(a, Record({7}, c)), Poll(1, 1))
    ensures u == a.(unrecorded := map[], log := [c], cursor := 1, batch := [c])
  {
    RecordedAlone(a, c);
    PolledAlone(a.(unrecorded := map[], log := [c]), c);
    u := a.(unrecorded := map[], log := [c], cursor := 1, batch := [c]);
    hide Apply, Enabled, Announced;
  }

  lemma RecordedAlone(a: State, c: Change)
    requires Announced(c) && a.log == [] && a.unrecorded == map[7 := c]
    ensures Enabled(a, Record({7}, c)) && Apply(a, Record({7}, c)) == a.(unrecorded := map[], log := [c])
  {
    hide Affects;
    assert a.unrecorded - {7} == map[];
    assert [] + [c] == [c];
  }

  lemma PolledAlone(b: State, c: Change)
    requires c.origin == 2 && b.me == 1 && b.log == [c] && b.cursor == 0 && b.batch == []
    ensures Enabled(b, Poll(1, 1)) && Apply(b, Poll(1, 1)) == b.(cursor := 1, batch := [c])
  {
    assert [c][0..1] == [c] && [c][..0] == [] && [c][0..0] == [];
    assert News([c], 1) == [c] && News([], 1) == [];
  }

  /** A run in which a fetch misses an invalidation: it has its data when the directory above is
      replaced; the event is applied, and what the fetch inserts is stale with nothing left to
      wait for. */
  lemma TreeInvalidationMissesFetch() returns (s: State, steps: seq<Step>)
    ensures Start(s) && Runs(s, steps) && StaleForGood(Exec(s, steps), "d/f")
  {
    FreshStarts("d/f");
    s := Fresh("d/f");
    var fetching, a := FetchInHand("d/f");
    var c := Change(2, Feed.Event("d", Feed.Replaced), 0);
    var l := ServerReplace(7, 2, "d", map["d/f" := [2]]);
    assert Under("d", "d/f");
    assert forall p: Path :: !Under("d", p) ==> p != "d/f";
    assert Apply(a, l) == a.(files := map["d/f" := [2]], unrecorded := map[7 := c]);
    hide *;
    var received, b := ChangeReceived(s, fetching, a, l, c);
    var d := MissedByFetch(b, c);
    RunSnoc(s, received, ApplyFirst);
    RunSnoc(s, received + [ApplyFirst], FetchInsert(0));
    steps := received + [ApplyFirst] + [FetchInsert(0)];
  }

  /** Is the path's first block cached with a byte that differs from the daemon's, no write
      pending, and no change left that could announce it? */
  predicate StaleForGood(s: State, p: Path) {
    && (p, 0) in s.cache && At(s.cache[(p, 0)], 0) != At(Content(s.files, p), 0)
    && s.pending == {} && s.unrecorded == map[] && s.cursor == |s.log| && s.batch == [] && s.own == map[]
  }

  lemma MissedByFetch(b: State, c: Change) returns (t: State)
    requires c == Change(2, Feed.Event("d", Feed.Replaced), 0)
    requires b == Fresh("d/f").(fetches := map[0 := Mount.Fetch("d/f", 0, 0, Some([1]))], files := map["d/f" := [2]],
      log := [c], cursor := 1, batch := [c])
    ensures Enabled(b, ApplyFirst) && Enabled(Apply(b, ApplyFirst), FetchInsert(0))
    ensures t == Apply(Apply(b, ApplyFirst), FetchInsert(0)) && StaleForGood(t, "d/f")
  {
    var a := Apply(b, ApplyFirst);
    assert "d/f" !in TreePaths(b.cache, "d") && [c][1..] == [];
    assert Mount.Generation(a.generations, "d/f") == 0;
    t := Apply(a, FetchInsert(0));
  }

  /** A run in which an event is dropped: the file is cached, and a local write whose upload will
      fail is pending on it when another client's write is announced. */
  lemma DroppedEventLeavesStaleBlock() returns (s: State, steps: seq<Step>)
    ensures Start(s) && Runs(s, steps) && StaleForGood(Exec(s, steps), "f")
  {
    hide Apply, Enabled, Runs, Exec, Announced, Start, StaleForGood;
    s := Fresh("f");
    FreshStarts("f");
    var fetching, a := FetchInHand("f");
    var b := CachedAndPending(a);
    var c := Change(2, Feed.Event("f", Feed.Write(0, 1)), 0);
    var l := ServerWrite(7, 2, "f", 0, [2]);
    WrittenElsewhere(b, c);
    RunSnoc(s, fetching, FetchInsert(0));
    RunSnoc(s, fetching + [FetchInsert(0)], LocalWrites({"f"}));
    var received, d := ChangeReceived(s, fetching + [FetchInsert(0)] + [LocalWrites({"f"})], b, l, c);
    var t := DroppedWhilePending(d, c);
    RunSnoc(s, received, ApplyFirst);
    RunSnoc(s, received + [ApplyFirst], LocalWrites({}));
    steps := received + [ApplyFirst] + [LocalWrites({})];
  }

  lemma WrittenElsewhere(b: State, c: Change)
    requires c == Change(2, Feed.Event("f", Feed.Write(0, 1)), 0)
    requires b == Fresh("f").(cache := map[("f", 0) := [1]], pending := {"f"})
    ensures Announced(c) && Enabled(b, ServerWrite(7, 2, "f", 0, [2]))
    ensures Apply(b, ServerWrite(7, 2, "f", 0, [2]))
      == b.(files := Apply(b, ServerWrite(7, 2, "f", 0, [2])).files, unrecorded := map[7 := c])
    ensures Apply(b, ServerWrite(7, 2, "f", 0, [2])).files == map["f" := [2]]
  {
    assert WriteAt([1], 0, [2]) == [2];
  }

  lemma CachedAndPending(a: State) returns (t: State)
    requires a == Fresh("f").(fetches := map[0 := Mount.Fetch("f", 0, 0, Some([1]))])
    ensures Enabled(a, FetchInsert(0)) && Enabled(Apply(a, FetchInsert(0)), LocalWrites({"f"}))
    ensures t == Apply(Apply(a, FetchInsert(0)), LocalWrites({"f"}))
    ensures t == Fresh("f").(cache := map[("f", 0) := [1]], pending := {"f"})
  {
    var b := Apply(a, FetchInsert(0));
    assert b.fetches == map[] && b.cache == map[("f", 0) := [1]];
    t := Apply(b, LocalWrites({"f"}));
  }

  lemma DroppedWhilePending(d: State, c: Change) returns (t: State)
    requires c == Change(2, Feed.Event("f", Feed.Write(0, 1)), 0)
    requires d == Fresh("f").(cache := map[("f", 0) := [1]], pending := {"f"}, files := map["f" := [2]], log := [c],
      cursor := 1, batch := [c])
    ensures Enabled(d, ApplyFirst) && Enabled(Apply(d, ApplyFirst), LocalWrites({}))
    ensures t == Apply(Apply(d, ApplyFirst), LocalWrites({})) && StaleForGood(t, "f")
  {
    assert "f" in d.pending && Under("f", "f");
    assert [c][1..] == [];
    t := Apply(Apply(d, ApplyFirst), LocalWrites({}));
  }

  /** A run in which a fetch misses a reset: it has its data when another client writes, and inserts
      it after the reset. */
  lemma ResetMissesFetch() returns (s: State, steps: seq<Step>)
    ensures Start(s) && Runs(s, steps) && StaleForGood(Exec(s, steps), "f")
  {
    hide *;
    s := Fresh("f");
    FreshStarts("f");
    var fetching, a := FetchInHand("f");
    var c := Change(2, Feed.Event("f", Feed.Write(0, 1)), 0);
    var l := ServerWrite(7, 2, "f", 0, [2]);
    var b := WrittenAndRecorded(a, c, l);
    var t := MissedReset(b, c);
    RunSnoc(s, fetching, l);
    RunSnoc(s, fetching + [l], Record({7}, c));
    RunSnoc(s, fetching + [l] + [Record({7}, c)], Reset(1));
    RunSnoc(s, fetching + [l] + [Record({7}, c)] + [Reset(1)], FetchInsert(0));
    steps := fetching + [l] + [Record({7}, c)] + [Reset(1)] + [FetchInsert(0)];
  }

  lemma FreshStarts(p: Path)
    ensures Start(Fresh(p))
  {
  }

  /** Client 2 writes, and this is announced. */
  lemma WrittenAndRecorded(a: State, c: Change, l: Step) returns (b: State)
    requires c == Change(2, Feed.Event("f", Feed.Write(0, 1)), 0) && l == ServerWrite(7, 2, "f", 0, [2])
    requires a == Fresh("f").(cache := a.cache, pending := a.pending, fetches := a.fetches)
    ensures Enabled(a, l) && Enabled(Apply(a, l), Record({7}, c)) && b == Apply(Apply(a, l), Record({7}, c))
    ensures b == a.(files := map["f" := [2]], log := [c])
  {
    assert WriteAt([1], 0, [2]) == [2];
    var t := Apply(a, l);
    assert t == a.(files := map["f" := [2]], unrecorded := map[7 := c]);
    RecordedAlone(t, c);
    b := t.(unrecorded := map[], log := [c]);
  }

  lemma MissedReset(b: State, c: Change) returns (t: State)
    requires b == Fresh("f").(fetches := map[0 := Mount.Fetch("f", 0, 0, Some([1]))], files := map["f" := [2]],
      log := [c])
    ensures Enabled(b, Reset(1)) && Enabled(Apply(b, Reset(1)), FetchInsert(0))
    ensures t == Apply(Apply(b, Reset(1)), FetchInsert(0)) && StaleForGood(t, "f")
  {
    var a := Apply(b, Reset(1));
    assert Mount.Generation(a.generations, "f") == 0;
    t := Apply(a, FetchInsert(0));
  }

  /** A run in which a poll is overtaken while it is blocked: another client writes, and before the
      poll is answered this mount's own events fill the log. */
  lemma OvertakenPollLeavesStaleBlock() returns (s: State, steps: seq<Step>)
    ensures Start(s) && Runs(s, steps) && StaleForGood(Exec(s, steps), "f")
  {
    hide *;
    s := Fresh("f");
    FreshStarts("f");
    var fetching, a := FetchInHand("f");
    var b := CachedAndPending(a);
    var c := Change(2, Feed.Event("f", Feed.Write(0, 1)), 0);
    var own := Change(1, Feed.Event("g", Feed.Metadata), 0);
    var l := ServerWrite(7, 2, "f", 0, [2]);
    var d := WrittenAndRecorded(b, c, l);
    RunSnoc(s, fetching, FetchInsert(0));
    RunSnoc(s, fetching + [FetchInsert(0)], LocalWrites({"f"}));
    var cached := fetching + [FetchInsert(0)] + [LocalWrites({"f"})];
    RunSnoc(s, cached, l);
    RunSnoc(s, cached + [l], Record({7}, c));
    var full := Noise(s, cached + [l] + [Record({7}, c)], own, Feed.MAX_EVENTS);
    var e := d.(log := d.log + seq(Feed.MAX_EVENTS, _ => own));
    var t := Overtaken(e, c, own);
    RunSnoc(s, full, Poll(|e.log|, |e.log|));
    RunSnoc(s, full + [Poll(|e.log|, |e.log|)], LocalWrites({}));
    steps := full + [Poll(|e.log|, |e.log|)] + [LocalWrites({})];
  }

  /** Announcements that stand for no change. */
  lemma {:induction false} Noise(s: State, steps: seq<Step>, c: Change, n: nat) returns (more: seq<Step>)
    requires Runs(s, steps) && c.event.kind.Metadata?
    ensures Runs(s, more) && Exec(s, more) == Exec(s, steps).(log := Exec(s, steps).log + seq(n, _ => c))
  {
    var t := Exec(s, steps);
    if n == 0 {
      more := steps;
      assert t.log + seq(0, _ => c) == t.log;
    } else {
      var before := Noise(s, steps, c, n - 1);
      var u := t.(log := t.log + seq(n - 1, _ => c));
      OneMoreNoise(u, c);
      assert u.log + [c] == t.log + seq(n, _ => c);
      hide Apply, Enabled, Runs, Exec;
      RunSnoc(s, before, Record({}, c));
      more := before + [Record({}, c)];
    }
  }

  lemma OneMoreNoise(u: State, c: Change)
    requires c.event.kind.Metadata?
    ensures Enabled(u, Record({}, c)) && Apply(u, Record({}, c)) == u.(log := u.log + [c])
  {
    assert u.unrecorded - {} == u.unrecorded;
  }

  lemma Overtaken(e: State, c: Change, own: Change) returns (t: State)
    requires c == Change(2, Feed.Event("f", Feed.Write(0, 1)), 0) && own == Change(1, Feed.Event("g", Feed.Metadata), 0)
    requires e == Fresh("f").(cache := map[("f", 0) := [1]], pending := {"f"}, files := map["f" := [2]],
                              log := [c] + seq(Feed.MAX_EVENTS, _ => own))
    ensures var l := Poll(|e.log|, |e.log|);
      Enabled(e, l) && Enabled(Apply(e, l), LocalWrites({})) && t == Apply(Apply(e, l), LocalWrites({}))
    ensures StaleForGood(t, "f")
  {
    var n := |e.log|;
    assert AnswerStart(0, n) == 1 && e.log[1..n] == seq(Feed.MAX_EVENTS, _ => own);
    OwnIsNoNews(e.log[1..n], 1);
    var a := Apply(e, Poll(n, n));
    assert a.batch == [];
    t := Apply(a, LocalWrites({}));
  }

  lemma {:induction false} OwnIsNoNews(log: seq<Change>, me: Origin)
    requires forall c <- log :: c.origin == me
    ensures News(log, me) == []
  {
    if log != [] {
      assert log[|log| - 1] in log;
      OwnIsNoNews(log[..|log| - 1], me);
    }
  }
}
