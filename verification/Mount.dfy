/** One mount's data path: the write-back uploader together with the block cache and the
    fetches that race with it.  No other client writes. */
module Mount {
  import opened Bytes
  import opened Paths
  import opened Wrappers
  import Uploads

  type Key = (Path, nat)

  /** A block read in progress: the generation captured before the read, then the data. */
  datatype Fetch = Fetch(path: Path, index: nat, generation: nat, data: Option<File>)

  datatype State = State(
    up: Uploads.State,
    cache: map<Key, File>,
    generations: map<Path, nat>,
    fetches: map<nat, Fetch>,
    // history: uploads whose request has returned (and with what outcome) and whose range has
    // been invalidated, and the handles of the failed ones among them
    returned: map<nat, bool>,
    doomed: set<nat>,
    // history: the handles with a write that started past the block holding the end of its file
    gapped: set<nat>)

  function Generation(generations: map<Path, nat>, p: Path): nat {
    if p in generations then generations[p] else 0
  }

  function Initial(remote: map<Path, File>): State {
    State(Uploads.Initial(remote), map[], map[], map[], map[], {}, {})
  }

  // ------------------------------------------------------------------ operations

  /** The cached blocks of other paths and those the range does not touch. */
  function DropRange(cache: map<Key, File>, p: Path, offset: nat, len: nat): map<Key, File> {
    map k <- cache | !(k.0 == p && Touches(offset, len, k.1)) :: cache[k]
  }

  function Bump(generations: map<Path, nat>, p: Path): map<Path, nat> {
    generations[p := Generation(generations, p) + 1]
  }

  function InvalidateRange(s: State, p: Path, offset: nat, len: nat): State {
    s.(generations := Bump(s.generations, p), cache := DropRange(s.cache, p, offset, len))
  }

  datatype Step =
    | Write(fh: nat, path: Path, offset: nat, data: File)
    | Dispatch(fh: nat)
    | Transfer(id: nat, k: nat)
    | Invalidate(id: nat, ok: bool)
    | Finish(id: nat, error: int)
    | TakeError(fh: nat)
    | FetchBegin(flight: nat, path: Path, index: nat)
    | FetchRead(flight: nat)
    | FetchInsert(flight: nat)
    | Evict(keys: set<Key>)

  function UploadStep(l: Step): (u: Uploads.Step)
    requires l.Write? || l.Dispatch? || l.Transfer? || l.Finish? || l.TakeError?
  {
    match l
    case Write(fh, path, offset, data) => Uploads.DoWrite(fh, path, offset, data)
    case Dispatch(fh) => Uploads.DoDispatch(fh)
    case Transfer(id, k) => Uploads.DoTransfer(id, k)
    case Finish(id, error) => Uploads.DoFinish(id, error)
    case TakeError(fh) => Uploads.DoTakeError(fh)
  }

  /** Besides what the uploader waits for: a transfer happens while the request is out, and an
      upload leaves the in-flight set only after its range has been invalidated. */
  predicate Enabled(s: State, l: Step, owner: Uploads.Owner) {
    match l
    case Write(fh, path, offset, data) => Uploads.Enabled(s.up, UploadStep(l), owner)
    case Dispatch(fh) => Uploads.Enabled(s.up, UploadStep(l), owner)
    case Transfer(id, k) => Uploads.Enabled(s.up, UploadStep(l), owner) && id !in s.returned
    case Invalidate(id, ok) => id in s.up.inflight && id !in s.returned && (ok ==> s.up.inflight[id].landed)
    case Finish(id, error) => Uploads.Enabled(s.up, UploadStep(l), owner) && id in s.returned &&
      (error == 0 <==> s.returned[id])
    case TakeError(fh) => true
    case FetchBegin(flight, path, index) => flight !in s.fetches
    case FetchRead(flight) => flight in s.fetches
    case FetchInsert(flight) => flight in s.fetches && s.fetches[flight].data.Some?
    case Evict(keys) => true
  }

  function Apply(s: State, l: Step, owner: Uploads.Owner): State
    requires Enabled(s, l, owner)
  {
    match l
    case Write(fh, path, offset, data) =>
      InvalidateRange(s.(up := Uploads.Write(s.up, fh, path, offset, data)), path, offset, |data|).(
        gapped := if LeavesGap(Content(s.up.spec, path), offset, data) then s.gapped + {fh} else s.gapped)
    case Dispatch(fh) => s.(up := Uploads.Dispatch(s.up, fh))
    case Transfer(id, k) => s.(up := Uploads.Transfer(s.up, id, k))
    case Invalidate(id, ok) =>
      var u := s.up.inflight[id];
      InvalidateRange(s, u.path, u.offset, |u.data|).(
        returned := s.returned[id := ok],
        doomed := if ok then s.doomed else s.doomed + {u.fh})
    case Finish(id, error) => s.(up := Uploads.Finish(s.up, id, error))
    case TakeError(fh) => s.(up := Uploads.TakeError(s.up, fh))
    case FetchBegin(flight, path, index) =>
      s.(fetches := s.fetches[flight := Fetch(path, index, Generation(s.generations, path), None)])
    case FetchRead(flight) =>
      var f := s.fetches[flight];
      s.(fetches := s.fetches[flight := f.(data := Some(Block(Content(s.up.remote, f.path), f.index)))])
    case FetchInsert(flight) =>
      var f := s.fetches[flight];
      var t := s.(fetches := s.fetches - {flight});
      if Generation(s.generations, f.path) == f.generation then
        t.(cache := s.cache[(f.path, f.index) := f.data.value])
      else
        t
    case Evict(keys) => s.(cache := s.cache - keys)
  }

  // ------------------------------------------------------------------ coherence

  /** The handles about whose cached blocks nothing is claimed: after a failed upload, or after a
      write past the block holding the end of the file. */
  function Spoiled(s: State): set<nat> {
    s.doomed + s.gapped
  }

  /** Is block i of p touched by an upload that still owes an invalidation? */
  predicate Owed(s: State, p: Path, i: nat) {
    exists id <- s.up.inflight :: id !in s.returned && s.up.inflight[id].path == p &&
      Touches(s.up.inflight[id].offset, |s.up.inflight[id].data|, i)
  }

  predicate Good(s: State, p: Path, i: nat, data: File) {
    data == Block(Content(s.up.remote, p), i) || Owed(s, p, i)
  }

  /** Cached blocks equal the daemon's or await an invalidation. */
  predicate CacheGood(s: State, owner: Uploads.Owner) {
    forall k <- s.cache | owner(k.0) !in Spoiled(s) :: Good(s, k.0, k.1, s.cache[k])
  }

  /** So do fetched blocks that the generation check would still admit. */
  predicate FetchesGood(s: State, owner: Uploads.Owner) {
    forall n <- s.fetches |
      && owner(s.fetches[n].path) !in Spoiled(s) && s.fetches[n].data.Some?
      && s.fetches[n].generation == Generation(s.generations, s.fetches[n].path) ::
      Good(s, s.fetches[n].path, s.fetches[n].index, s.fetches[n].data.value)
  }

  /** No fetch carries a generation from the future. */
  predicate Captured(s: State) {
    forall n <- s.fetches :: s.fetches[n].generation <= Generation(s.generations, s.fetches[n].path)
  }

  /** Does a write at `offset` start no later than the block holding an end that the daemon
      has, or that an earlier upload (numbered below n) will produce? */
  predicate Anchored(up: Uploads.State, p: Path, offset: nat, n: nat) {
    || offset / BLOCK_SIZE <= |Content(up.remote, p)| / BLOCK_SIZE
    || (exists d <- up.inflight :: d < n && Props(up.inflight[d], p, offset))
  }

  predicate Props(u: Uploads.Upload, p: Path, offset: nat) {
    u.path == p && u.data != [] && offset / BLOCK_SIZE <= (u.offset + |u.data|) / BLOCK_SIZE
  }

  predicate Chained(s: State, owner: Uploads.Owner) {
    && (forall c <- s.up.inflight | owner(s.up.inflight[c].path) !in Spoiled(s) && s.up.inflight[c].data != [] ::
          Anchored(s.up, s.up.inflight[c].path, s.up.inflight[c].offset, c))
    && (forall fh <- s.up.buffers | fh !in Spoiled(s) && s.up.buffers[fh].data != [] ::
          Anchored(s.up, s.up.buffers[fh].path, s.up.buffers[fh].offset, s.up.next + 1))
  }

  /** A handle is doomed from the moment one of its uploads returned a failure. */
  predicate Bookkept(s: State) {
    && s.up.failed <= s.doomed
    && (forall id <- s.returned :: id <= s.up.next)
    && (forall id <- s.up.inflight :: id in s.returned ==>
          if s.returned[id] then s.up.inflight[id].landed else s.up.inflight[id].fh in s.doomed)
    && (forall fh <- s.doomed :: fh in s.up.failed || Failing(s, fh))
  }

  /** Has an upload of this handle returned a failure that is not recorded yet? */
  predicate Failing(s: State, fh: nat) {
    exists id <- s.up.inflight :: id in s.returned && !s.returned[id] && s.up.inflight[id].fh == fh
  }

  ghost predicate Inv(s: State, owner: Uploads.Owner) {
    && Uploads.Inv(s.up, owner)
    && CacheGood(s, owner)
    && FetchesGood(s, owner)
    && Captured(s)
    && Chained(s, owner)
    && Bookkept(s)
  }

  // ------------------------------------------------------------------ holes

  /** A position the daemon does not have yet, below the end of some upload, lies in a block
      that an upload still to land touches. */
  lemma {:induction false} HoleIsTouched(s: State, owner: Uploads.Owner, p: Path, q: nat, c: nat) returns (e: nat)
    requires Chained(s, owner) && owner(p) !in Spoiled(s)
    requires |Content(s.up.remote, p)| <= q
    requires c in s.up.inflight && s.up.inflight[c].path == p && s.up.inflight[c].data != []
    requires q < s.up.inflight[c].offset + |s.up.inflight[c].data|
    ensures e in s.up.inflight && s.up.inflight[e].path == p && s.up.inflight[e].data != []
    ensures q < s.up.inflight[e].offset + |s.up.inflight[e].data|
    ensures Touches(s.up.inflight[e].offset, |s.up.inflight[e].data|, q / BLOCK_SIZE)
    decreases c
  {
    var u := s.up.inflight[c];
    if u.offset / BLOCK_SIZE <= q / BLOCK_SIZE {
      e := c;
    } else {
      assert Anchored(s.up, p, u.offset, c);
      var d :| d in s.up.inflight && d < c && Props(s.up.inflight[d], p, u.offset);
      e := HoleIsTouched(s, owner, p, q, d);
    }
  }

  lemma PresentLength(f: File, u: Uploads.Upload)
    requires Uploads.Present(f, u) && u.data != []
    ensures u.offset + |u.data| <= |f|
  {
  }

  /** A transfer changes a block only if an invalidation of it is still owed. */
  lemma TransferOwes(s: State, owner: Uploads.Owner, id: nat, k: nat, i: nat)
    requires Chained(s, owner) && Bookkept(s) && Uploads.Tracked(s.up, owner)
    requires id in s.up.inflight && k <= |s.up.inflight[id].data| && id !in s.returned
    requires owner(s.up.inflight[id].path) !in Spoiled(s)
    ensures var u := s.up.inflight[id];
            var f := Content(s.up.remote, u.path);
            Block(WriteAt(f, u.offset, u.data[..k]), i) == Block(f, i) || Owed(s, u.path, i)
  {
    var u := s.up.inflight[id];
    var f := Content(s.up.remote, u.path);
    if Touches(u.offset, |u.data|, i) {
    } else if k != 0 && exists q: nat :: |f| <= q < u.offset && q / BLOCK_SIZE == i {
      var q: nat :| |f| <= q < u.offset && q / BLOCK_SIZE == i;
      var e := HoleIsTouched(s, owner, u.path, q, id);
      if s.up.inflight[e].landed {
        PresentLength(f, s.up.inflight[e]);
      }
      assert e !in s.returned;
    } else {
      assert k != 0 ==> !Touches(u.offset, k, i);
      WriteChangesBlock(f, u.offset, u.data[..k], i);
    }
  }

  // ------------------------------------------------------------------ invariant, step by step

  /** Every invalidation owed in s is still owed in t. */
  predicate OwesMore(s: State, t: State) {
    forall id <- s.up.inflight | id !in s.returned ::
      && id in t.up.inflight && id !in t.returned
      && t.up.inflight[id].path == s.up.inflight[id].path
      && t.up.inflight[id].offset == s.up.inflight[id].offset
      && t.up.inflight[id].data == s.up.inflight[id].data
  }

  lemma GoodFrame(s: State, t: State, p: Path, i: nat, data: File)
    requires OwesMore(s, t) && Content(s.up.remote, p) == Content(t.up.remote, p)
    requires Good(s, p, i, data)
    ensures Good(t, p, i, data)
  {
    if Owed(s, p, i) {
      var id :| id in s.up.inflight && id !in s.returned && s.up.inflight[id].path == p &&
        Touches(s.up.inflight[id].offset, |s.up.inflight[id].data|, i);
      assert id in t.up.inflight;
    }
  }

  /** Steps that leave the daemon's files, the cache and the fetches alone. */
  lemma QuietStep(s: State, t: State, owner: Uploads.Owner)
    requires CacheGood(s, owner) && FetchesGood(s, owner) && Captured(s)
    requires OwesMore(s, t) && s.up.remote == t.up.remote && Spoiled(s) <= Spoiled(t)
    requires s.fetches == t.fetches && s.generations == t.generations
    requires forall k <- t.cache :: k in s.cache && t.cache[k] == s.cache[k]
    ensures CacheGood(t, owner) && FetchesGood(t, owner) && Captured(t)
  {
    forall k <- t.cache | owner(k.0) !in Spoiled(t) ensures Good(t, k.0, k.1, t.cache[k]) {
      GoodFrame(s, t, k.0, k.1, s.cache[k]);
    }
    forall n <- t.fetches |
      && owner(t.fetches[n].path) !in Spoiled(t) && t.fetches[n].data.Some?
      && t.fetches[n].generation == Generation(t.generations, t.fetches[n].path)
      ensures Good(t, t.fetches[n].path, t.fetches[n].index, t.fetches[n].data.value)
    {
      GoodFrame(s, t, s.fetches[n].path, s.fetches[n].index, s.fetches[n].data.value);
    }
  }

  /** A range invalidation may settle an owed range: cached blocks it touches are dropped,
      fetches of the path are cut off, and everything else is owed by someone else. */
  lemma InvalidateStep(s: State, t: State, p: Path, offset: nat, len: nat, owner: Uploads.Owner)
    requires CacheGood(s, owner) && FetchesGood(s, owner) && Captured(s)
    requires s.up == t.up && Spoiled(s) <= Spoiled(t) && s.fetches == t.fetches
    requires t.cache == DropRange(s.cache, p, offset, len) && t.generations == Bump(s.generations, p)
    requires forall id <- s.up.inflight | id !in s.returned ::
      id !in t.returned ||
        (s.up.inflight[id].path == p && s.up.inflight[id].offset == offset && |s.up.inflight[id].data| == len)
    ensures CacheGood(t, owner) && FetchesGood(t, owner) && Captured(t)
  {
    forall k <- t.cache | owner(k.0) !in Spoiled(t) ensures Good(t, k.0, k.1, t.cache[k]) {
      assert Good(s, k.0, k.1, s.cache[k]);
    }
    forall n <- t.fetches |
      && owner(t.fetches[n].path) !in Spoiled(t) && t.fetches[n].data.Some?
      && t.fetches[n].generation == Generation(t.generations, t.fetches[n].path)
      ensures Good(t, t.fetches[n].path, t.fetches[n].index, t.fetches[n].data.value)
    {
      assert t.fetches[n].path != p;
      assert Good(s, s.fetches[n].path, s.fetches[n].index, s.fetches[n].data.value);
    }
  }

  lemma TransferGood(s: State, id: nat, k: nat, owner: Uploads.Owner, p: Path, i: nat, data: File)
    requires Chained(s, owner) && Bookkept(s) && Uploads.Tracked(s.up, owner)
    requires id in s.up.inflight && k <= |s.up.inflight[id].data| && id !in s.returned
    requires owner(p) !in Spoiled(s) && Good(s, p, i, data)
    ensures Good(s.(up := Uploads.Transfer(s.up, id, k)), p, i, data)
  {
    var t := s.(up := Uploads.Transfer(s.up, id, k));
    assert OwesMore(s, t);
    if p == s.up.inflight[id].path {
      TransferOwes(s, owner, id, k, i);
      if Owed(s, p, i) {
        var e :| e in s.up.inflight && e !in s.returned && s.up.inflight[e].path == p &&
          Touches(s.up.inflight[e].offset, |s.up.inflight[e].data|, i);
        assert e in t.up.inflight;
        assert Owed(t, p, i);
      }
    } else {
      GoodFrame(s, t, p, i, data);
    }
  }

  lemma TransferStep(s: State, id: nat, k: nat, owner: Uploads.Owner)
    requires CacheGood(s, owner) && FetchesGood(s, owner) && Captured(s)
    requires Chained(s, owner) && Bookkept(s) && Uploads.Tracked(s.up, owner)
    requires id in s.up.inflight && k <= |s.up.inflight[id].data| && id !in s.returned
    ensures var t := s.(up := Uploads.Transfer(s.up, id, k));
            CacheGood(t, owner) && FetchesGood(t, owner) && Captured(t)
  {
    forall key <- s.cache | owner(key.0) !in Spoiled(s) {
      TransferGood(s, id, k, owner, key.0, key.1, s.cache[key]);
    }
    forall n <- s.fetches |
      && owner(s.fetches[n].path) !in Spoiled(s) && s.fetches[n].data.Some?
      && s.fetches[n].generation == Generation(s.generations, s.fetches[n].path)
    {
      TransferGood(s, id, k, owner, s.fetches[n].path, s.fetches[n].index, s.fetches[n].data.value);
    }
  }

  lemma FetchStep(s: State, l: Step, owner: Uploads.Owner)
    requires CacheGood(s, owner) && FetchesGood(s, owner) && Captured(s)
    requires l.FetchBegin? || l.FetchRead? || l.FetchInsert?
    requires Enabled(s, l, owner)
    ensures var t := Apply(s, l, owner); CacheGood(t, owner) && FetchesGood(t, owner) && Captured(t)
  {
    hide WriteAt, Touches;
    var t := Apply(s, l, owner);
    forall p: Path, i: nat, data: File | Good(s, p, i, data) ensures Good(t, p, i, data) {
      GoodFrame(s, t, p, i, data);
    }
  }

  // ------------------------------------------------------------------ anchors

  lemma AnchoredFrame(a: Uploads.State, b: Uploads.State, p: Path, offset: nat, n: nat, m: nat)
    requires Anchored(a, p, offset, n) && n <= m
    requires |Content(a.remote, p)| <= |Content(b.remote, p)|
    requires forall d <- a.inflight | d < n && Props(a.inflight[d], p, offset) ::
      (d in b.inflight && Props(b.inflight[d], p, offset))
      || a.inflight[d].offset + |a.inflight[d].data| <= |Content(b.remote, p)|
    ensures Anchored(b, p, offset, m)
  {
    if !(offset / BLOCK_SIZE <= |Content(a.remote, p)| / BLOCK_SIZE) {
      var d :| d in a.inflight && d < n && Props(a.inflight[d], p, offset);
    }
  }

  /** The overlay ends where the daemon's file or some upload ends. */
  lemma {:induction false} OverlayEnd(f: File, inflight: map<nat, Uploads.Upload>, p: Path, n: nat)
    ensures var o := Uploads.Overlay(f, inflight, p, n);
      |o| == |f| || exists d <- inflight :: d <= n && inflight[d].path == p && inflight[d].data != [] &&
                      |o| == inflight[d].offset + |inflight[d].data|
  {
    if n != 0 {
      OverlayEnd(f, inflight, p, n - 1);
    }
  }

  /** A write within the block holding the logical end of file is anchored. */
  lemma PremiseAnchors(up: Uploads.State, p: Path, offset: nat)
    requires Uploads.Separate(up.inflight, up.next)
    requires offset / BLOCK_SIZE <= |Uploads.Overlay(Content(up.remote, p), up.inflight, p, up.next)| / BLOCK_SIZE
    ensures Anchored(up, p, offset, up.next + 1)
  {
    var o := Uploads.Overlay(Content(up.remote, p), up.inflight, p, up.next);
    OverlayEnd(Content(up.remote, p), up.inflight, p, up.next);
    if |o| != |Content(up.remote, p)| {
      var d :| d in up.inflight && d <= up.next && up.inflight[d].path == p && up.inflight[d].data != [] &&
        |o| == up.inflight[d].offset + |up.inflight[d].data|;
      assert Props(up.inflight[d], p, offset);
    }
  }

  lemma AdmitChained(s: State, owner: Uploads.Owner, fh: nat)
    requires Chained(s, owner) && Uploads.Separate(s.up.inflight, s.up.next) && Uploads.Tracked(s.up, owner)
    requires fh in s.up.buffers
    ensures Chained(s.(up := Uploads.Admit(s.up, fh, s.up.buffers[fh])), owner)
  {
    var t := s.(up := Uploads.Admit(s.up, fh, s.up.buffers[fh]));
    forall c <- t.up.inflight | owner(t.up.inflight[c].path) !in Spoiled(t) && t.up.inflight[c].data != []
      ensures Anchored(t.up, t.up.inflight[c].path, t.up.inflight[c].offset, c)
    {
      AnchoredFrame(s.up, t.up, t.up.inflight[c].path, t.up.inflight[c].offset, c, c);
    }
    forall h <- t.up.buffers | h !in Spoiled(t) && t.up.buffers[h].data != []
      ensures Anchored(t.up, t.up.buffers[h].path, t.up.buffers[h].offset, t.up.next + 1)
    {
      AnchoredFrame(s.up, t.up, t.up.buffers[h].path, t.up.buffers[h].offset, s.up.next + 1, t.up.next + 1);
    }
  }

  lemma WriteChained(s: State, owner: Uploads.Owner, fh: nat, path: Path, offset: nat, data: File)
    requires Chained(s, owner) && Uploads.Separate(s.up.inflight, s.up.next) && Uploads.Tracked(s.up, owner)
    requires owner(path) == fh
    requires data != [] && fh !in Spoiled(s) ==>
      offset / BLOCK_SIZE <= |Uploads.Logical(s.up, path, owner)| / BLOCK_SIZE
    ensures Chained(s.(up := Uploads.Write(s.up, fh, path, offset, data)), owner)
  {
    if Uploads.Merges(s.up, fh, path, offset, data) {
      ExtendedChained(s, owner, fh, path, offset, data);
    } else {
      ReplacedChained(s, owner, fh, path, offset, data);
    }
  }

  lemma ExtendedChained(s: State, owner: Uploads.Owner, fh: nat, path: Path, offset: nat, data: File)
    requires Chained(s, owner) && Uploads.Separate(s.up.inflight, s.up.next) && Uploads.Tracked(s.up, owner)
    requires owner(path) == fh && Uploads.Merges(s.up, fh, path, offset, data)
    requires data != [] && fh !in Spoiled(s) ==>
      offset / BLOCK_SIZE <= |Uploads.Logical(s.up, path, owner)| / BLOCK_SIZE
    ensures Chained(s.(up := Uploads.Write(s.up, fh, path, offset, data)), owner)
  {
    hide Chained, Anchored, Uploads.Overlay, Uploads.Tracked, Uploads.Separate;
    var t := s.(up := Uploads.Write(s.up, fh, path, offset, data));
    if s.up.buffers[fh].data == [] && data != [] && fh !in Spoiled(s) {
      PremiseAnchors(s.up, path, offset);
    }
    MergedChained(s, t, owner, fh);
  }

  lemma ReplacedChained(s: State, owner: Uploads.Owner, fh: nat, path: Path, offset: nat, data: File)
    requires Chained(s, owner) && Uploads.Separate(s.up.inflight, s.up.next) && Uploads.Tracked(s.up, owner)
    requires owner(path) == fh && !Uploads.Merges(s.up, fh, path, offset, data)
    requires data != [] && fh !in Spoiled(s) ==>
      offset / BLOCK_SIZE <= |Uploads.Logical(s.up, path, owner)| / BLOCK_SIZE
    ensures Chained(s.(up := Uploads.Write(s.up, fh, path, offset, data)), owner)
  {
    hide Chained, Anchored, Uploads.Overlay, Uploads.Tracked, WriteAt;
    var t := s.(up := Uploads.Write(s.up, fh, path, offset, data));
    if fh in s.up.buffers {
      var a := s.(up := Uploads.Admit(s.up, fh, s.up.buffers[fh]));
      AdmitChained(s, owner, fh);
      Uploads.AdmitOverlay(s.up, fh, s.up.buffers[fh], path);
      FreshChained(a, owner, fh, path, offset, data, t);
    } else {
      FreshChained(s, owner, fh, path, offset, data, t);
    }
  }

  lemma MergedChained(s: State, t: State, owner: Uploads.Owner, fh: nat)
    requires Chained(s, owner) && fh in s.up.buffers && fh in t.up.buffers && Spoiled(s) == Spoiled(t)
    requires t.up == s.up.(buffers := s.up.buffers[fh := t.up.buffers[fh]], spec := t.up.spec)
    requires t.up.buffers[fh].path == s.up.buffers[fh].path && t.up.buffers[fh].offset == s.up.buffers[fh].offset
    requires s.up.buffers[fh].data == [] && t.up.buffers[fh].data != [] && fh !in Spoiled(s) ==>
      Anchored(s.up, s.up.buffers[fh].path, s.up.buffers[fh].offset, s.up.next + 1)
    ensures Chained(t, owner)
  {
    forall c <- t.up.inflight | owner(t.up.inflight[c].path) !in Spoiled(t) && t.up.inflight[c].data != []
      ensures Anchored(t.up, t.up.inflight[c].path, t.up.inflight[c].offset, c)
    {
      AnchoredFrame(s.up, t.up, t.up.inflight[c].path, t.up.inflight[c].offset, c, c);
    }
    forall h <- t.up.buffers | h !in Spoiled(t) && t.up.buffers[h].data != []
      ensures Anchored(t.up, t.up.buffers[h].path, t.up.buffers[h].offset, t.up.next + 1)
    {
      AnchoredFrame(s.up, t.up, t.up.buffers[h].path, t.up.buffers[h].offset, s.up.next + 1, t.up.next + 1);
    }
  }

  lemma FreshChained(a: State, owner: Uploads.Owner, fh: nat, path: Path, offset: nat, data: File, t: State)
    requires Chained(a, owner) && Spoiled(a) == Spoiled(t)
    requires forall id <- a.up.inflight :: 1 <= id <= a.up.next
    requires t.up == a.up.(buffers := a.up.buffers[fh := Uploads.Pending(path, offset, data)], spec := t.up.spec)
    requires
      var o := Uploads.Overlay(Content(a.up.remote, path), a.up.inflight, path, a.up.next);
      data != [] && fh !in Spoiled(a) ==> offset / BLOCK_SIZE <= |o| / BLOCK_SIZE
    ensures Chained(t, owner)
  {
    if data != [] && fh !in Spoiled(a) {
      OverlayEnd(Content(a.up.remote, path), a.up.inflight, path, a.up.next);
      var o := Uploads.Overlay(Content(a.up.remote, path), a.up.inflight, path, a.up.next);
      if |o| != |Content(a.up.remote, path)| {
        var d :| d in a.up.inflight && d <= a.up.next && a.up.inflight[d].path == path && a.up.inflight[d].data != [] &&
          |o| == a.up.inflight[d].offset + |a.up.inflight[d].data|;
        assert Props(t.up.inflight[d], path, offset);
      }
      assert Anchored(t.up, path, offset, t.up.next + 1);
    }
    forall c <- t.up.inflight | owner(t.up.inflight[c].path) !in Spoiled(t) && t.up.inflight[c].data != []
      ensures Anchored(t.up, t.up.inflight[c].path, t.up.inflight[c].offset, c)
    {
      AnchoredFrame(a.up, t.up, t.up.inflight[c].path, t.up.inflight[c].offset, c, c);
    }
    forall h <- t.up.buffers | h !in Spoiled(t) && t.up.buffers[h].data != []
      ensures Anchored(t.up, t.up.buffers[h].path, t.up.buffers[h].offset, t.up.next + 1)
    {
      if h != fh {
        AnchoredFrame(a.up, t.up, t.up.buffers[h].path, t.up.buffers[h].offset, a.up.next + 1, t.up.next + 1);
      }
    }
  }

  predicate SameRange(u: Uploads.Upload, v: Uploads.Upload) {
    u.path == v.path && u.offset == v.offset && u.data == v.data
  }

  /** Anchors survive when the daemon's files only grow and no buffer or upload changes, except
      that an upload which has landed may leave. */
  lemma GrowthChained(s: State, t: State, owner: Uploads.Owner)
    requires Chained(s, owner) && Spoiled(s) <= Spoiled(t) && s.up.next == t.up.next
    requires forall fh <- t.up.buffers :: fh in s.up.buffers && t.up.buffers[fh] == s.up.buffers[fh]
    requires forall fh <- t.up.buffers :: owner(t.up.buffers[fh].path) == fh
    requires forall c <- t.up.inflight :: c in s.up.inflight && SameRange(s.up.inflight[c], t.up.inflight[c])
    requires forall p: Path :: |Content(s.up.remote, p)| <= |Content(t.up.remote, p)|
    requires forall d <- s.up.inflight | owner(s.up.inflight[d].path) !in Spoiled(t) && s.up.inflight[d].data != [] ::
      d in t.up.inflight ||
        s.up.inflight[d].offset + |s.up.inflight[d].data| <= |Content(t.up.remote, s.up.inflight[d].path)|
    ensures Chained(t, owner)
  {
    forall c <- t.up.inflight | owner(t.up.inflight[c].path) !in Spoiled(t) && t.up.inflight[c].data != []
      ensures Anchored(t.up, t.up.inflight[c].path, t.up.inflight[c].offset, c)
    {
      AnchoredFrame(s.up, t.up, t.up.inflight[c].path, t.up.inflight[c].offset, c, c);
    }
    forall h <- t.up.buffers | h !in Spoiled(t) && t.up.buffers[h].data != []
      ensures Anchored(t.up, t.up.buffers[h].path, t.up.buffers[h].offset, t.up.next + 1)
    {
      AnchoredFrame(s.up, t.up, t.up.buffers[h].path, t.up.buffers[h].offset, s.up.next + 1, t.up.next + 1);
    }
  }

  lemma WriteStepChained(s: State, l: Step, owner: Uploads.Owner)
    requires Inv(s, owner) && Enabled(s, l, owner) && l.Write?
    ensures Chained(Apply(s, l, owner), owner)
  {
    var t := Apply(s, l, owner);
    var m := s.(gapped := t.gapped);
    OtherStepChained(s, m, owner);
    assert l.fh !in s.doomed ==> Uploads.Logical(s.up, l.path, owner) == Content(s.up.spec, l.path);
    WriteChained(m, owner, l.fh, l.path, l.offset, l.data);
    Uploads.WriteTracked(s.up, l.fh, l.path, l.offset, l.data, owner);
    GrowthChained(m.(up := t.up), t, owner);
  }

  lemma DispatchStepChained(s: State, fh: nat, owner: Uploads.Owner)
    requires Inv(s, owner)
    ensures Chained(s.(up := Uploads.Dispatch(s.up, fh)), owner)
  {
    if fh in s.up.buffers {
      AdmitChained(s, owner, fh);
      Uploads.DispatchTracked(s.up, fh, owner);
      GrowthChained(s.(up := Uploads.Admit(s.up, fh, s.up.buffers[fh])), s.(up := Uploads.Dispatch(s.up, fh)), owner);
    }
  }

  lemma TransferChained(s: State, id: nat, k: nat, owner: Uploads.Owner)
    requires Chained(s, owner) && Uploads.Tracked(s.up, owner)
    requires id in s.up.inflight && k <= |s.up.inflight[id].data|
    ensures Chained(s.(up := Uploads.Transfer(s.up, id, k)), owner)
  {
    GrowthChained(s, s.(up := Uploads.Transfer(s.up, id, k)), owner);
  }

  lemma FinishChained(s: State, id: nat, error: int, owner: Uploads.Owner)
    requires Inv(s, owner) && Enabled(s, Finish(id, error), owner)
    ensures Chained(s.(up := Uploads.Finish(s.up, id, error)), owner)
  {
    LandedLength(s, id, error, owner);
    FinishedChained(s, id, error, owner);
  }

  lemma LandedLength(s: State, id: nat, error: int, owner: Uploads.Owner)
    requires Inv(s, owner) && Enabled(s, Finish(id, error), owner)
    ensures var u := s.up.inflight[id];
      owner(u.path) !in Spoiled(s) && u.data != [] ==> u.offset + |u.data| <= |Content(s.up.remote, u.path)|
  {
    var u := s.up.inflight[id];
    hide CacheGood, FetchesGood, Chained;
    if owner(u.path) !in Spoiled(s) && u.data != [] {
      PresentLength(Content(s.up.remote, u.path), u);
    }
  }

  lemma FinishedChained(s: State, id: nat, error: int, owner: Uploads.Owner)
    requires Chained(s, owner) && Uploads.Tracked(s.up, owner) && id in s.up.inflight
    requires var u := s.up.inflight[id];
      owner(u.path) !in Spoiled(s) && u.data != [] ==> u.offset + |u.data| <= |Content(s.up.remote, u.path)|
    ensures Chained(s.(up := Uploads.Finish(s.up, id, error)), owner)
  {
    GrowthChained(s, s.(up := Uploads.Finish(s.up, id, error)), owner);
  }

  lemma OtherStepChained(s: State, t: State, owner: Uploads.Owner)
    requires Chained(s, owner) && Spoiled(s) <= Spoiled(t) && Uploads.Tracked(s.up, owner)
    requires t.up.remote == s.up.remote && t.up.buffers == s.up.buffers
    requires t.up.inflight == s.up.inflight && t.up.next == s.up.next
    ensures Chained(t, owner)
  {
    GrowthChained(s, t, owner);
  }

  lemma StepChained(s: State, l: Step, owner: Uploads.Owner)
    requires Inv(s, owner) && Enabled(s, l, owner)
    ensures Chained(Apply(s, l, owner), owner)
  {
    match l
    case Write(fh, path, offset, data) => WriteStepChained(s, l, owner);
    case Dispatch(fh) => DispatchStepChained(s, fh, owner);
    case Transfer(id, k) => TransferChained(s, id, k, owner);
    case Finish(id, error) => FinishChained(s, id, error, owner);
    case _ => RestChained(s, l, owner);
  }

  lemma RestChained(s: State, l: Step, owner: Uploads.Owner)
    requires Inv(s, owner) && Enabled(s, l, owner)
    requires !l.Write? && !l.Dispatch? && !l.Transfer? && !l.Finish?
    ensures Chained(Apply(s, l, owner), owner)
  {
    hide CacheGood, FetchesGood, Captured, Bookkept, Block;
    OtherStepChained(s, Apply(s, l, owner), owner);
  }

  lemma FailingFrame(s: State, t: State)
    requires Bookkept(s) && s.up.failed <= t.up.failed && s.doomed == t.doomed && s.returned == t.returned
    requires forall id <- s.up.inflight | id in s.returned && !s.returned[id] ::
      (id in t.up.inflight && t.up.inflight[id].fh == s.up.inflight[id].fh) || s.up.inflight[id].fh in t.up.failed
    ensures forall fh <- t.doomed :: fh in t.up.failed || Failing(t, fh)
  {
    forall fh <- t.doomed | fh !in t.up.failed ensures Failing(t, fh) {
      var id :| id in s.up.inflight && id in s.returned && !s.returned[id] && s.up.inflight[id].fh == fh;
      assert id in t.up.inflight;
    }
  }

  lemma UploadStepBookkept(s: State, l: Step, owner: Uploads.Owner)
    requires Bookkept(s) && Uploads.Separate(s.up.inflight, s.up.next) && Enabled(s, l, owner)
    requires l.Dispatch? || l.Transfer? || l.Finish? || l.TakeError?
    ensures Bookkept(Apply(s, l, owner))
  {
    if l.Finish? {
      FinishBookkept(s, l, owner);
    } else {
      KeepBookkept(s, l, owner);
    }
  }

  lemma FinishBookkept(s: State, l: Step, owner: Uploads.Owner)
    requires Bookkept(s) && Uploads.Separate(s.up.inflight, s.up.next) && Enabled(s, l, owner) && l.Finish?
    ensures Bookkept(Apply(s, l, owner))
  {
    FailingFrame(s, Apply(s, l, owner));
  }

  lemma KeepBookkept(s: State, l: Step, owner: Uploads.Owner)
    requires Bookkept(s) && Uploads.Separate(s.up.inflight, s.up.next) && Enabled(s, l, owner)
    requires l.Dispatch? || l.Transfer? || l.TakeError?
    ensures Bookkept(Apply(s, l, owner))
  {
    hide WriteAt;
    FailingFrame(s, Apply(s, l, owner));
  }

  lemma WriteBookkept(s: State, t: State, l: Step, owner: Uploads.Owner)
    requires Bookkept(s) && Uploads.Separate(s.up.inflight, s.up.next) && l.Write?
    requires t.up == Uploads.Write(s.up, l.fh, l.path, l.offset, l.data) && t.returned == s.returned &&
      t.doomed == s.doomed
    ensures Bookkept(t)
  {
    FailingFrame(s, t);
  }

  lemma InvalidateBookkept(s: State, t: State, id: nat, ok: bool)
    requires Bookkept(s) && Uploads.Separate(s.up.inflight, s.up.next)
    requires id in s.up.inflight && id !in s.returned && (ok ==> s.up.inflight[id].landed)
    requires t.up == s.up && t.returned == s.returned[id := ok]
    requires t.doomed == if ok then s.doomed else s.doomed + {s.up.inflight[id].fh}
    ensures Bookkept(t)
  {
    forall fh <- t.doomed | fh !in t.up.failed ensures Failing(t, fh) {
      if fh in s.doomed {
        var e :| e in s.up.inflight && e in s.returned && !s.returned[e] && s.up.inflight[e].fh == fh;
        assert e in t.up.inflight && e in t.returned;
      } else {
        assert id in t.up.inflight;
      }
    }
  }

  lemma StepBookkept(s: State, l: Step, owner: Uploads.Owner)
    requires Bookkept(s) && Uploads.Separate(s.up.inflight, s.up.next) && Enabled(s, l, owner)
    ensures Bookkept(Apply(s, l, owner))
  {
    match l
    case Write(_, _, _, _) => WriteBookkept(s, Apply(s, l, owner), l, owner);
    case Invalidate(id, ok) => InvalidateBookkept(s, Apply(s, l, owner), id, ok);
    case Dispatch(_) => UploadStepBookkept(s, l, owner);
    case Transfer(_, _) => UploadStepBookkept(s, l, owner);
    case Finish(_, _) => UploadStepBookkept(s, l, owner);
    case TakeError(_) => UploadStepBookkept(s, l, owner);
    case _ => FailingFrame(s, Apply(s, l, owner));
  }

  predicate Clean(s: State, owner: Uploads.Owner) {
    CacheGood(s, owner) && FetchesGood(s, owner) && Captured(s)
  }

  lemma WriteOnlyAdds(u: Uploads.State, fh: nat, path: Path, offset: nat, data: File)
    requires Uploads.Separate(u.inflight, u.next)
    ensures var v := Uploads.Write(u, fh, path, offset, data);
      v.remote == u.remote && forall id <- u.inflight :: id in v.inflight && v.inflight[id] == u.inflight[id]
  {
  }

  lemma UploadsAdded(s: State, m: State, owner: Uploads.Owner)
    requires Clean(s, owner) && m == s.(up := m.up) && m.up.remote == s.up.remote
    requires forall id <- s.up.inflight :: id in m.up.inflight && m.up.inflight[id] == s.up.inflight[id]
    ensures Clean(m, owner)
  {
    QuietStep(s, m, owner);
  }

  lemma WriteCoherent(s: State, l: Step, owner: Uploads.Owner)
    requires Clean(s, owner) && Uploads.Separate(s.up.inflight, s.up.next) && Enabled(s, l, owner) && l.Write?
    ensures Clean(Apply(s, l, owner), owner)
  {
    var m := s.(up := Uploads.Write(s.up, l.fh, l.path, l.offset, l.data));
    WriteOnlyAdds(s.up, l.fh, l.path, l.offset, l.data);
    UploadsAdded(s, m, owner);
    InvalidateStep(m, Apply(s, l, owner), l.path, l.offset, |l.data|, owner);
  }

  lemma InvalidateCoherent(s: State, l: Step, owner: Uploads.Owner)
    requires Clean(s, owner) && Enabled(s, l, owner) && l.Invalidate?
    ensures Clean(Apply(s, l, owner), owner)
  {
    var u := s.up.inflight[l.id];
    InvalidateStep(s, Apply(s, l, owner), u.path, u.offset, |u.data|, owner);
  }

  lemma FinishCoherent(s: State, l: Step, owner: Uploads.Owner)
    requires Clean(s, owner) && Uploads.Separate(s.up.inflight, s.up.next) && Enabled(s, l, owner)
    requires l.Finish? || l.Dispatch? || l.TakeError? || l.Evict?
    ensures Clean(Apply(s, l, owner), owner)
  {
    if l.Finish? {
      FinishedCoherent(s, l.id, l.error, owner);
    } else {
      RestCoherent(s, l, owner);
    }
  }

  lemma FinishedCoherent(s: State, id: nat, error: int, owner: Uploads.Owner)
    requires Clean(s, owner) && Enabled(s, Finish(id, error), owner)
    ensures Clean(s.(up := Uploads.Finish(s.up, id, error)), owner)
  {
    QuietStep(s, s.(up := Uploads.Finish(s.up, id, error)), owner);
  }

  lemma RestCoherent(s: State, l: Step, owner: Uploads.Owner)
    requires Clean(s, owner) && Uploads.Separate(s.up.inflight, s.up.next) && Enabled(s, l, owner)
    requires l.Dispatch? || l.TakeError? || l.Evict?
    ensures Clean(Apply(s, l, owner), owner)
  {
    QuietStep(s, Apply(s, l, owner), owner);
  }

  lemma StepCoherent(s: State, l: Step, owner: Uploads.Owner)
    requires Inv(s, owner) && Enabled(s, l, owner)
    ensures Clean(Apply(s, l, owner), owner)
  {
    match l
    case Write(_, _, _, _) => WriteCoherent(s, l, owner);
    case Transfer(id, k) => TransferStep(s, id, k, owner);
    case Invalidate(_, _) => InvalidateCoherent(s, l, owner);
    case FetchBegin(_, _, _) => FetchStep(s, l, owner);
    case FetchRead(_) => FetchStep(s, l, owner);
    case FetchInsert(_) => FetchStep(s, l, owner);
    case _ => FinishCoherent(s, l, owner);
  }

  lemma StepUploads(s: State, l: Step, owner: Uploads.Owner)
    requires Uploads.Inv(s.up, owner) && Enabled(s, l, owner)
    ensures Uploads.Inv(Apply(s, l, owner).up, owner)
  {
    if l.Write? || l.Dispatch? || l.Transfer? || l.Finish? || l.TakeError? {
      Uploads.StepKeepsInv(s.up, UploadStep(l), owner);
    }
  }

  lemma StepKeepsInv(s: State, l: Step, owner: Uploads.Owner)
    requires Inv(s, owner) && Enabled(s, l, owner)
    ensures Inv(Apply(s, l, owner), owner)
  {
    StepUploads(s, l, owner);
    StepCoherent(s, l, owner);
    StepChained(s, l, owner);
    StepBookkept(s, l, owner);
  }

  // ------------------------------------------------------------------ whole runs

  ghost predicate Runs(s: State, steps: seq<Step>, owner: Uploads.Owner)
    decreases steps
  {
    steps != [] ==> Enabled(s, steps[0], owner) && Runs(Apply(s, steps[0], owner), steps[1..], owner)
  }

  function Exec(s: State, steps: seq<Step>, owner: Uploads.Owner): State
    requires Runs(s, steps, owner)
    decreases steps
  {
    if steps == [] then s else Exec(Apply(s, steps[0], owner), steps[1..], owner)
  }

  lemma {:induction false} RunKeepsInv(s: State, steps: seq<Step>, owner: Uploads.Owner)
    requires Inv(s, owner) && Runs(s, steps, owner)
    ensures Inv(Exec(s, steps, owner), owner)
    decreases steps
  {
    if steps != [] {
      StepKeepsInv(s, steps[0], owner);
      RunKeepsInv(Apply(s, steps[0], owner), steps[1..], owner);
    }
  }

  /** What `flush_matching` has established for a path when it returns. */
  predicate Flushed(s: State, p: Path, owner: Uploads.Owner) {
    && (owner(p) in s.up.buffers ==> s.up.buffers[owner(p)].path != p)
    && (forall id <- s.up.inflight :: s.up.inflight[id].path != p)
  }

  /** The state a read finds after flushing: over every run, once the path has drained and
      its handle has had no failed upload, the daemon's file is the sequence of writes; and if the
      handle has made no write past the block holding the end of a file, every cached block of the
      path is a block of that file. */
  lemma ReadSeesWrites(remote: map<Path, File>, steps: seq<Step>, owner: Uploads.Owner, p: Path)
    requires Runs(Initial(remote), steps, owner)
    requires Flushed(Exec(Initial(remote), steps, owner), p, owner)
    requires owner(p) !in Exec(Initial(remote), steps, owner).doomed
    ensures var t := Exec(Initial(remote), steps, owner);
      && Content(t.up.remote, p) == Content(t.up.spec, p)
      && (owner(p) !in t.gapped ==> forall i: nat ::
        (p, i) in t.cache ==> t.cache[(p, i)] == Block(Content(t.up.spec, p), i))
  {
    var s := Initial(remote);
    Uploads.InitialInv(remote, owner);
    RunKeepsInv(s, steps, owner);
    var t := Exec(s, steps, owner);
    Uploads.SettledPath(t.up, owner, p);
    forall i: nat | (p, i) in t.cache && owner(p) !in t.gapped
      ensures t.cache[(p, i)] == Block(Content(t.up.spec, p), i)
    {
      assert Good(t, p, i, t.cache[(p, i)]);
    }
  }

  // ------------------------------------------------------------------ writes that leave a gap

  /** For one write to a file whose cached blocks are all current: after the invalidation of its
      range they are still current for the written file if and only if the write starts no later
      than the block holding the end of the file, or no block from there to the write is cached. */
  lemma CacheStaysCurrentExactly(cache: map<Key, File>, p: Path, f: File, offset: nat, data: File)
    requires forall k <- cache | k.0 == p :: cache[k] == Block(f, k.1)
    requires data != []
    ensures (forall k <- DropRange(cache, p, offset, |data|) | k.0 == p ::
      cache[k] == Block(WriteAt(f, offset, data), k.1)) <==>
      (forall k <- cache | k.0 == p :: !(|f| / BLOCK_SIZE <= k.1 < offset / BLOCK_SIZE))
  {
    forall k <- cache | k.0 == p
      ensures Touches(offset, |data|, k.1) ==> !(|f| / BLOCK_SIZE <= k.1 < offset / BLOCK_SIZE)
      ensures !Touches(offset, |data|, k.1) ==>
        (cache[k] == Block(WriteAt(f, offset, data), k.1) <==> !(|f| / BLOCK_SIZE <= k.1 < offset / BLOCK_SIZE))
    {
      if !Touches(offset, |data|, k.1) {
        GapBlocks(f, offset, data, k.1);
      }
    }
  }

  lemma {:induction false} RunSnoc(s: State, steps: seq<Step>, l: Step, owner: Uploads.Owner)
    requires Runs(s, steps, owner) && Enabled(Exec(s, steps, owner), l, owner)
    ensures Runs(s, steps + [l], owner) && Exec(s, steps + [l], owner) == Apply(Exec(s, steps, owner), l, owner)
    decreases |steps|
  {
    if steps == [] {
      assert [] + [l] == [l] && [l][1..] == [];
    } else {
      assert (steps + [l])[1..] == steps[1..] + [l];
      RunSnoc(Apply(s, steps[0], owner), steps[1..], l, owner);
    }
  }

  /** A one-byte file whose block has been fetched into the cache. */
  function OneByteCached(p: Path): State {
    var s := Initial(map[p := [1]]);
    s.(cache := map[(p, 0) := [1]])
  }

  lemma FetchedByRun(p: Path, owner: Uploads.Owner) returns (steps: seq<Step>)
    ensures Runs(Initial(map[p := [1]]), steps, owner)
    ensures Exec(Initial(map[p := [1]]), steps, owner) == OneByteCached(p)
  {
    var s := Initial(map[p := [1]]);
    var a := Apply(s, FetchBegin(0, p, 0), owner);
    assert Block([1], 0) == [1];
    var b := Apply(a, FetchRead(0), owner);
    assert b == s.(fetches := map[0 := Fetch(p, 0, 0, Some([1]))]);
    var c := Apply(b, FetchInsert(0), owner);
    assert c == OneByteCached(p);
    hide Apply, Enabled;
    RunSnoc(s, [], FetchBegin(0, p, 0), owner);
    RunSnoc(s, [FetchBegin(0, p, 0)], FetchRead(0), owner);
    RunSnoc(s, [FetchBegin(0, p, 0)] + [FetchRead(0)], FetchInsert(0), owner);
    steps := [FetchBegin(0, p, 0)] + [FetchRead(0)] + [FetchInsert(0)];
  }

  /** A byte is written into the second block, uploaded and invalidated. */
  lemma SecondBlockWritten(p: Path, owner: Uploads.Owner) returns (a: State, b: State, c: State, d: State, t: State)
    ensures Enabled(OneByteCached(p), Write(owner(p), p, BLOCK_SIZE, [2]), owner)
    ensures a == Apply(OneByteCached(p), Write(owner(p), p, BLOCK_SIZE, [2]), owner)
    ensures Enabled(a, Dispatch(owner(p)), owner) && b == Apply(a, Dispatch(owner(p)), owner)
    ensures Enabled(b, Transfer(1, 1), owner) && c == Apply(b, Transfer(1, 1), owner)
    ensures Enabled(c, Invalidate(1, true), owner) && d == Apply(c, Invalidate(1, true), owner)
    ensures Enabled(d, Finish(1, 0), owner) && t == Apply(d, Finish(1, 0), owner)
    ensures t.up.buffers == map[] && t.up.inflight == map[] && t.up.errors == map[] && t.doomed == {}
    ensures t.cache == map[(p, 0) := [1]] && Content(t.up.remote, p) == WriteAt([1], BLOCK_SIZE, [2])
  {
    var fh := owner(p);
    var s := OneByteCached(p);
    hide WriteAt;
    a := Apply(s, Write(fh, p, BLOCK_SIZE, [2]), owner);
    assert a.up.buffers == map[fh := Uploads.Pending(p, BLOCK_SIZE, [2])] && a.cache == map[(p, 0) := [1]];
    b := Apply(a, Dispatch(fh), owner);
    assert b.up.inflight == map[1 := Uploads.Upload(fh, p, BLOCK_SIZE, [2], false)];
    c := Apply(b, Transfer(1, 1), owner);
    assert [2][..1] == [2];
    assert c.up.inflight == map[1 := Uploads.Upload(fh, p, BLOCK_SIZE, [2], true)];
    d := Apply(c, Invalidate(1, true), owner);
    assert d.cache == map[(p, 0) := [1]];
    t := Apply(d, Finish(1, 0), owner);
  }

  /** A run in which it goes wrong: a one-byte file is read into the cache, a byte is written into
      its second block, uploaded and invalidated; the path is drained, no upload failed, and the
      first block is still cached as it was. */
  lemma GapWriteLeavesStaleBlock(p: Path, owner: Uploads.Owner) returns (remote: map<Path, File>, steps: seq<Step>)
    ensures Runs(Initial(remote), steps, owner)
    ensures var t := Exec(Initial(remote), steps, owner);
      && Flushed(t, p, owner) && owner(p) !in t.doomed && t.up.errors == map[]
      && (p, 0) in t.cache && t.cache[(p, 0)] != Block(Content(t.up.remote, p), 0)
  {
    remote := map[p := [1]];
    var s, fh := Initial(remote), owner(p);
    var fetched := FetchedByRun(p, owner);
    var _, _, _, _, t := SecondBlockWritten(p, owner);
    hide Apply, Enabled;
    var l0, l1, l2, l3, l4 := Write(fh, p, BLOCK_SIZE, [2]), Dispatch(fh), Transfer(1, 1), Invalidate(1, true),
      Finish(1, 0);
    RunSnoc(s, fetched, l0, owner);
    RunSnoc(s, fetched + [l0], l1, owner);
    RunSnoc(s, fetched + [l0] + [l1], l2, owner);
    RunSnoc(s, fetched + [l0] + [l1] + [l2], l3, owner);
    RunSnoc(s, fetched + [l0] + [l1] + [l2] + [l3], l4, owner);
    steps := fetched + [l0] + [l1] + [l2] + [l3] + [l4];
    GapBlocks([1], BLOCK_SIZE, [2], 0);
    assert Block([1], 0) == [1];
  }

  /** Caching a block of the daemon's current file keeps the invariant. */
  lemma InsertKeepsInv(s: State, p: Path, i: nat, owner: Uploads.Owner)
    requires Inv(s, owner)
    ensures Inv(s.(cache := s.cache[(p, i) := Block(Content(s.up.remote, p), i)]), owner)
  {
    var t := s.(cache := s.cache[(p, i) := Block(Content(s.up.remote, p), i)]);
    InsertedGood(s, t, p, i, owner);
    InsertedFrame(s, t, owner);
    hide Uploads.Inv, Uploads.Tracked, CacheGood, FetchesGood, Captured, Chained, Bookkept;
    assert Uploads.Inv(t.up, owner);
  }

  lemma InsertedGood(s: State, t: State, p: Path, i: nat, owner: Uploads.Owner)
    requires CacheGood(s, owner) && t == s.(cache := s.cache[(p, i) := Block(Content(s.up.remote, p), i)])
    ensures CacheGood(t, owner)
  {
    hide Block;
    forall k <- t.cache | owner(k.0) !in Spoiled(t) ensures Good(t, k.0, k.1, t.cache[k]) {
      if k != (p, i) {
        GoodFrame(s, t, k.0, k.1, s.cache[k]);
      }
    }
  }

  lemma InsertedFrame(s: State, t: State, owner: Uploads.Owner)
    requires Inv(s, owner) && t == s.(cache := t.cache)
    ensures FetchesGood(t, owner) && Captured(t) && Chained(t, owner) && Bookkept(t)
  {
    hide Block;
    QuietStep(s, t.(cache := s.cache), owner);
    OtherStepChained(s, t, owner);
    FailingFrame(s, t);
  }

  /** The uploader's job from the daemon's last byte to the upload's removal: the range is
      invalidated before the upload leaves the in-flight set. */
  function Complete(s: State, id: nat, sent: nat, error: int): State
    requires id in s.up.inflight && sent <= |s.up.inflight[id].data|
  {
    var u := s.up.inflight[id];
    var remote := s.up.remote[u.path := WriteAt(Content(s.up.remote, u.path), u.offset, u.data[..sent])];
    s.(up := s.up.(
         remote := remote,
         inflight := s.up.inflight - {id},
         bytes := Uploads.SaturatingSub(s.up.bytes, |u.data|),
         errors := if error == 0 then s.up.errors else s.up.errors[u.fh := error],
         failed := if error == 0 then s.up.failed else s.up.failed + {u.fh}),
       generations := Bump(s.generations, u.path),
       cache := DropRange(s.cache, u.path, u.offset, |u.data|),
       returned := s.returned[id := error == 0],
       doomed := if error == 0 then s.doomed else s.doomed + {u.fh})
  }

  /** The job is a transfer, an invalidation and a finish, in that order. */
  lemma CompleteIsThreeSteps(s: State, id: nat, sent: nat, error: int)
    requires id in s.up.inflight && sent <= |s.up.inflight[id].data|
    ensures var u := s.up.inflight[id];
      Complete(s, id, sent, error) == InvalidateRange(s, u.path, u.offset, |u.data|).(
        up := Uploads.Finish(Uploads.Transfer(s.up, id, sent), id, error),
        returned := s.returned[id := error == 0],
        doomed := if error == 0 then s.doomed else s.doomed + {u.fh})
  {
    assert Uploads.Finish(Uploads.Transfer(s.up, id, sent), id, error).inflight == s.up.inflight - {id};
  }

  lemma CompleteKeepsInv(s: State, id: nat, sent: nat, error: int, owner: Uploads.Owner)
    requires Inv(s, owner) && id in s.up.inflight && id !in s.returned
    requires sent <= |s.up.inflight[id].data| && (error == 0 ==> sent == |s.up.inflight[id].data|)
    ensures Inv(Complete(s, id, sent, error), owner)
  {
    hide Inv;
    var a := Apply(s, Transfer(id, sent), owner);
    StepKeepsInv(s, Transfer(id, sent), owner);
    var b := Apply(a, Invalidate(id, error == 0), owner);
    StepKeepsInv(a, Invalidate(id, error == 0), owner);
    var c := Apply(b, Finish(id, error), owner);
    StepKeepsInv(b, Finish(id, error), owner);
    CompleteIsThreeSteps(s, id, sent, error);
  }
}
