/** The mount as the program has it: state updated in place under one lock at a time.  Other
    threads show up where a call waits: some upload then ends, with any outcome. */
module Vfs {
  import opened Bytes
  import opened Wrappers
  import Uploads
  import Mount
  import opened Paths
  import opened Ranges

  type Handle = Uploads.Handle
  type Buffers = map<Handle, Uploads.Pending>

  datatype Outcome = Data(bytes: File) | UploadError(errno: int) | FetchError

  datatype UploadTable = UploadTable(
    next: nat, bytes: nat, inflight: map<nat, Uploads.Upload>, errors: map<Handle, int>)

  datatype BlockTable = BlockTable(blocks: map<Mount.Key, File>, generations: map<Path, nat>)

  datatype History = History(
    spec: map<Path, File>, failed: set<Handle>, consumed: set<Handle>, returned: map<nat, bool>, doomed: set<Handle>,
    // handles with a write past the block holding the end of its file; paths written before their size was known
    gapped: set<Handle>, guessed: set<Path>,
    // the uploads that have ended, in order: their handles and error numbers, 0 for none
    ends: seq<(Handle, int)>)

  /** The error number of the last failed upload of a handle, or 0. */
  function LastErrno(ends: seq<(Handle, int)>, fh: Handle): int {
    if ends == [] then
      0
    else
      var last := ends[|ends| - 1];
      if last.0 == fh && last.1 != 0 then last.1 else LastErrno(ends[..|ends| - 1], fh)
  }

  /** An error is recorded with the number of the handle's last failed upload, and the doomed handles
      are those with one. */
  ghost predicate ErrorsLatest(errors: map<Handle, int>, ends: seq<(Handle, int)>, doomed: set<Handle>) {
    && (forall fh <- errors :: errors[fh] == LastErrno(ends, fh))
    && (forall fh: Handle :: fh in doomed <==> LastErrno(ends, fh) != 0)
  }

  /** What is remembered of the end of an upload. */
  function Ended(h: History, id: nat, fh: Handle, error: int): History {
    h.(returned := h.returned[id := error == 0],
       ends := h.ends + [(fh, error)],
       failed := if error == 0 then h.failed else h.failed + {fh},
       doomed := if error == 0 then h.doomed else h.doomed + {fh})
  }

  /** One upload has left, and its error is recorded. */
  predicate Left(u: UploadTable, v: UploadTable, id: nat, error: int)
    requires id in u.inflight
  {
    && v.next == u.next && v.inflight == u.inflight - {id}
    && v.errors == if error == 0 then u.errors else u.errors[u.inflight[id].fh := error]
  }

  /** Have since only uploads of these handles ended? */
  predicate EndedOnly(before: seq<(Handle, int)>, ends: seq<(Handle, int)>, handles: set<Handle>) {
    before <= ends && forall i: nat :: |before| <= i < |ends| ==> ends[i].0 in handles
  }

  /** Are the errors of all other handles the same? */
  ghost predicate SameErrors(before: map<Handle, int>, errors: map<Handle, int>, handles: set<Handle>) {
    forall fh: Handle :: fh !in handles ==>
      (fh in errors <==> fh in before) && (fh in before && fh in errors ==> errors[fh] == before[fh])
  }

  /** The handles with an upload in flight. */
  function Handles(inflight: map<nat, Uploads.Upload>): set<Handle> {
    set id <- inflight :: inflight[id].fh
  }

  /** Have since only uploads of these handles failed, and no recorded error been taken? */
  ghost predicate Later(u: UploadTable, h: History, v: UploadTable, g: History, handles: set<Handle>) {
    && h.doomed <= g.doomed <= h.doomed + handles
    && u.errors.Keys <= v.errors.Keys <= u.errors.Keys + g.doomed
    && EndedOnly(h.ends, g.ends, handles)
    && SameErrors(u.errors, v.errors, handles)
  }

  lemma LaterTransitive(u: UploadTable, h: History, v: UploadTable, g: History, w: UploadTable, f: History,
      a: set<Handle>, b: set<Handle>)
    requires Later(u, h, v, g, a) && Later(v, g, w, f, b) && b <= a
    ensures Later(u, h, w, f, a)
  {
  }

  /** Have uploads only left, none being admitted? */
  predicate OnlyLeft(u: UploadTable, v: UploadTable) {
    v.next == u.next && forall id <- v.inflight :: id in u.inflight && v.inflight[id] == u.inflight[id]
  }

  lemma LeftTransitive(u: UploadTable, v: UploadTable, w: UploadTable)
    requires OnlyLeft(u, v) && OnlyLeft(v, w)
    ensures OnlyLeft(u, w)
  {
  }

  lemma LeftHandles(u: UploadTable, v: UploadTable)
    requires OnlyLeft(u, v)
    ensures Handles(v.inflight) <= Handles(u.inflight)
  {
  }

  lemma Unchanged(u: UploadTable, h: History, handles: set<Handle>)
    ensures Later(u, h, u, h, handles) && OnlyLeft(u, u)
  {
  }

  /** Nothing matters of the history but the failures. */
  lemma LaterSame(u: UploadTable, h: History, v: UploadTable, g: History, f: History, handles: set<Handle>)
    requires Later(u, h, v, g, handles) && f.doomed == g.doomed && f.ends == g.ends
    ensures Later(u, h, v, f, handles)
  {
  }

  lemma LaterWiden(u: UploadTable, h: History, v: UploadTable, g: History, a: set<Handle>, b: set<Handle>)
    requires Later(u, h, v, g, a) && a <= b
    ensures Later(u, h, v, g, b)
  {
  }

  /** First some uploads were dispatched, then some left. */
  lemma WaitedFor(u: UploadTable, h: History, v: UploadTable, g: History, w: UploadTable, f: History,
      active: set<Handle>, buffered: set<Handle>)
    requires Later(u, h, v, g, active) && Later(v, g, w, f, Handles(v.inflight)) && OnlyLeft(v, w)
    requires buffered + Handles(v.inflight) <= active
    ensures Later(u, h, w, f, active) && buffered + Handles(w.inflight) <= active
  {
    hide Later;
    LeftHandles(v, w);
    LaterTransitive(u, h, v, g, w, f, active, Handles(v.inflight));
  }

  lemma StillRecorded(u: UploadTable, h: History, v: UploadTable, g: History, active: set<Handle>, fh: Handle)
    requires Later(u, h, v, g, active)
    ensures fh in u.errors ==> fh in v.errors
    ensures fh !in active ==> (fh in v.errors <==> fh in u.errors) && (fh in u.errors ==> v.errors[fh] == u.errors[fh])
  {
  }

  lemma NotAmong(u: UploadTable, fh: Handle)
    requires forall id <- u.inflight :: u.inflight[id].fh != fh
    ensures fh !in Handles(u.inflight)
  {
  }

  /** The same, but that recorded errors may have been taken. */
  ghost predicate Fails(u: UploadTable, h: History, v: UploadTable, g: History, handles: set<Handle>) {
    && h.doomed <= g.doomed <= h.doomed + handles
    && v.errors.Keys <= u.errors.Keys + g.doomed
    && EndedOnly(h.ends, g.ends, handles)
  }

  lemma TakenFails(u: UploadTable, h: History, v: UploadTable, g: History, w: UploadTable, f: History,
      handles: set<Handle>)
    requires Later(u, h, v, g, handles) && w.errors.Keys <= v.errors.Keys && f.doomed == g.doomed && f.ends == g.ends
    ensures Fails(u, h, w, f, handles)
  {
  }

  /** The size the mount assumes after a write. */
  function SizeAfter(sizes: map<Path, nat>, path: Path, offset: nat, len: nat): nat {
    Max(if path in sizes then sizes[path] else 0, offset + len)
  }

  /** From an exact size, a write leaves the size exact unless it writes nothing past the end: the
      known size then exceeds the file. */
  lemma SizeExactly(sizes: map<Path, nat>, path: Path, f: File, offset: nat, data: File)
    requires path in sizes && sizes[path] == |f|
    ensures |WriteAt(f, offset, data)| <= SizeAfter(sizes, path, offset, |data|)
    ensures |WriteAt(f, offset, data)| < SizeAfter(sizes, path, offset, |data|) <==> data == [] && |f| < offset
  {
  }

  /** What a request meets: what arrives of its answer, and what the cache evicts as it takes each of
      the blocks. */
  datatype Fetching = Fetching(arrival: Arrival, evicted: nat -> set<Mount.Key>)

  class Vfs {
    ghost const owner: Uploads.Owner
    var remote: map<Path, File>
    var writeBuffers: Buffers
    var uploads: UploadTable
    var cache: BlockTable
    var sizes: map<Path, nat>
    ghost var history: History

    /** The mount's state if its buffers were `buffers`. */
    ghost function ViewWith(buffers: Buffers): Mount.State
      reads this
    {
      Mount.State(
        Uploads.State(remote, buffers, uploads.inflight, uploads.bytes, uploads.next, uploads.errors,
                      history.spec, history.failed, history.consumed),
        cache.blocks, cache.generations, map[], history.returned, history.doomed, history.gapped)
    }

    ghost predicate ValidWith(buffers: Buffers)
      reads this
    {
      && Mount.Inv(ViewWith(buffers), owner)
      && (forall id <- uploads.inflight :: id !in history.returned)
      && SizesBound(history, sizes)
      && ErrorsLatest(uploads.errors, history.ends, history.doomed)
    }

    /** Is every known size an upper bound, unless a failed upload or a guess spoiled it? */
    ghost predicate SizesBound(h: History, sizes: map<Path, nat>) {
      forall p <- sizes | owner(p) !in h.doomed && p !in h.guessed :: |Content(h.spec, p)| <= sizes[p]
    }

    ghost predicate Valid()
      reads this
    {
      ValidWith(writeBuffers)
    }

    constructor (files: map<Path, File>, ghost owner: Uploads.Owner)
      ensures Valid() && this.owner == owner && remote == files
      ensures history == History(files, {}, {}, map[], {}, {}, {}, [])
      ensures writeBuffers == map[] && uploads == UploadTable(0, 0, map[], map[])
      ensures sizes == map p <- files :: |files[p]|
    {
      this.owner := owner;
      remote := files;
      writeBuffers, uploads := map[], UploadTable(0, 0, map[], map[]);
      cache := BlockTable(map[], map[]);
      sizes := map p <- files :: |files[p]|;
      history := History(files, {}, {}, map[], {}, {}, {}, []);
      new;
      Uploads.InitialInv(files, owner);
    }

    /** Drops the cached blocks a byte range touches and cuts off fetches in progress. */
    method InvalidateRange(path: Path, offset: nat, len: nat)
      modifies this`cache
      ensures cache == BlockTable(Mount.DropRange(old(cache).blocks, path, offset, len),
        Mount.Bump(old(cache).generations, path))
    {
      var first := offset / BLOCK_SIZE;
      var last := (offset + Max(len, 1) - 1) / BLOCK_SIZE;
      cache := cache.(generations := cache.generations[path := Mount.Generation(cache.generations, path) + 1]);
      cache := cache.(blocks := map k <- cache.blocks | !(k.0 == path && first <= k.1 <= last) :: cache.blocks[k]);
    }

    /** The uploader's job once the daemon has applied `sent` bytes of an upload: its range is
        invalidated, and only then does it leave the in-flight set, with any error recorded in
        the same step. */
    method EndUpload(id: nat, sent: nat, error: int, ghost buffers: Buffers)
      requires id in uploads.inflight && sent <= |uploads.inflight[id].data|
      modifies this`remote, this`uploads, this`cache, this`history
      ensures ViewWith(buffers) == Mount.Complete(old(ViewWith(buffers)), id, sent, error)
      ensures history == Ended(old(history), id, old(uploads).inflight[id].fh, error)
      ensures Left(old(uploads), uploads, id, error)
    {
      hide Mount.DropRange, Mount.Bump, WriteAt, Content;
      var upload := uploads.inflight[id];
      remote := remote[upload.path := WriteAt(Content(remote, upload.path), upload.offset, upload.data[..sent])];
      InvalidateRange(upload.path, upload.offset, |upload.data|);
      uploads := uploads.(inflight := uploads.inflight - {id},
        bytes := Uploads.SaturatingSub(uploads.bytes, |upload.data|));
      history := history.(returned := history.returned[id := error == 0], ends := history.ends + [(upload.fh, error)]);
      if error != 0 {
        uploads := uploads.(errors := uploads.errors[upload.fh := error]);
        history := history.(failed := history.failed + {upload.fh}, doomed := history.doomed + {upload.fh});
      }
    }

    /** Another thread's upload ends, with any outcome, while a call waits. */
    method SomeUploadEnds(ghost buffers: Buffers)
      requires ValidWith(buffers) && uploads.inflight != map[]
      modifies this`remote, this`uploads, this`cache, this`history
      ensures ValidWith(buffers) && SameRecord() && history.consumed == old(history).consumed
      ensures Later(old(uploads), old(history), uploads, history, Handles(old(uploads).inflight))
      ensures OnlyLeft(old(uploads), uploads) && |uploads.inflight| < old(|uploads.inflight|)
    {
      hide Mount.Inv, Mount.Complete, SizesBound, ErrorsLatest, Later, OnlyLeft, Handles, LastErrno;
      var id :| id in uploads.inflight;
      var error: int := *;
      var sent: nat :| sent <= |uploads.inflight[id].data| && (error == 0 ==> sent == |uploads.inflight[id].data|);
      ghost var before, u, h := ViewWith(buffers), uploads, history;
      EndUpload(id, sent, error, buffers);
      Mount.CompleteKeepsInv(before, id, sent, error, owner);
      OneFewer(u, h, uploads, id, error);
      StillBound(h, history, sizes);
      EndKeepsLatest(u.errors, h.ends, h.doomed, u.inflight[id].fh, error);
    }

    lemma EndKeepsLatest(errors: map<Handle, int>, ends: seq<(Handle, int)>, doomed: set<Handle>, fh: Handle,
        error: int)
      requires ErrorsLatest(errors, ends, doomed)
      ensures ErrorsLatest(if error == 0 then errors else errors[fh := error], ends + [(fh, error)],
        if error == 0 then doomed else doomed + {fh})
    {
      var more := ends + [(fh, error)];
      assert more[..|ends|] == ends;
      forall h: Handle
        ensures LastErrno(more, h) == if h == fh && error != 0 then error else LastErrno(ends, h)
      {
      }
    }

    lemma OneFewer(u: UploadTable, h: History, v: UploadTable, id: nat, error: int)
      requires id in u.inflight && Left(u, v, id, error)
      ensures Later(u, h, v, Ended(h, id, u.inflight[id].fh, error), Handles(u.inflight))
      ensures OnlyLeft(u, v) && |v.inflight| < |u.inflight|
    {
      assert v.inflight.Keys == u.inflight.Keys - {id};
      assert |v.inflight| == |v.inflight.Keys| && |u.inflight| == |u.inflight.Keys|;
      assert u.inflight[id].fh in Handles(u.inflight);
    }

    lemma StillBound(h: History, g: History, sizes: map<Path, nat>)
      requires SizesBound(h, sizes) && h.doomed <= g.doomed && h.spec == g.spec && h.guessed == g.guessed
      ensures SizesBound(g, sizes)
    {
    }

    /** Is what has been written, and how, the same as before? */
    twostate predicate SameRecord()
      reads this
    {
      history.spec == old(history).spec && history.gapped == old(history).gapped &&
        history.guessed == old(history).guessed
    }

    /** What a call that waits for uploads leaves alone. */
    twostate predicate OnlyWaited()
      reads this
    {
      && writeBuffers == old(writeBuffers) && sizes == old(sizes)
      && SameRecord() && history.consumed == old(history).consumed
      && Later(old(uploads), old(history), uploads, history, Handles(old(uploads).inflight))
    }

    /** The handles with something buffered or in flight. */
    function Active(): set<Handle>
      reads this
    {
      writeBuffers.Keys + Handles(uploads.inflight)
    }

    /** Do only handles fail that had something buffered or in flight?  Errors are reported to their
        handles, or are still to be. */
    twostate predicate Failing()
      reads this
    {
      Fails(old(uploads), old(history), uploads, history, old(Active()))
    }

    /** Likewise, and no recorded error has been taken. */
    twostate predicate Untaken()
      reads this
    {
      history.consumed == old(history).consumed && Later(old(uploads), old(history), uploads, history, old(Active()))
    }

    /** Waits until an upload overlaps none in flight and there is room for it. */
    method AwaitAdmission(fh: Handle, pending: Uploads.Pending)
      requires ValidWith(writeBuffers[fh := pending])
      modifies this`remote, this`uploads, this`cache, this`history
      ensures ValidWith(writeBuffers[fh := pending]) && OnlyWaited() && OnlyLeft(old(uploads), uploads)
      ensures Uploads.Admissible(ViewWith(writeBuffers[fh := pending]).up, pending)
    {
      hide Mount.Inv, Uploads.Overlaps, SizesBound, ErrorsLatest, Later, OnlyLeft, Handles;
      Unchanged(uploads, history, Handles(uploads.inflight));
      ghost var all := writeBuffers[fh := pending];
      while
        || (exists id <- uploads.inflight ::
          Uploads.Overlaps(uploads.inflight[id], pending.path, pending.offset, |pending.data|))
        || !(uploads.inflight == map[] || uploads.bytes + |pending.data| <= Uploads.MAX_INFLIGHT_UPLOAD_BYTES)
        invariant ValidWith(all) && OnlyWaited() && OnlyLeft(old(uploads), uploads)
        decreases |uploads.inflight|
      {
        ghost var u, h := uploads, history;
        SomeUploadEnds(all);
        LeftHandles(old(uploads), u);
        LaterTransitive(old(uploads), old(history), u, h, uploads, history, Handles(old(uploads).inflight),
          Handles(u.inflight));
        LeftTransitive(old(uploads), u, uploads);
      }
    }

    /** Admits the buffer of a handle, already taken out of the handle's slot, for upload. */
    method DispatchPending(fh: Handle, pending: Uploads.Pending)
      requires ValidWith(writeBuffers[fh := pending])
      modifies this`remote, this`uploads, this`cache, this`history
      ensures ValidWith(writeBuffers - {fh}) && OnlyWaited()
      ensures uploads.next == old(uploads).next + 1 && uploads.next in uploads.inflight
      ensures uploads.inflight[uploads.next] == Uploads.Upload(fh, pending.path, pending.offset, pending.data, false)
      ensures forall id <- uploads.inflight :: id != uploads.next ==>
        id in old(uploads).inflight && uploads.inflight[id] == old(uploads).inflight[id]
    {
      hide Mount.Inv, Uploads.Overlaps, SizesBound, ErrorsLatest, Handles, EndedOnly, SameErrors;
      AwaitAdmission(fh, pending);
      ghost var waited := ViewWith(writeBuffers[fh := pending]);
      Admitted(waited, fh);
      uploads := uploads.(
        next := uploads.next + 1,
        bytes := uploads.bytes + |pending.data|,
        inflight := uploads.inflight[uploads.next + 1 :=
          Uploads.Upload(fh, pending.path, pending.offset, pending.data, false)]);
      assert writeBuffers[fh := pending] - {fh} == writeBuffers - {fh};
      assert ViewWith(writeBuffers - {fh}) == waited.(up := Uploads.Dispatch(waited.up, fh));
    }

    lemma Admitted(s: Mount.State, fh: Handle)
      requires Mount.Inv(s, owner) && fh in s.up.buffers && Uploads.Admissible(s.up, s.up.buffers[fh])
      ensures Mount.Inv(s.(up := Uploads.Dispatch(s.up, fh)), owner)
      ensures s.up.next + 1 !in s.returned
    {
      Mount.StepKeepsInv(s, Mount.Dispatch(fh), owner);
    }

    method TakeUploadError(fh: Handle) returns (r: Option<int>)
      requires Valid()
      modifies this`uploads, this`history
      ensures Valid() && r == (if fh in old(uploads).errors then Some(old(uploads).errors[fh]) else None)
      ensures uploads == old(uploads).(errors := old(uploads).errors - {fh})
      ensures history == if r.None? then old(history) else old(history).(consumed := old(history).consumed + {fh})
      ensures r.Some? ==> fh in history.doomed && r.value == LastErrno(history.ends, fh)
    {
      hide Mount.Inv, LastErrno;
      ghost var before := ViewWith(writeBuffers);
      Mount.StepKeepsInv(before, Mount.TakeError(fh), owner);
      ErrorsAreDoomed(before);
      if fh in uploads.errors {
        r := Some(uploads.errors[fh]);
        uploads := uploads.(errors := uploads.errors - {fh});
        history := history.(consumed := history.consumed + {fh});
      } else {
        r := None;
        assert uploads.errors - {fh} == uploads.errors;
      }
      assert ViewWith(writeBuffers) == Mount.Apply(before, Mount.TakeError(fh), owner);
    }

    /** Every failed handle has been told, or will be. */
    lemma DoomedAreReported()
      requires Valid()
      ensures history.doomed <= uploads.errors.Keys + history.consumed
    {
      var s := ViewWith(writeBuffers);
      Reported(s);
    }

    lemma Reported(s: Mount.State)
      requires Mount.Inv(s, owner) && forall id <- s.up.inflight :: id !in s.returned
      ensures s.doomed <= s.up.errors.Keys + s.up.consumed
    {
    }

    lemma ErrorsAreDoomed(s: Mount.State)
      requires Mount.Inv(s, owner)
      ensures s.up.errors.Keys <= s.doomed
    {
    }

    /** Sends a handle's buffer on its way, if it has one. */
    method DispatchFh(fh: Handle)
      requires Valid()
      modifies this`remote, this`writeBuffers, this`uploads, this`cache, this`history
      ensures Valid() && writeBuffers == old(writeBuffers) - {fh} && sizes == old(sizes)
      ensures SameRecord() && Untaken() && Active() <= old(Active())
    {
      hide Mount.Inv, ErrorsLatest, SizesBound, EndedOnly, SameErrors;
      if fh in writeBuffers {
        var pending := writeBuffers[fh];
        writeBuffers := writeBuffers - {fh};
        assert writeBuffers[fh := pending] == old(writeBuffers);
        DispatchPending(fh, pending);
        assert writeBuffers - {fh} == writeBuffers;
        LaterWiden(old(uploads), old(history), uploads, history, Handles(old(uploads).inflight), old(Active()));
      } else {
        Unchanged(uploads, history, Active());
        assert writeBuffers - {fh} == writeBuffers;
      }
    }

    /** Waits until no upload of the handle is in flight. */
    method WaitHandle(fh: Handle)
      requires Valid()
      modifies this`remote, this`uploads, this`cache, this`history
      ensures Valid() && OnlyWaited() && OnlyLeft(old(uploads), uploads)
      ensures forall id <- uploads.inflight :: uploads.inflight[id].fh != fh
    {
      hide Mount.Inv, SizesBound, ErrorsLatest, Later, OnlyLeft, Handles;
      Unchanged(uploads, history, Handles(uploads.inflight));
      while exists id <- uploads.inflight :: uploads.inflight[id].fh == fh
        invariant Valid() && OnlyWaited() && OnlyLeft(old(uploads), uploads)
        decreases |uploads.inflight|
      {
        ghost var u, h := uploads, history;
        SomeUploadEnds(writeBuffers);
        LeftHandles(old(uploads), u);
        LaterTransitive(old(uploads), old(history), u, h, uploads, history, Handles(old(uploads).inflight),
          Handles(u.inflight));
        LeftTransitive(old(uploads), u, uploads);
      }
    }

    /** Waits until no upload of the path or of anything beneath it is in flight. */
    method WaitTree(path: Path)
      requires Valid()
      modifies this`remote, this`uploads, this`cache, this`history
      ensures Valid() && OnlyWaited() && OnlyLeft(old(uploads), uploads)
      ensures forall id <- uploads.inflight :: !Under(path, uploads.inflight[id].path)
    {
      hide Mount.Inv, SizesBound, ErrorsLatest, Later, OnlyLeft, Handles;
      Unchanged(uploads, history, Handles(uploads.inflight));
      while exists id <- uploads.inflight :: Under(path, uploads.inflight[id].path)
        invariant Valid() && OnlyWaited() && OnlyLeft(old(uploads), uploads)
        decreases |uploads.inflight|
      {
        ghost var u, h := uploads, history;
        SomeUploadEnds(writeBuffers);
        LeftHandles(old(uploads), u);
        LaterTransitive(old(uploads), old(history), u, h, uploads, history, Handles(old(uploads).inflight),
          Handles(u.inflight));
        LeftTransitive(old(uploads), u, uploads);
      }
    }

    /** `flush`: nothing of the handle is buffered or in flight any more.  The error is that of the
        handle's last failed upload, and the recorded one if nothing of it was on its way.  A handle
        that never got an error gets one now if and only if an upload of it has failed; if it gets
        none, every byte written through it is on the daemon. */
    method Flush(fh: Handle) returns (r: Option<int>)
      requires Valid()
      modifies this`remote, this`writeBuffers, this`uploads, this`cache, this`history
      ensures Valid() && sizes == old(sizes) && SameRecord()
      ensures Failing() && Active() <= old(Active()) - {fh}
      ensures fh in old(uploads).errors ==> r.Some?
      ensures fh !in uploads.errors && history.consumed == old(history).consumed + if r.Some? then {fh} else {}
      ensures fh !in old(history).consumed ==> (r.Some? <==> fh in history.doomed)
      ensures r.Some? ==> fh in history.doomed && r.value == LastErrno(history.ends, fh)
      ensures fh !in old(Active()) ==> r == if fh in old(uploads).errors then Some(old(uploads).errors[fh]) else None
      ensures r.None? && fh !in old(history).consumed ==>
        forall p: Path | owner(p) == fh :: Content(remote, p) == Content(history.spec, p)
    {
      hide Mount.Inv, ErrorsLatest, LastErrno, SizesBound, Later, Fails, OnlyLeft, Handles;
      ghost var active := Active();
      DispatchFh(fh);
      ghost var u, h := uploads, history;
      WaitHandle(fh);
      WaitedFor(old(uploads), old(history), u, h, uploads, history, active, writeBuffers.Keys);
      StillRecorded(old(uploads), old(history), uploads, history, active, fh);
      NotAmong(uploads, fh);
      ghost var v, g := uploads, history;
      r := TakeUploadError(fh);
      TakenFails(old(uploads), old(history), v, g, uploads, history, active);
      DoomedAreReported();
      if r.None? && fh !in history.consumed {
        FlushedHandle(ViewWith(writeBuffers), fh);
      }
    }

    lemma FlushedHandle(s: Mount.State, fh: Handle)
      requires Mount.Inv(s, owner) && Uploads.Drained(s.up, fh) && fh !in s.up.consumed
      ensures forall p: Path | owner(p) == fh :: Content(s.up.remote, p) == Content(s.up.spec, p)
    {
      forall p: Path | owner(p) == fh {
        Uploads.SettledPath(s.up, owner, p);
      }
    }

    /** Is this the error of a handle that had something buffered at the path or below, that of its
        last failed upload? */
    twostate predicate TookError(path: Path, errno: int)
      reads this
    {
      exists fh <- old(writeBuffers) ::
        && Under(path, old(writeBuffers)[fh].path)
        && fh in history.doomed && errno == LastErrno(history.ends, fh)
        && fh !in uploads.errors && history.consumed == old(history).consumed + {fh}
    }

    /** Sends and awaits everything buffered or in flight for a path or beneath it; afterwards the
        handles that had something buffered there get their errors, up to the first. */
    method FlushMatching(path: Path) returns (r: Option<int>)
      requires Valid()
      modifies this`remote, this`writeBuffers, this`uploads, this`cache, this`history
      ensures Valid() && sizes == old(sizes) && SameRecord()
      ensures Failing() && Active() <= old(Active())
      ensures forall fh <- writeBuffers :: !Under(path, writeBuffers[fh].path)
      ensures forall id <- uploads.inflight :: !Under(path, uploads.inflight[id].path)
      ensures r.None? ==> Untaken()
      ensures r.None? ==> forall fh <- old(writeBuffers) ::
        Under(path, old(writeBuffers)[fh].path) ==> fh !in uploads.errors
      ensures r.Some? ==> TookError(path, r.value)
    {
      hide Mount.Inv, Under, SizesBound, ErrorsLatest, LastErrno, Later, Fails, OnlyLeft, Handles;
      ghost var active := Active();
      var fhs := set fh <- writeBuffers | Under(path, writeBuffers[fh].path);
      DispatchAll(path, fhs);
      ghost var u, h := uploads, history;
      WaitTree(path);
      WaitedFor(old(uploads), old(history), u, h, uploads, history, active, writeBuffers.Keys);
      ghost var v, g := uploads, history;
      r := TakeFirstError(fhs);
      TakenFails(old(uploads), old(history), v, g, uploads, history, active);
    }

    /** Sends the buffers at the path or below. */
    method DispatchAll(path: Path, fhs: set<Handle>)
      requires Valid() && fhs == set fh <- writeBuffers | Under(path, writeBuffers[fh].path)
      modifies this`remote, this`writeBuffers, this`uploads, this`cache, this`history
      ensures Valid() && sizes == old(sizes) && SameRecord() && Untaken() && Active() <= old(Active())
      ensures forall fh <- writeBuffers :: !Under(path, writeBuffers[fh].path)
    {
      hide Mount.Inv, Under, SizesBound, ErrorsLatest, Later, Handles;
      Unchanged(uploads, history, Active());
      var todo := fhs;
      while todo != {}
        invariant Valid() && sizes == old(sizes) && SameRecord() && Untaken() && Active() <= old(Active())
        invariant todo <= writeBuffers.Keys
        invariant forall fh <- writeBuffers :: fh in todo || !Under(path, writeBuffers[fh].path)
        decreases |todo|
      {
        var fh :| fh in todo;
        ghost var u, h, active := uploads, history, Active();
        DispatchFh(fh);
        LaterTransitive(old(uploads), old(history), u, h, uploads, history, old(Active()), active);
        todo := todo - {fh};
      }
    }

    /** Takes the error of one of these handles, if any has one. */
    method TakeFirstError(fhs: set<Handle>) returns (r: Option<int>)
      requires Valid()
      modifies this`uploads, this`history
      ensures Valid() && SameRecord() && history.doomed == old(history).doomed && history.ends == old(history).ends
      ensures uploads == old(uploads).(errors := uploads.errors) && uploads.errors.Keys <= old(uploads).errors.Keys
      ensures r.None? ==> uploads == old(uploads) && history == old(history) && fhs !! uploads.errors.Keys
      ensures r.Some? ==> exists fh <- fhs ::
        && fh in history.doomed && r.value == LastErrno(history.ends, fh)
        && fh !in uploads.errors && history.consumed == old(history).consumed + {fh}
    {
      hide Mount.Inv, ErrorsLatest, LastErrno;
      var todo := fhs;
      r := None;
      while todo != {}
        invariant Valid() && todo <= fhs && uploads == old(uploads) && history == old(history) && r.None?
        invariant (fhs - todo) !! uploads.errors.Keys
        decreases |todo|
      {
        var fh :| fh in todo;
        r := TakeUploadError(fh);
        if r.Some? {
          return;
        }
        todo := todo - {fh};
      }
      assert fhs - todo == fhs;
    }

    lemma Buffered(s: Mount.State, fh: Handle, path: Path, offset: nat, data: File)
      requires Mount.Inv(s, owner) && owner(path) == fh
      requires Uploads.Merges(s.up, fh, path, offset, data) || fh !in s.up.buffers
      ensures Mount.Inv(Mount.InvalidateRange(Written(s, fh, path, offset, data), path, offset, |data|), owner)
      ensures Written(s, fh, path, offset, data).up.inflight == s.up.inflight
    {
      Mount.StepKeepsInv(s, Mount.Write(fh, path, offset, data), owner);
      assert Mount.Apply(s, Mount.Write(fh, path, offset, data), owner)
          == Mount.InvalidateRange(Written(s, fh, path, offset, data), path, offset, |data|);
    }

    /** A write in its handle's buffer, before its range is invalidated. */
    ghost function Written(s: Mount.State, fh: Handle, path: Path, offset: nat, data: File): Mount.State {
      s.(up := Uploads.Write(s.up, fh, path, offset, data),
         gapped := if LeavesGap(Content(s.up.spec, path), offset, data) then s.gapped + {fh} else s.gapped)
    }

    /** Such a write extends the buffer, any other takes its place. */
    predicate Placed(was: Buffers, now: Buffers, fh: Handle, path: Path, offset: nat, data: File) {
      now == was[fh := if Extends(was, fh, path, offset, data) then
        Uploads.Pending(path, was[fh].offset, was[fh].data + data) else Uploads.Pending(path, offset, data)]
    }

    /** Does a write go on where the buffer of its handle ends, and fit in? */
    predicate Extends(was: Buffers, fh: Handle, path: Path, offset: nat, data: File) {
      && fh in was && was[fh].path == path && was[fh].offset + |was[fh].data| == offset
      && |was[fh].data| + |data| <= 0x80_0000
    }

    /** Puts a write into its handle's buffer; a buffer it does not extend is dispatched. */
    method BufferWrite(fh: Handle, path: Path, offset: nat, data: File)
      requires Valid() && owner(path) == fh
      modifies this`remote, this`writeBuffers, this`uploads, this`cache, this`history
      ensures sizes == old(sizes) && Placed(old(writeBuffers), writeBuffers, fh, path, offset, data)
      ensures uploads.next == old(uploads).next +
        if fh in old(writeBuffers) && !Extends(old(writeBuffers), fh, path, offset, data) then 1 else 0
      ensures history.spec == old(history).spec[path := WriteAt(Content(old(history).spec, path), offset, data)]
      ensures history.gapped == if LeavesGap(Content(old(history).spec, path), offset, data) then
        old(history).gapped + {fh} else old(history).gapped
      ensures history.guessed == old(history).guessed
      ensures Untaken() && Active() <= old(Active()) + {fh}
      ensures ErrorsLatest(uploads.errors, history.ends, history.doomed)
      ensures forall id <- uploads.inflight :: id !in history.returned
      ensures Mount.Inv(Mount.InvalidateRange(ViewWith(writeBuffers), path, offset, |data|), owner)
    {
      hide Mount.Inv, Mount.Apply, Mount.InvalidateRange, WriteAt, Mount.DropRange, Mount.Bump, LeavesGap, Content;
      if
        && fh in writeBuffers && writeBuffers[fh].path == path
        && writeBuffers[fh].offset + |writeBuffers[fh].data| == offset
        && |writeBuffers[fh].data| + |data| <= Uploads.WRITE_BUFFER_LIMIT
      {
        ghost var before := ViewWith(writeBuffers);
        Buffered(before, fh, path, offset, data);
        writeBuffers := writeBuffers[fh := writeBuffers[fh].(data := writeBuffers[fh].data + data)];
        RecordWrite(fh, path, offset, data);
        assert ViewWith(writeBuffers) == Written(before, fh, path, offset, data);
      } else {
        ReplaceBuffer(fh, path, offset, data);
      }
    }

    /** Puts a write into an empty buffer; what was in it is dispatched. */
    method ReplaceBuffer(fh: Handle, path: Path, offset: nat, data: File)
      requires Valid() && owner(path) == fh
      modifies this`remote, this`writeBuffers, this`uploads, this`cache, this`history
      ensures sizes == old(sizes) && writeBuffers == old(writeBuffers)[fh := Uploads.Pending(path, offset, data)]
      ensures uploads.next == old(uploads).next + if fh in old(writeBuffers) then 1 else 0
      ensures history.spec == old(history).spec[path := WriteAt(Content(old(history).spec, path), offset, data)]
      ensures history.gapped == if LeavesGap(Content(old(history).spec, path), offset, data) then
        old(history).gapped + {fh} else old(history).gapped
      ensures history.guessed == old(history).guessed
      ensures Untaken() && Active() <= old(Active()) + {fh}
      ensures ErrorsLatest(uploads.errors, history.ends, history.doomed)
      ensures forall id <- uploads.inflight :: id !in history.returned
      ensures Mount.Inv(Mount.InvalidateRange(ViewWith(writeBuffers), path, offset, |data|), owner)
    {
      hide Mount.Inv, Mount.Apply, Mount.InvalidateRange, WriteAt, Mount.DropRange, Mount.Bump, LeavesGap, Content,
        SizesBound, ErrorsLatest, Later, EndedOnly, SameErrors;
      ghost var others, active := writeBuffers - {fh}, Active();
      ghost var u, h := uploads, history;
      Unchanged(u, h, active);
      ghost var was := writeBuffers;
      var displaced := if fh in writeBuffers then Some(writeBuffers[fh]) else None;
      writeBuffers := writeBuffers[fh := Uploads.Pending(path, offset, data)];
      assert writeBuffers - {fh} == others;
      if displaced.Some? {
        assert writeBuffers[fh := displaced.value] == was;
        DispatchPending(fh, displaced.value);
        LaterWiden(u, h, uploads, history, Handles(u.inflight), active);
      } else {
        assert others == was;
      }
      ghost var before := ViewWith(others);
      Buffered(before, fh, path, offset, data);
      ghost var g := history;
      RecordWrite(fh, path, offset, data);
      LaterSame(u, h, uploads, g, history, active);
      assert writeBuffers == others[fh := Uploads.Pending(path, offset, data)];
      assert ViewWith(writeBuffers) == Written(before, fh, path, offset, data);
    }

    ghost method RecordWrite(fh: Handle, path: Path, offset: nat, data: File)
      modifies `history
      ensures history == old(history).(
        spec := old(history).spec[path := WriteAt(Content(old(history).spec, path), offset, data)],
        gapped := if LeavesGap(Content(old(history).spec, path), offset, data) then old(history).gapped + {fh}
          else old(history).gapped)
    {
      history := history.(
        spec := history.spec[path := WriteAt(Content(history.spec, path), offset, data)],
        gapped := if LeavesGap(Content(history.spec, path), offset, data) then history.gapped + {fh}
          else history.gapped);
    }

    /** `write`: an old upload error of the handle is returned instead; otherwise the file as
        written so far becomes that file with `data` at `offset`.  A size that is not known counts
        as 0. */
    method Write(fh: Handle, path: Path, offset: nat, data: File) returns (r: Option<int>)
      requires Valid() && owner(path) == fh
      modifies this`remote, this`writeBuffers, this`uploads, this`cache, this`history, this`sizes
      ensures Valid()
      ensures r == if fh in old(uploads).errors then Some(old(uploads).errors[fh]) else None
      ensures history.consumed == old(history).consumed + if r.Some? then {fh} else {}
      ensures Failing() && Active() <= old(Active()) + {fh}
      ensures r.Some? ==> fh in history.doomed && SameRecord()
      ensures r.Some? ==> sizes == old(sizes) && writeBuffers == old(writeBuffers)
      ensures r.None? ==>
        history.spec == old(history).spec[path := WriteAt(Content(old(history).spec, path), offset, data)]
      ensures r.None? ==>
        history.gapped ==
          old(history).gapped + if LeavesGap(Content(old(history).spec, path), offset, data) then {fh} else {}
      ensures r.None? ==>
        history.guessed == old(history).guessed + if path in old(sizes) then {} else {path}
      ensures r.None? ==> sizes == old(sizes)[path := SizeAfter(old(sizes), path, offset, |data|)]
      ensures r.None? ==> Placed(old(writeBuffers), writeBuffers, fh, path, offset, data)
      ensures r.None? ==>
        var was := old(writeBuffers);
        uploads.next == old(uploads).next + if fh in was && !Extends(was, fh, path, offset, data) then 1 else 0
    {
      hide Mount.Inv, WriteAt, Mount.DropRange, Mount.Bump, Content, LeavesGap, SizesBound, Handles, Placed, Extends;
      r := TakeUploadError(fh);
      if r.None? {
        ghost var h := history;
        BufferWrite(fh, path, offset, data);
        InvalidateRange(path, offset, |data|);
        if path !in sizes {
          history := history.(guessed := history.guessed + {path});
        }
        SizesStayBound(h, history, sizes, path, offset, data);
        sizes := sizes[path := Max(if path in sizes then sizes[path] else 0, offset + |data|)];
      }
    }

    lemma SizesStayBound(h: History, g: History, sizes: map<Path, nat>, path: Path, offset: nat, data: File)
      requires SizesBound(h, sizes) && h.doomed <= g.doomed
      requires g.spec == h.spec[path := WriteAt(Content(h.spec, path), offset, data)]
      requires g.guessed == if path in sizes then h.guessed else h.guessed + {path}
      ensures SizesBound(g, sizes[path := SizeAfter(sizes, path, offset, |data|)])
    {
      WriteLength(Content(h.spec, path), offset, data);
      hide WriteAt;
    }

    lemma WriteLength(f: File, offset: nat, data: File)
      ensures |WriteAt(f, offset, data)| == if data == [] then |f| else Max(|f|, offset + |data|)
    {
    }

    // ---------------------------------------------------------------- reading

    /** Has the path's handle had no failed upload and no write past the block holding an end? */
    ghost predicate Trusted(path: Path)
      reads this
    {
      owner(path) !in history.doomed && owner(path) !in history.gapped
    }

    /** Is nothing of this path buffered or in flight? */
    ghost predicate Settled(path: Path)
      reads this
    {
      Mount.Flushed(ViewWith(writeBuffers), path, owner)
    }

    lemma SettledFile(path: Path)
      requires Valid() && Settled(path) && Trusted(path)
      ensures Content(remote, path) == Content(history.spec, path)
      ensures forall i: nat | (path, i) in cache.blocks :: cache.blocks[(path, i)] == Block(Content(remote, path), i)
    {
      var s := ViewWith(writeBuffers);
      Uploads.SettledPath(s.up, owner, path);
      forall i: nat | (path, i) in cache.blocks
        ensures cache.blocks[(path, i)] == Block(Content(remote, path), i)
      {
        assert Mount.Good(s, path, i, cache.blocks[(path, i)]);
      }
    }

    /** Is everything in the cache from before, or a current block of the path in this range? */
    twostate predicate Gained(path: Path, first: nat, end: nat)
      reads this
    {
      forall k: Mount.Key <- cache.blocks ::
        || (k in old(cache.blocks) && cache.blocks[k] == old(cache.blocks)[k])
        || (k.0 == path && first <= k.1 < end && cache.blocks[k] == Block(Content(remote, path), k.1))
    }

    /** Caches a fetched block unless its path was invalidated since `generation`; the cache may
        evict any blocks to make room. */
    method InsertBlock(path: Path, index: nat, data: File, generation: nat, evicted: set<Mount.Key>)
      requires Valid() && data == Block(Content(remote, path), index)
      modifies this`cache
      ensures Valid() && cache.generations == old(cache).generations
      ensures cache.blocks == if Mount.Generation(cache.generations, path) == generation then
        old(cache.blocks)[(path, index) := data] - evicted else old(cache.blocks)
    {
      hide Mount.Inv, Block;
      if Mount.Generation(cache.generations, path) == generation {
        ghost var before := ViewWith(writeBuffers);
        Mount.InsertKeepsInv(before, path, index, owner);
        cache := cache.(blocks := cache.blocks[(path, index) := data]);
        ghost var full := ViewWith(writeBuffers);
        Mount.StepKeepsInv(full, Mount.Evict(evicted), owner);
        cache := cache.(blocks := cache.blocks - evicted);
        assert ViewWith(writeBuffers) == Mount.Apply(full, Mount.Evict(evicted), owner);
      }
    }

    /** One block, from the cache or from the daemon. */
    method Fetch(path: Path, index: nat, meets: Fetching) returns (r: Result<File>)
      requires Valid()
      modifies this`cache
      ensures Valid()
      ensures Gained(path, index, index + 1)
      ensures meets.arrival.Whole? ==> r.Ok?
      ensures (path, index) in old(cache.blocks) ==> r == Ok(old(cache.blocks)[(path, index)]) && cache == old(cache)
      ensures r.Ok? && (path, index) !in old(cache.blocks) ==>
        && r.value == Block(Content(remote, path), index)
        && cache.blocks == old(cache.blocks)[(path, index) := r.value] - meets.evicted(0)
      ensures r.Failed? ==> cache == old(cache)
      ensures r.Ok? && Settled(path) && Trusted(path) ==> r.value == Block(Content(history.spec, path), index)
    {
      hide Mount.Inv, Block, IntoBlocks, Concat, Slice, Content;
      if Settled(path) && Trusted(path) {
        SettledFile(path);
      }
      if (path, index) in cache.blocks {
        return Ok(cache.blocks[(path, index)]);
      }
      var generation := Mount.Generation(cache.generations, path);
      var file := Content(remote, path);
      var frames := RangeRequest(file, index * BLOCK_SIZE, BLOCK_SIZE, meets.arrival);
      if frames.Failed? {
        return Failed;
      }
      var cut := IntoBlocks(frames.value);
      var data := if cut == [] then [] else cut[0];
      FirstBlock(file, index, frames.value);
      InsertBlock(path, index, data, generation, meets.evicted(0));
      return Ok(data);
    }

    /** The first piece cut from the answer to a request for one block is that block. */
    lemma FirstBlock(f: File, index: nat, frames: seq<File>)
      requires Concat(frames) == Slice(f, index * BLOCK_SIZE, Min(BLOCK_SIZE, MAX_RANGE_BYTES))
      ensures var cut := IntoBlocks(frames); Block(f, index) == if cut == [] then [] else cut[0]
    {
      var cut := IntoBlocks(frames);
      IntoBlocksExact(frames);
      RangeBlock(f, index, 1, 0);
      hide IntoBlocks;
      if cut == [] {
        assert Concat(frames) == [];
      }
    }

    ghost predicate Nothing(evicted: nat -> set<Mount.Key>) {
      forall i: nat :: evicted(i) == {}
    }

    /** Where the answer arrives and nothing is evicted, is every block there is in this range cached,
        as far as one request reaches, and nothing gone? */
    twostate predicate Filled(path: Path, first: nat, end: nat, meets: Fetching)
      reads this
    {
      Nothing(meets.evicted) ==>
        && old(cache.blocks).Keys <= cache.blocks.Keys
        && (meets.arrival.Whole? ==> forall b: nat | first <= b < end && b < first + 16 ::
              b * BLOCK_SIZE < |Content(remote, path)| ==> (path, b) in cache.blocks)
    }

    /** Fetches a run of blocks in one request and caches them; it stops short of the first
        block already cached, and a failed request caches nothing. */
    method FetchRun(path: Path, first: nat, count: nat, meets: Fetching) returns (ghost end: nat)
      requires Valid()
      modifies this`cache
      ensures Valid() && Gained(path, first, end)
      ensures Filled(path, first, end, meets) && (meets.arrival.Unanswered? ==> cache == old(cache))
      ensures first <= end <= first + count && forall b: nat :: first <= b < end ==> (path, b) !in old(cache.blocks)
      ensures end < first + count ==> (path, end) in old(cache.blocks)
    {
      hide Mount.Inv, Block, IntoBlocks, Concat, Content, SizesBound, ErrorsLatest;
      var claimed: nat := 0;
      while claimed < count && (path, first + claimed) !in cache.blocks
        invariant claimed <= count
        invariant forall b: nat :: first <= b < first + claimed ==> (path, b) !in cache.blocks
      {
        claimed := claimed + 1;
      }
      end := first + claimed;
      if claimed == 0 {
        return;
      }
      var generation := Mount.Generation(cache.generations, path);
      var file := Content(remote, path);
      var frames := RangeRequest(file, first * BLOCK_SIZE, claimed * BLOCK_SIZE, meets.arrival);
      if frames.Ok? {
        var cut := IntoBlocks(frames.value);
        IntoBlocksExact(frames.value);
        var got := Min(claimed, MAX_RANGE_BYTES / BLOCK_SIZE);
        for position := 0 to Min(|cut|, got)
          invariant Valid() && cache.generations == old(cache).generations
          invariant Gained(path, first, first + claimed)
          invariant Nothing(meets.evicted) ==> old(cache.blocks).Keys <= cache.blocks.Keys
          invariant Nothing(meets.evicted) ==>
            forall b: nat :: first <= b < first + position ==> (path, b) in cache.blocks
        {
          RangeBlock(file, first, got, position);
          InsertBlock(path, first + position, cut[position], generation, meets.evicted(position));
        }
      }
    }

    /** Is `end` where a fetch from block `index` on ends: at the first block that is cached, that
        begins an aligned batch or that begins behind the end of the file? */
    predicate BatchEnd(path: Path, index: nat, end: nat, blocks: set<Mount.Key>)
      reads this
    {
      && index <= end && (index == end ==> (path, index) in blocks)
      && (forall b: nat :: index <= b < end ==> (path, b) !in blocks)
      && (forall b: nat :: index < b < end ==> b % 8 != 0 && (path in sizes ==> b * BLOCK_SIZE < sizes[path]))
      && (index < end ==>
            || (path, end) in blocks || end % 8 == 0
            || (path in sizes && sizes[path] <= end * BLOCK_SIZE))
    }

    lemma BatchEnds(path: Path, index: nat, batchEnd: nat, end: nat, blocks: set<Mount.Key>)
      requires path !in sizes ==> batchEnd == (index / 8 + 1) * 8
      requires path in sizes ==> batchEnd == Min((index / 8 + 1) * 8, LastBlock(sizes[path]) + 1)
      requires index <= end <= Max(batchEnd, index + 1)
      requires forall b: nat :: index <= b < end ==> (path, b) !in blocks
      requires end < Max(batchEnd, index + 1) ==> (path, end) in blocks
      ensures BatchEnd(path, index, end, blocks)
    {
    }

    /** Fetches from a block to the end of its aligned batch, not past the last block. */
    method FetchBatch(path: Path, index: nat, meets: Fetching) returns (ghost end: nat)
      requires Valid()
      modifies this`cache
      ensures Valid() && Gained(path, index, end)
      ensures Filled(path, index, end, meets) && (meets.arrival.Unanswered? ==> cache == old(cache))
      ensures BatchEnd(path, index, end, old(cache.blocks).Keys)
    {
      hide Mount.Inv;
      var batchEnd := (index / PREFETCH_BATCH_BLOCKS + 1) * PREFETCH_BATCH_BLOCKS;
      if path in sizes {
        batchEnd := Min(batchEnd, LastBlock(sizes[path]) + 1);
      }
      end := FetchRun(path, index, Max(if index < batchEnd then batchEnd - index else 0, 1), meets);
      BatchEnds(path, index, batchEnd, end, old(cache.blocks).Keys);
    }

    /** The next block of a read: a sequential reader fetches the rest of its batch first. */
    method FetchNext(path: Path, index: nat, sequential: bool, meets: Fetching, ahead: Fetching)
        returns (r: Result<File>, ghost end: nat)
      requires Valid()
      modifies this`cache
      ensures Valid() && Gained(path, index, Max(end, index + 1))
      ensures meets.arrival.Whole? ==> r.Ok?
      ensures r.Ok? && Settled(path) && Trusted(path) ==> r.value == Block(Content(history.spec, path), index)
      ensures r.Ok? && Nothing(meets.evicted) ==> (path, index) in cache.blocks
      ensures Nothing(meets.evicted) ==> Filled(path, index, end, ahead)
      ensures end > index <==> sequential && (path, index) !in old(cache.blocks)
      ensures end > index ==> BatchEnd(path, index, end, old(cache.blocks).Keys)
    {
      hide Mount.Inv, Block, Content;
      end := index;
      if sequential && (path, index) !in cache.blocks {
        end := FetchBatch(path, index, ahead);
      }
      r := Fetch(path, index, meets);
    }

    /** The block loop of `read`: batches ahead when the reader is sequential, keeps a lone
        block uncopied, and stops after a short block or, with something in hand, at an error. */
    method ReadBlocks(path: Path, offset: nat, size: nat, sequential: bool, arrivals: nat -> Fetching,
        ahead: nat -> Fetching)
      returns (r: Outcome, ghost lost: Option<nat>)
      requires Valid() && Settled(path)
      modifies this`cache
      ensures Valid()
      ensures lost.None? ==> r.Data?
      ensures lost.Some? ==> Spoils(lost.value, offset, size, arrivals) && (r.FetchError? || (r.Data? && r.bytes != []))
      ensures Trusted(path) ==> r == Gathered(Content(history.spec, path), offset, size, lost)
      ensures Trusted(path) && lost.Some? && offset / BLOCK_SIZE < lost.value ==>
        lost.value * BLOCK_SIZE <= |Content(history.spec, path)|
    {
      hide Mount.Inv, Block, Slice, Wanted, Content, Held.AddBlock, SizesBound, ErrorsLatest, Filled, BatchEnd, Gained,
        Nothing;
      ghost var f := Content(history.spec, path);
      ghost var sound := Trusted(path);
      var end := offset + size;
      var index, last := offset / BLOCK_SIZE, (if end == 0 then 0 else end - 1) / BLOCK_SIZE;
      var held: Held := Copied([]);
      WantedStart(f, offset, end);
      WantedEnd(f, offset, end, last);
      while index <= last
        invariant Valid() && Settled(path)
        invariant offset / BLOCK_SIZE <= index
        invariant sound ==> held.Bytes() == Wanted(f, offset, end, index)
        invariant held == Copied([]) || held.Bytes() != []
        invariant sound && offset / BLOCK_SIZE < index ==> index * BLOCK_SIZE <= |f|
        decreases last + 1 - index
      {
        var fetched, _ := FetchNext(path, index, sequential, arrivals(index), ahead(index));
        if fetched.Failed? {
          WantedBefore(f, offset, end, index);
          return (if held == Copied([]) then FetchError else Data(held.Bytes())), Some(index);
        }
        var block := fetched.value;
        if sound {
          HeldGathers(held, f, offset, end, index);
        }
        HeldGrows(held, block, offset, end, index);
        held := held.AddBlock(block, offset, end, index);
        FullBlock(f, index);
        if |block| < BLOCK_SIZE {
          if sound {
            ShortBlockEnds(f, offset, end, index);
          }
          return Data(held.Bytes()), None;
        }
        index := index + 1;
      }
      return Data(held.Bytes()), None;
    }

    /** `read`: with no failed upload on the path, exactly the requested slice of the file as
        written so far; a lost fetch shortens the answer to what lies before its block or, if that is
        nothing, fails it. */
    method Read(path: Path, offset: nat, size: nat, sequential: bool, arrivals: nat -> Fetching, ahead: nat -> Fetching)
      returns (r: Outcome, ghost lost: Option<nat>)
      requires Valid()
      modifies this`remote, this`writeBuffers, this`uploads, this`cache, this`history
      ensures Valid() && sizes == old(sizes) && SameRecord() && Failing() && Active() <= old(Active())
      ensures r.UploadError? ==> TookError(path, r.errno) && lost.None?
      ensures !r.UploadError? ==> history.consumed == old(history).consumed
      ensures r.FetchError? ==> lost.Some?
      ensures !r.UploadError? && path in sizes && sizes[path] <= offset ==> r == Data([]) && lost.None?
      ensures lost.Some? ==> Spoils(lost.value, offset, size, arrivals) && (r.FetchError? || (r.Data? && r.bytes != []))
      ensures Trusted(path) && path !in history.guessed && !r.UploadError? ==>
        r == Gathered(Content(history.spec, path), offset, size, lost)
      ensures Trusted(path) && path !in history.guessed && lost.Some? && offset / BLOCK_SIZE < lost.value ==>
        lost.value * BLOCK_SIZE <= |Content(history.spec, path)|
    {
      hide Slice, Mount.Inv, ErrorsLatest, LastErrno;
      var flushed := FlushMatching(path);
      if flushed.Some? {
        return UploadError(flushed.value), None;
      }
      if path in sizes && sizes[path] <= offset {
        if owner(path) !in history.doomed && path !in history.guessed {
          NothingPastEnd(Content(history.spec, path), offset, size);
        }
        return Data([]), None;
      }
      r, lost := ReadBlocks(path, offset, size, sequential, arrivals, ahead);
    }
  }

  /** Is the fetch of block i of a read one that did not arrive whole? */
  predicate Spoils(i: nat, offset: nat, size: nat, arrivals: nat -> Fetching) {
    offset / BLOCK_SIZE <= i && i * BLOCK_SIZE < Max(offset + size, 1) && !arrivals(i).arrival.Whole?
  }

  /** What a read answers whose fetch of the block `lost` fails, if any does. */
  function Gathered(f: File, offset: nat, size: nat, lost: Option<nat>): Outcome {
    if lost == None then
      Data(Slice(f, offset, size))
    else
      var got := Slice(f, offset, Max(lost.value * BLOCK_SIZE, offset) - offset);
      if got == [] then FetchError else Data(got)
  }

  lemma FullBlock(f: File, i: nat)
    ensures |Block(f, i)| == BLOCK_SIZE ==> (i + 1) * BLOCK_SIZE <= |f|
    ensures |Block(f, i)| <= BLOCK_SIZE
  {
  }

  lemma WantedBefore(f: File, offset: nat, end: nat, i: nat)
    requires offset <= end && i <= (if end == 0 then 0 else end - 1) / BLOCK_SIZE
    ensures Wanted(f, offset, end, i) == Slice(f, offset, Max(i * BLOCK_SIZE, offset) - offset)
    ensures i * BLOCK_SIZE < Max(end, 1)
  {
  }

  lemma HeldGrows(held: Held, block: File, offset: nat, end: nat, index: nat)
    requires index * BLOCK_SIZE <= end && (held == Copied([]) || held.Bytes() != [])
    ensures var h := held.AddBlock(block, offset, end, index); h == Copied([]) || h.Bytes() != []
  {
  }

  /** A client of a new mount: one write and one flush.  The write reports no error; the flush
      reports one if and only if an upload has failed, and if not, the daemon has the file as
      written. */
  method WriteFlush(files: map<Path, File>, ghost owner: Uploads.Owner, fh: Handle, path: Path, offset: nat, data: File)
    returns (mount: Vfs, written: Option<int>, flushed: Option<int>)
    requires owner(path) == fh
    ensures fresh(mount) && mount.Valid() && mount.owner == owner && written.None?
    ensures flushed.Some? <==> fh in mount.history.doomed
    ensures flushed.None? ==> Content(mount.remote, path) == WriteAt(Content(files, path), offset, data)
    ensures mount.Active() == {} && fh !in mount.uploads.errors
    ensures flushed.None? ==> mount.history.consumed == {}
    ensures Content(mount.history.spec, path) == WriteAt(Content(files, path), offset, data)
    ensures mount.history.gapped == (if LeavesGap(Content(files, path), offset, data) then {fh} else {})
    ensures mount.history.guessed == if path in files then {} else {path}
  {
    hide Mount.Inv, WriteAt, LeavesGap, Vfs.SizesBound, Vfs.ViewWith;
    mount := new Vfs(files, owner);
    written := mount.Write(fh, path, offset, data);
    flushed := mount.Flush(fh);
  }

  /** And a read: unless a fetch is lost it returns the requested slice of the file as written. */
  method WriteFlushRead(files: map<Path, File>, ghost owner: Uploads.Owner, fh: Handle, path: Path, offset: nat,
      data: File, at: nat, size: nat, sequential: bool, arrivals: nat -> Fetching, ahead: nat -> Fetching)
    returns (flushed: Option<int>, read: Outcome)
    requires owner(path) == fh && path in files && !LeavesGap(files[path], offset, data)
    requires forall i: nat :: arrivals(i).arrival.Whole?
    ensures flushed.None? ==> read == Data(Slice(WriteAt(files[path], offset, data), at, size))
  {
    hide Mount.Inv, Slice, WriteAt, LeavesGap, Vfs.SizesBound, Vfs.ViewWith;
    var mount, written;
    mount, written, flushed := WriteFlush(files, owner, fh, path, offset, data);
    read := FetchError;
    if flushed.None? {
      ghost var lost: Option<nat>;
      read, lost := mount.Read(path, at, size, sequential, arrivals, ahead);
    }
  }

  lemma NothingPastEnd(f: File, offset: nat, size: nat)
    requires |f| <= offset
    ensures Slice(f, offset, size) == []
  {
  }

  /** What the read loop has in hand: copied bytes, or part of one block not yet copied. */
  datatype Held = Copied(out: File) | Single(block: File, from: nat, to: nat) {
    function Bytes(): File {
      match this
      case Copied(out) => out
      case Single(block, from, to) => if from <= to <= |block| then block[from..to] else []
    }

    /** Adds part of a block: the first piece is kept by reference, a second one forces a copy. */
    function Add(next: File, start: nat, stop: nat): (h: Held)
      requires stop <= |next|
      ensures h.Bytes() == Bytes() + if start < stop then next[start..stop] else []
    {
      if start >= stop then this
      else if this == Copied([]) then Single(next, start, stop)
      else Copied(Bytes() + next[start..stop])
    }

    /** Adds what is wanted of block `index`. */
    function AddBlock(block: File, offset: nat, end: nat, index: nat): Held
      requires index * BLOCK_SIZE <= end
    {
      var start := index * BLOCK_SIZE;
      Add(block, Max(offset, start) - start, Min(Min(end, start + BLOCK_SIZE) - start, |block|))
    }
  }

  lemma HeldGathers(held: Held, f: File, offset: nat, end: nat, index: nat)
    requires offset / BLOCK_SIZE <= index && index * BLOCK_SIZE <= end && offset <= end
    requires held.Bytes() == Wanted(f, offset, end, index)
    ensures held.AddBlock(Block(f, index), offset, end, index).Bytes() == Wanted(f, offset, end, index + 1)
  {
    GatherBlock(f, offset, end, index);
  }
}
