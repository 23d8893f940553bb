/** Write-back of one mount: a write buffer per open handle and an uploader that sends
    admitted buffers to the daemon in parallel and in any order.  The specification is one
    byte sequence per path, to which every accepted write is applied in issue order. */
module Uploads {
  import opened Bytes
  import opened Paths

  type Handle = nat
  type Errno = int

  /** Most bytes one handle buffers before its next write displaces the buffer. */
  const WRITE_BUFFER_LIMIT: nat := 8388608
  /** Most bytes of concurrent uploads, unless a single one is larger. */
  const MAX_INFLIGHT_UPLOAD_BYTES: nat := 134217728

  datatype Pending = Pending(path: Path, offset: nat, data: File)

  /** An admitted upload.  `landed` records that the daemon has applied all of it. */
  datatype Upload = Upload(fh: Handle, path: Path, offset: nat, data: File, landed: bool)

  datatype State = State(
    remote: map<Path, File>,
    buffers: map<Handle, Pending>,
    inflight: map<nat, Upload>,
    bytes: nat,
    next: nat,
    errors: map<Handle, Errno>,
    // history: the specification, the handles with a failed upload, and the handles to
    // which some call has returned an upload error
    spec: map<Path, File>,
    failed: set<Handle>,
    consumed: set<Handle>)

  /** The one handle through which each path is written. */
  type Owner = Path -> Handle

  function Initial(remote: map<Path, File>): State {
    State(remote, map[], map[], 0, 0, map[], remote, {}, {})
  }

  // ------------------------------------------------------------------ operations

  predicate Overlaps(u: Upload, path: Path, offset: nat, len: nat) {
    u.path == path && u.offset < offset + len && offset < u.offset + |u.data|
  }

  /** The condition a dispatch waits for. */
  predicate Admissible(s: State, p: Pending) {
    && (forall id <- s.inflight :: !Overlaps(s.inflight[id], p.path, p.offset, |p.data|))
    && (s.inflight == map[] || s.bytes + |p.data| <= MAX_INFLIGHT_UPLOAD_BYTES)
  }

  /** Each upload of the path ends before the data begins or begins behind its end, and the data fits
      into the limit if it is not alone. */
  lemma AdmissibleExactly(s: State, p: Pending)
    ensures Admissible(s, p) <==>
      && (forall id <- s.inflight | s.inflight[id].path == p.path ::
            || s.inflight[id].offset + |s.inflight[id].data| <= p.offset
            || p.offset + |p.data| <= s.inflight[id].offset)
      && ((forall id: nat :: id !in s.inflight) || s.bytes + |p.data| <= 0x800_0000)
  {
    if s.inflight != map[] {
      var id :| id in s.inflight;
    }
  }

  function Admit(s: State, fh: Handle, p: Pending): State {
    s.(next := s.next + 1,
       bytes := s.bytes + |p.data|,
       inflight := s.inflight[s.next + 1 := Upload(fh, p.path, p.offset, p.data, false)])
  }

  /** May `data` at `offset` be appended to the buffer of handle `fh`? */
  predicate Merges(s: State, fh: Handle, path: Path, offset: nat, data: File) {
    && fh in s.buffers
    && s.buffers[fh].path == path
    && s.buffers[fh].offset + |s.buffers[fh].data| == offset
    && |s.buffers[fh].data| + |data| <= WRITE_BUFFER_LIMIT
  }

  /** A call that finds an upload error of its handle returns it and clears it: `write` does so
      before it buffers anything, `flush` and `flush_matching` once the uploads have ended. */
  function TakeError(s: State, fh: Handle): State {
    if fh in s.errors then s.(errors := s.errors - {fh}, consumed := s.consumed + {fh}) else s
  }

  /** A write that found no error: it extends the handle's buffer, or replaces it and has the
      displaced one admitted. */
  function Write(s: State, fh: Handle, path: Path, offset: nat, data: File): State {
    if Merges(s, fh, path, offset, data) then
      s.(buffers := s.buffers[fh := s.buffers[fh].(data := s.buffers[fh].data + data)],
         spec := s.spec[path := WriteAt(Content(s.spec, path), offset, data)])
    else
      var t := if fh in s.buffers then Admit(s, fh, s.buffers[fh]) else s;
      t.(buffers := t.buffers[fh := Pending(path, offset, data)],
         spec := s.spec[path := WriteAt(Content(s.spec, path), offset, data)])
  }

  function Dispatch(s: State, fh: Handle): State {
    if fh in s.buffers then Admit(s, fh, s.buffers[fh]).(buffers := s.buffers - {fh}) else s
  }

  /** The daemon applies the first k bytes of an upload; a retried stream does so again. */
  function Transfer(s: State, id: nat, k: nat): State
    requires id in s.inflight && k <= |s.inflight[id].data|
  {
    var u := s.inflight[id];
    s.(remote := s.remote[u.path := WriteAt(Content(s.remote, u.path), u.offset, u.data[..k])],
       inflight := s.inflight[id := u.(landed := u.landed || k == |u.data|)])
  }

  function SaturatingSub(a: nat, b: nat): nat {
    if a < b then 0 else a - b
  }

  function Finish(s: State, id: nat, error: Errno): State
    requires id in s.inflight
  {
    var u := s.inflight[id];
    var t := s.(inflight := s.inflight - {id}, bytes := SaturatingSub(s.bytes, |u.data|));
    if error == 0 then t else t.(errors := t.errors[u.fh := error], failed := t.failed + {u.fh})
  }

  datatype Step =
    | DoWrite(fh: Handle, path: Path, offset: nat, data: File)
    | DoDispatch(fh: Handle)
    | DoTransfer(id: nat, k: nat)
    | DoFinish(id: nat, error: Errno)
    | DoTakeError(fh: Handle)

  /** A write comes from the path's own handle and waits until the buffer it displaces is
      admissible; a dispatch waits likewise; an upload is acknowledged only once landed. */
  predicate Enabled(s: State, l: Step, owner: Owner) {
    match l
    case DoWrite(fh, path, offset, data) =>
      && owner(path) == fh
      && (Merges(s, fh, path, offset, data) || fh !in s.buffers || Admissible(s, s.buffers[fh]))
    case DoDispatch(fh) => fh in s.buffers ==> Admissible(s, s.buffers[fh])
    case DoTransfer(id, k) => id in s.inflight && k <= |s.inflight[id].data|
    case DoFinish(id, error) => id in s.inflight && (error == 0 ==> s.inflight[id].landed)
    case DoTakeError(fh) => true
  }

  function Apply(s: State, l: Step, owner: Owner): State
    requires Enabled(s, l, owner)
  {
    match l
    case DoWrite(fh, path, offset, data) => Write(s, fh, path, offset, data)
    case DoDispatch(fh) => Dispatch(s, fh)
    case DoTransfer(id, k) => Transfer(s, id, k)
    case DoFinish(id, error) => Finish(s, id, error)
    case DoTakeError(fh) => TakeError(s, fh)
  }

  // ------------------------------------------------------------------ abstraction

  /** The file `f` overlaid by the uploads to `p` numbered up to `n`, in issue order. */
  function Overlay(f: File, inflight: map<nat, Upload>, p: Path, n: nat): File {
    if n == 0 then
      f
    else
      var g := Overlay(f, inflight, p, n - 1);
      if n in inflight && inflight[n].path == p then WriteAt(g, inflight[n].offset, inflight[n].data) else g
  }

  /** What the remote file will be once every upload and the owner's buffer have landed. */
  function Logical(s: State, p: Path, owner: Owner): File {
    var f := Overlay(Content(s.remote, p), s.inflight, p, s.next);
    if owner(p) in s.buffers && s.buffers[owner(p)].path == p then
      WriteAt(f, s.buffers[owner(p)].offset, s.buffers[owner(p)].data)
    else
      f
  }

  /** Total length of the uploads numbered up to n. */
  function TotalBytes(inflight: map<nat, Upload>, n: nat): nat {
    if n == 0 then
      0
    else
      TotalBytes(inflight, n - 1) + if n in inflight then |inflight[n].data| else 0
  }

  /** Numbers are issued once, and concurrent uploads to one path are pairwise disjoint. */
  predicate Separate(inflight: map<nat, Upload>, next: nat) {
    && (forall id <- inflight :: 1 <= id <= next)
    && (forall i <- inflight, j <- inflight | i != j ::
          !Overlaps(inflight[i], inflight[j].path, inflight[j].offset, |inflight[j].data|))
  }

  /** `bytes` is exact, and within the limit unless a single upload is in flight. */
  predicate Accounted(s: State) {
    && s.bytes == TotalBytes(s.inflight, s.next)
    && (s.bytes <= MAX_INFLIGHT_UPLOAD_BYTES || |s.inflight| <= 1)
  }

  /** Has the daemon applied all of this upload? */
  predicate Present(f: File, u: Upload) {
    WriteAt(f, u.offset, u.data) == f
  }

  /** Buffers and uploads carry their path's own handle; a landed upload is present; a
      failure is recorded or has been reported. */
  predicate Tracked(s: State, owner: Owner) {
    && (forall id <- s.inflight :: s.inflight[id].fh == owner(s.inflight[id].path))
    && (forall fh <- s.buffers :: owner(s.buffers[fh].path) == fh)
    && (forall id <- s.inflight | s.inflight[id].landed ::
          Present(Content(s.remote, s.inflight[id].path), s.inflight[id]))
    && s.errors.Keys <= s.failed <= s.errors.Keys + s.consumed
  }

  /** The refinement: what will have landed is what was written. */
  ghost predicate Refines(s: State, owner: Owner) {
    forall p: Path | owner(p) !in s.failed :: Logical(s, p, owner) == Content(s.spec, p)
  }

  ghost predicate Inv(s: State, owner: Owner) {
    Separate(s.inflight, s.next) && Accounted(s) && Tracked(s, owner) && Refines(s, owner)
  }

  // ------------------------------------------------------------------ overlay algebra

  /** Uploads to other paths and numbers above the map's do not matter. */
  lemma {:induction false} OverlayFrame(f: File, a: map<nat, Upload>, b: map<nat, Upload>, p: Path, n: nat)
    requires forall i: nat :: 1 <= i <= n ==>
      (i in a && a[i].path == p) == (i in b && b[i].path == p)
    requires forall i: nat :: 1 <= i <= n && i in a && i in b && a[i].path == p ==>
      a[i].offset == b[i].offset && a[i].data == b[i].data
    ensures Overlay(f, a, p, n) == Overlay(f, b, p, n)
  {
    if n != 0 {
      OverlayFrame(f, a, b, p, n - 1);
    }
  }

  predicate Clear(inflight: map<nat, Upload>, p: Path, offset: nat, len: nat, n: nat) {
    forall i: nat :: 1 <= i <= n && i in inflight && inflight[i].path == p ==>
      inflight[i].offset + |inflight[i].data| <= offset || offset + len <= inflight[i].offset
      || len == 0 || inflight[i].data == []
  }

  lemma EmptyWritesCommute(f: File, a: nat, x: File, b: nat, y: File)
    requires a + |x| <= b || b + |y| <= a || x == [] || y == []
    ensures WriteAt(WriteAt(f, a, x), b, y) == WriteAt(WriteAt(f, b, y), a, x)
  {
    if x != [] && y != [] {
      DisjointWritesCommute(f, a, x, b, y);
    }
  }

  /** A write clear of every upload passes through the overlay. */
  lemma {:induction false} WriteThroughOverlay(f: File, inflight: map<nat, Upload>, p: Path, n: nat, offset: nat,
      data: File)
    requires Clear(inflight, p, offset, |data|, n)
    ensures Overlay(WriteAt(f, offset, data), inflight, p, n) == WriteAt(Overlay(f, inflight, p, n), offset, data)
  {
    if n != 0 {
      WriteThroughOverlay(f, inflight, p, n - 1, offset, data);
      if n in inflight && inflight[n].path == p {
        EmptyWritesCommute(Overlay(f, inflight, p, n - 1), offset, data, inflight[n].offset, inflight[n].data);
      }
    }
  }

  /** An upload may be pulled out of the overlay from any position: completion order is
      irrelevant. */
  lemma {:induction false} PullOut(f: File, inflight: map<nat, Upload>, p: Path, n: nat, id: nat)
    requires 1 <= id <= n && id in inflight && inflight[id].path == p
    requires Clear(inflight - {id}, p, inflight[id].offset, |inflight[id].data|, n)
    ensures Overlay(f, inflight, p, n)
      == WriteAt(Overlay(f, inflight - {id}, p, n), inflight[id].offset, inflight[id].data)
  {
    var rest := inflight - {id};
    if n == id {
      OverlayFrame(f, inflight, rest, p, n - 1);
    } else {
      PullOut(f, inflight, p, n - 1, id);
      if n in inflight && inflight[n].path == p {
        assert rest[n] == inflight[n];
        EmptyWritesCommute(Overlay(f, rest, p, n - 1), inflight[id].offset, inflight[id].data, inflight[n].offset,
          inflight[n].data);
      }
    }
  }

  /** Transferring part of an in-flight upload does not change the overlay. */
  lemma TransferInvisible(f: File, inflight: map<nat, Upload>, p: Path, n: nat, id: nat, k: nat)
    requires 1 <= id <= n && id in inflight && inflight[id].path == p && k <= |inflight[id].data|
    requires Clear(inflight - {id}, p, inflight[id].offset, |inflight[id].data|, n)
    ensures Overlay(WriteAt(f, inflight[id].offset, inflight[id].data[..k]), inflight, p, n)
      == Overlay(f, inflight, p, n)
  {
    var u := inflight[id];
    var rest := inflight - {id};
    var partial := u.data[..k];
    PullOut(f, inflight, p, n, id);
    PullOut(WriteAt(f, u.offset, partial), inflight, p, n, id);
    assert Clear(rest, p, u.offset, |partial|, n);
    WriteThroughOverlay(f, rest, p, n, u.offset, partial);
    PrefixAbsorbed(Overlay(f, rest, p, n), u.offset, u.data, k);
  }

  /** An upload that has landed can leave the in-flight set unnoticed. */
  lemma LandedInvisible(f: File, inflight: map<nat, Upload>, p: Path, n: nat, id: nat)
    requires 1 <= id <= n && id in inflight && inflight[id].path == p
    requires Clear(inflight - {id}, p, inflight[id].offset, |inflight[id].data|, n)
    requires Present(f, inflight[id])
    ensures Overlay(f, inflight - {id}, p, n) == Overlay(f, inflight, p, n)
  {
    PullOut(f, inflight, p, n, id);
    WriteThroughOverlay(f, inflight - {id}, p, n, inflight[id].offset, inflight[id].data);
  }

  lemma {:induction false} TotalFrame(a: map<nat, Upload>, b: map<nat, Upload>, n: nat)
    requires forall i: nat :: 1 <= i <= n ==> (i in a) == (i in b)
    requires forall i: nat :: 1 <= i <= n && i in a && i in b ==> |a[i].data| == |b[i].data|
    ensures TotalBytes(a, n) == TotalBytes(b, n)
  {
    if n != 0 {
      TotalFrame(a, b, n - 1);
    }
  }

  lemma {:induction false} TotalRemove(inflight: map<nat, Upload>, n: nat, id: nat)
    requires 1 <= id <= n && id in inflight
    ensures TotalBytes(inflight, n) == TotalBytes(inflight - {id}, n) + |inflight[id].data|
  {
    if n == id {
      TotalFrame(inflight, inflight - {id}, n - 1);
    } else {
      TotalRemove(inflight, n - 1, id);
    }
  }

  lemma ClearOfOthers(s: State, id: nat)
    requires Separate(s.inflight, s.next) && id in s.inflight
    ensures Clear(s.inflight - {id}, s.inflight[id].path, s.inflight[id].offset, |s.inflight[id].data|, s.next)
  {
  }

  // ------------------------------------------------------------------ invariant

  lemma AdmitSeparate(s: State, fh: Handle, p: Pending)
    requires Separate(s.inflight, s.next) && Admissible(s, p)
    ensures Separate(Admit(s, fh, p).inflight, s.next + 1)
  {
  }

  lemma AdmitAccounted(s: State, fh: Handle, p: Pending)
    requires Separate(s.inflight, s.next) && Accounted(s) && Admissible(s, p)
    ensures Accounted(Admit(s, fh, p))
  {
    AdmitTotal(s, fh, p);
    hide Separate, Overlaps, TotalBytes;
    if s.inflight == map[] {
      assert Admit(s, fh, p).inflight.Keys == {s.next + 1};
    }
  }

  lemma AdmitTotal(s: State, fh: Handle, p: Pending)
    requires Separate(s.inflight, s.next)
    ensures TotalBytes(Admit(s, fh, p).inflight, s.next + 1) == TotalBytes(s.inflight, s.next) + |p.data|
  {
    var t := Admit(s, fh, p);
    TotalFrame(s.inflight, t.inflight, s.next);
  }

  lemma AdmitOverlay(s: State, fh: Handle, p: Pending, q: Path)
    requires Separate(s.inflight, s.next)
    ensures var f := Overlay(Content(s.remote, q), s.inflight, q, s.next);
            Overlay(Content(s.remote, q), Admit(s, fh, p).inflight, q, s.next + 1)
              == if q == p.path then WriteAt(f, p.offset, p.data) else f
  {
    OverlayFrame(Content(s.remote, q), s.inflight, Admit(s, fh, p).inflight, q, s.next);
  }


  lemma DispatchTracked(s: State, fh: Handle, owner: Owner)
    requires Separate(s.inflight, s.next) && Tracked(s, owner)
    ensures Tracked(Dispatch(s, fh), owner)
  {
  }

  lemma DispatchRefines(s: State, fh: Handle, owner: Owner, p: Path)
    requires Separate(s.inflight, s.next) && fh in s.buffers && owner(s.buffers[fh].path) == fh
    ensures Logical(Dispatch(s, fh), p, owner) == Logical(s, p, owner)
  {
    AdmitOverlay(s, fh, s.buffers[fh], p);
  }

  lemma DispatchKeepsInv(s: State, fh: Handle, owner: Owner)
    requires Inv(s, owner) && (fh in s.buffers ==> Admissible(s, s.buffers[fh]))
    ensures Inv(Dispatch(s, fh), owner)
  {
    if fh in s.buffers {
      AdmitSeparate(s, fh, s.buffers[fh]);
      AdmitAccounted(s, fh, s.buffers[fh]);
      DispatchTracked(s, fh, owner);
      forall p: Path {
        DispatchRefines(s, fh, owner, p);
      }
    }
  }

  lemma WriteTracked(s: State, fh: Handle, path: Path, offset: nat, data: File, owner: Owner)
    requires Separate(s.inflight, s.next) && Tracked(s, owner) && owner(path) == fh
    ensures Tracked(Write(s, fh, path, offset, data), owner)
  {
  }

  lemma MergeRefines(s: State, fh: Handle, path: Path, offset: nat, data: File, owner: Owner, p: Path)
    requires owner(path) == fh && Merges(s, fh, path, offset, data)
    requires Logical(s, p, owner) == Content(s.spec, p)
    ensures Logical(Write(s, fh, path, offset, data), p, owner) == Content(Write(s, fh, path, offset, data).spec, p)
  {
    hide WriteAt, Overlay;
    if p == path {
      var b := s.buffers[fh];
      AdjacentWritesMerge(Overlay(Content(s.remote, p), s.inflight, p, s.next), b.offset, b.data, data);
    }
  }

  lemma ReplaceRefines(s: State, fh: Handle, path: Path, offset: nat, data: File, owner: Owner, p: Path)
    requires Separate(s.inflight, s.next)
    requires owner(path) == fh && !Merges(s, fh, path, offset, data)
    requires fh in s.buffers ==> owner(s.buffers[fh].path) == fh
    requires Logical(s, p, owner) == Content(s.spec, p)
    ensures Logical(Write(s, fh, path, offset, data), p, owner) == Content(Write(s, fh, path, offset, data).spec, p)
  {
    if fh in s.buffers {
      AdmitOverlay(s, fh, s.buffers[fh], p);
    }
  }

  lemma WriteKeepsInv(s: State, fh: Handle, path: Path, offset: nat, data: File, owner: Owner)
    requires Inv(s, owner) && Enabled(s, DoWrite(fh, path, offset, data), owner)
    ensures Inv(Write(s, fh, path, offset, data), owner)
  {
    WriteTracked(s, fh, path, offset, data, owner);
    if Merges(s, fh, path, offset, data) {
      forall p: Path | owner(p) !in s.failed {
        MergeRefines(s, fh, path, offset, data, owner, p);
      }
    } else {
      if fh in s.buffers {
        AdmitSeparate(s, fh, s.buffers[fh]);
        AdmitAccounted(s, fh, s.buffers[fh]);
      }
      forall p: Path | owner(p) !in s.failed {
        ReplaceRefines(s, fh, path, offset, data, owner, p);
      }
    }
  }

  lemma TakeErrorKeepsInv(s: State, fh: Handle, owner: Owner)
    requires Inv(s, owner)
    ensures Inv(TakeError(s, fh), owner)
  {
    forall p: Path ensures Logical(TakeError(s, fh), p, owner) == Logical(s, p, owner) {
    }
  }

  lemma PresentFrame(f: File, u: Upload, off: nat, d: File)
    requires Present(f, u)
    requires u.offset + |u.data| <= off || off + |d| <= u.offset || u.data == [] || d == []
    ensures Present(WriteAt(f, off, d), u)
  {
    EmptyWritesCommute(f, off, d, u.offset, u.data);
  }

  lemma PresentAfterPrefix(f: File, u: Upload, k: nat)
    requires k <= |u.data|
    requires Present(f, u) || k == |u.data|
    ensures Present(WriteAt(f, u.offset, u.data[..k]), u)
  {
    var g := WriteAt(f, u.offset, u.data[..k]);
    PrefixAbsorbed(f, u.offset, u.data, k);
    if k == |u.data| {
      assert u.data[..k] == u.data;
    } else {
      forall p: nat ensures At(g, p) == At(f, p) {
        WriteAtByte(f, u.offset, u.data, p);
        WriteAtByte(f, u.offset, u.data[..k], p);
      }
      AtExtensional(g, f);
    }
  }

  lemma TransferTracked(s: State, id: nat, k: nat, owner: Owner)
    requires Separate(s.inflight, s.next) && Tracked(s, owner)
    requires id in s.inflight && k <= |s.inflight[id].data|
    ensures Tracked(Transfer(s, id, k), owner)
  {
    var t, u := Transfer(s, id, k), s.inflight[id];
    forall i <- t.inflight | t.inflight[i].landed
      ensures Present(Content(t.remote, t.inflight[i].path), t.inflight[i])
    {
      if i == id {
        PresentAfterPrefix(Content(s.remote, u.path), u, k);
      } else if s.inflight[i].path == u.path {
        PresentFrame(Content(s.remote, u.path), s.inflight[i], u.offset, u.data[..k]);
      }
    }
  }

  lemma TransferAccounted(s: State, id: nat, k: nat)
    requires Separate(s.inflight, s.next) && Accounted(s)
    requires id in s.inflight && k <= |s.inflight[id].data|
    ensures Accounted(Transfer(s, id, k))
  {
    var t := Transfer(s, id, k);
    TotalFrame(s.inflight, t.inflight, s.next);
    assert t.inflight.Keys == s.inflight.Keys;
    assert |t.inflight| == |t.inflight.Keys| == |s.inflight.Keys| == |s.inflight|;
  }

  lemma TransferRefines(s: State, id: nat, k: nat, owner: Owner, p: Path)
    requires Separate(s.inflight, s.next)
    requires id in s.inflight && k <= |s.inflight[id].data|
    ensures Logical(Transfer(s, id, k), p, owner) == Logical(s, p, owner)
  {
    var t := Transfer(s, id, k);
    ClearOfOthers(s, id);
    OverlayFrame(Content(t.remote, p), s.inflight, t.inflight, p, s.next);
    if p == s.inflight[id].path {
      TransferInvisible(Content(s.remote, p), s.inflight, p, s.next, id, k);
    }
  }

  lemma TransferKeepsInv(s: State, id: nat, k: nat, owner: Owner)
    requires Inv(s, owner) && id in s.inflight && k <= |s.inflight[id].data|
    ensures Inv(Transfer(s, id, k), owner)
  {
    TransferAccounted(s, id, k);
    TransferTracked(s, id, k, owner);
    forall p: Path {
      TransferRefines(s, id, k, owner, p);
    }
  }

  lemma FinishAccounted(s: State, id: nat, error: Errno)
    requires Separate(s.inflight, s.next) && Accounted(s) && id in s.inflight
    ensures Accounted(Finish(s, id, error))
    ensures Finish(s, id, error).bytes + |s.inflight[id].data| == s.bytes
    ensures |Finish(s, id, error).inflight| == |s.inflight| - 1
  {
    var t := Finish(s, id, error);
    TotalRemove(s.inflight, s.next, id);
    assert t.inflight.Keys == s.inflight.Keys - {id};
    assert |t.inflight| == |t.inflight.Keys| == |s.inflight.Keys| - 1;
  }

  lemma FinishTracked(s: State, id: nat, error: Errno, owner: Owner)
    requires Tracked(s, owner) && id in s.inflight
    ensures Tracked(Finish(s, id, error), owner)
  {
  }

  lemma FinishRefines(s: State, id: nat, error: Errno, owner: Owner, p: Path)
    requires Separate(s.inflight, s.next) && id in s.inflight
    requires p == s.inflight[id].path ==> Present(Content(s.remote, p), s.inflight[id])
    ensures Logical(Finish(s, id, error), p, owner) == Logical(s, p, owner)
  {
    ClearOfOthers(s, id);
    if p == s.inflight[id].path {
      LandedInvisible(Content(s.remote, p), s.inflight, p, s.next, id);
    } else {
      OverlayFrame(Content(s.remote, p), s.inflight, Finish(s, id, error).inflight, p, s.next);
    }
  }

  lemma FinishKeepsInv(s: State, id: nat, error: Errno, owner: Owner)
    requires Inv(s, owner) && id in s.inflight && (error == 0 ==> s.inflight[id].landed)
    ensures Inv(Finish(s, id, error), owner)
  {
    FinishAccounted(s, id, error);
    FinishTracked(s, id, error, owner);
    var t := Finish(s, id, error);
    forall p: Path | owner(p) !in t.failed
      ensures Logical(t, p, owner) == Content(t.spec, p)
    {
      FinishRefines(s, id, error, owner, p);
    }
  }

  lemma StepKeepsInv(s: State, l: Step, owner: Owner)
    requires Inv(s, owner) && Enabled(s, l, owner)
    ensures Inv(Apply(s, l, owner), owner)
  {
    match l
    case DoWrite(fh, path, offset, data) => WriteKeepsInv(s, fh, path, offset, data, owner);
    case DoDispatch(fh) => DispatchKeepsInv(s, fh, owner);
    case DoTransfer(id, k) => TransferKeepsInv(s, id, k, owner);
    case DoFinish(id, error) => FinishKeepsInv(s, id, error, owner);
    case DoTakeError(fh) => TakeErrorKeepsInv(s, fh, owner);
  }

  // ------------------------------------------------------------------ whole runs

  ghost predicate Runs(s: State, steps: seq<Step>, owner: Owner)
    decreases steps
  {
    steps != [] ==> Enabled(s, steps[0], owner) && Runs(Apply(s, steps[0], owner), steps[1..], owner)
  }

  function Exec(s: State, steps: seq<Step>, owner: Owner): State
    requires Runs(s, steps, owner)
    decreases steps
  {
    if steps == [] then s else Exec(Apply(s, steps[0], owner), steps[1..], owner)
  }

  /** The file `f` after the writes to `p`, applied one after the other in issue order. */
  function Issued(f: File, s: State, steps: seq<Step>, owner: Owner, p: Path): File
    requires Runs(s, steps, owner)
    decreases steps
  {
    if steps == [] then
      f
    else
      var l := steps[0];
      Issued(if l.DoWrite? && l.path == p then WriteAt(f, l.offset, l.data) else f,
             Apply(s, l, owner), steps[1..], owner, p)
  }

  lemma InitialInv(remote: map<Path, File>, owner: Owner)
    ensures Inv(Initial(remote), owner)
  {
  }

  lemma {:induction false} RunKeepsInv(s: State, steps: seq<Step>, owner: Owner)
    requires Inv(s, owner) && Runs(s, steps, owner)
    ensures Inv(Exec(s, steps, owner), owner)
    decreases steps
  {
    if steps != [] {
      StepKeepsInv(s, steps[0], owner);
      RunKeepsInv(Apply(s, steps[0], owner), steps[1..], owner);
    }
  }

  lemma {:induction false} SpecIsIssueOrder(s: State, steps: seq<Step>, owner: Owner, p: Path)
    requires Runs(s, steps, owner)
    ensures Content(Exec(s, steps, owner).spec, p) == Issued(Content(s.spec, p), s, steps, owner, p)
    decreases steps
  {
    if steps != [] {
      var t := Apply(s, steps[0], owner);
      SpecIsIssueOrder(t, steps[1..], owner, p);
    }
  }

  lemma {:induction false} NothingInFlight(f: File, inflight: map<nat, Upload>, p: Path, n: nat)
    requires forall id <- inflight :: inflight[id].path != p
    ensures Overlay(f, inflight, p, n) == f
  {
    if n != 0 {
      NothingInFlight(f, inflight, p, n - 1);
    }
  }

  /** What `flush` has established when it returns Ok. */
  predicate Drained(s: State, fh: Handle) {
    && fh !in s.buffers
    && (forall id <- s.inflight :: s.inflight[id].fh != fh)
    && fh !in s.errors
  }

  /** A settled path of a handle without failures is byte for byte what was written. */
  lemma SettledPath(s: State, owner: Owner, p: Path)
    requires Inv(s, owner) && owner(p) !in s.failed
    requires owner(p) in s.buffers ==> s.buffers[owner(p)].path != p
    requires forall id <- s.inflight :: s.inflight[id].path != p
    ensures Content(s.remote, p) == Content(s.spec, p)
  {
    NothingInFlight(Content(s.remote, p), s.inflight, p, s.next);
    assert Logical(s, p, owner) == Content(s.spec, p);
  }

  /** Write-back refinement, and Flush-Ok means uploaded: over every run (any interleaving of
      writes, merges, displacements, idle flushes, partial and repeated transfers, and
      completions in any order), if a flush of the handle would return Ok and no call has ever
      returned an upload error to it, the daemon holds exactly the writes applied in issue
      order, in every file of the handle. */
  lemma FlushedMeansUploaded(remote: map<Path, File>, steps: seq<Step>, owner: Owner, fh: Handle, p: Path)
    requires Runs(Initial(remote), steps, owner)
    requires Drained(Exec(Initial(remote), steps, owner), fh)
    requires fh !in Exec(Initial(remote), steps, owner).consumed
    requires owner(p) == fh
    ensures Content(Exec(Initial(remote), steps, owner).remote, p)
         == Issued(Content(remote, p), Initial(remote), steps, owner, p)
  {
    var s := Initial(remote);
    InitialInv(remote, owner);
    RunKeepsInv(s, steps, owner);
    SpecIsIssueOrder(s, steps, owner, p);
    SettledPath(Exec(s, steps, owner), owner, p);
  }

  /** No buffer and no upload is longer than the limit, but for those that are one write. */
  ghost predicate Bounded(s: State, writes: set<File>) {
    && (forall fh <- s.buffers :: |s.buffers[fh].data| <= WRITE_BUFFER_LIMIT || s.buffers[fh].data in writes)
    && (forall id <- s.inflight :: |s.inflight[id].data| <= WRITE_BUFFER_LIMIT || s.inflight[id].data in writes)
  }

  lemma StepBounded(s: State, l: Step, owner: Owner, writes: set<File>)
    requires Bounded(s, writes) && Enabled(s, l, owner) && (l.DoWrite? ==> l.data in writes)
    ensures Bounded(Apply(s, l, owner), writes)
  {
    hide WriteAt;
  }

  lemma {:induction false} RunBounded(s: State, steps: seq<Step>, owner: Owner, writes: set<File>)
    requires Bounded(s, writes) && Runs(s, steps, owner) && forall l <- steps :: l.DoWrite? ==> l.data in writes
    ensures Bounded(Exec(s, steps, owner), writes)
    decreases steps
  {
    hide Bounded, Enabled, Apply;
    if steps != [] {
      StepBounded(s, steps[0], owner, writes);
      RunBounded(Apply(s, steps[0], owner), steps[1..], owner, writes);
    }
  }

  /** Over every run: what is buffered, or in flight, beyond the limit is the data of one write. */
  lemma BuffersBounded(remote: map<Path, File>, steps: seq<Step>, owner: Owner, fh: Handle)
    requires Runs(Initial(remote), steps, owner) && fh in Exec(Initial(remote), steps, owner).buffers
    ensures var data := Exec(Initial(remote), steps, owner).buffers[fh].data;
      |data| <= WRITE_BUFFER_LIMIT || exists l <- steps :: l.DoWrite? && l.data == data
  {
    var writes := set l <- steps | l.DoWrite? :: l.data;
    RunBounded(Initial(remote), steps, owner, writes);
  }

  /** Admission over every run: uploads to one path are pairwise disjoint, the byte count is
      the exact sum of their lengths, and it exceeds the limit only for a lone upload. */
  lemma AdmissionHolds(remote: map<Path, File>, steps: seq<Step>, owner: Owner)
    requires Runs(Initial(remote), steps, owner)
    ensures var t := Exec(Initial(remote), steps, owner);
            Separate(t.inflight, t.next) && Accounted(t)
  {
    InitialInv(remote, owner);
    RunKeepsInv(Initial(remote), steps, owner);
  }

  /** A dispatch that must wait has an upload to wait for, and each completion brings it
      nearer to admission: the number in flight drops, and at zero it is admitted. */
  lemma WaitingEnds(s: State, p: Pending, id: nat, error: Errno)
    requires Separate(s.inflight, s.next) && Accounted(s) && !Admissible(s, p)
    ensures s.inflight != map[]
    ensures id in s.inflight ==> |Finish(s, id, error).inflight| < |s.inflight|
    ensures forall t: State :: t.inflight == map[] ==> Admissible(t, p)
  {
    if id in s.inflight {
      FinishAccounted(s, id, error);
    }
  }

  /** The file after the listed uploads to `p` land one after the other. */
  function Land(f: File, inflight: map<nat, Upload>, p: Path, order: seq<nat>): File
    requires forall i <- order :: i in inflight
  {
    if order == [] then
      f
    else
      var g := Land(f, inflight, p, order[..|order| - 1]);
      var u := inflight[order[|order| - 1]];
      if u.path == p then WriteAt(g, u.offset, u.data) else g
  }

  lemma {:induction false} LandFrame(f: File, a: map<nat, Upload>, b: map<nat, Upload>, p: Path, order: seq<nat>)
    requires forall i <- order :: i in a && i in b && a[i] == b[i]
    ensures Land(f, a, p, order) == Land(f, b, p, order)
  {
    if order != [] {
      LandFrame(f, a, b, p, order[..|order| - 1]);
    }
  }

  /** Uploads in flight may land in any order at all: the result is the issue-order overlay. */
  lemma {:induction false} AnyLandingOrder(f: File, inflight: map<nat, Upload>, p: Path, next: nat, order: seq<nat>)
    requires Separate(inflight, next)
    requires forall i <- order :: i in inflight
    requires forall i <- inflight :: i in order
    requires forall a, b :: 0 <= a < b < |order| ==> order[a] != order[b]
    ensures Land(f, inflight, p, order) == Overlay(f, inflight, p, next)
    decreases |order|
  {
    if order == [] {
      NothingInFlight(f, inflight, p, next);
    } else {
      var id, front := order[|order| - 1], order[..|order| - 1];
      var rest := inflight - {id};
      forall i | i in front ensures i in rest {
        var a :| 0 <= a < |front| && front[a] == i;
        assert order[a] == i;
      }
      forall i | i in rest ensures i in front {
        var a :| 0 <= a < |order| && order[a] == i;
        assert front[a] == i;
      }
      LandFrame(f, inflight, rest, p, front);
      AnyLandingOrder(f, rest, p, next, front);
      if inflight[id].path == p {
        assert Clear(rest, p, inflight[id].offset, |inflight[id].data|, next);
        PullOut(f, inflight, p, next, id);
      } else {
        OverlayFrame(f, inflight, rest, p, next);
      }
    }
  }
}
