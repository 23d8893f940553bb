/** A streamed write that is cut, again and again, among other clients' requests, until one attempt
    goes through: the tree is as if there had been no other attempt. */
module CutWrites {
  import opened Bytes
  import opened Trees
  import opened Wrappers
  import opened RequestLog

  // ------------------------------------------------------------------ files that differ in a range

  /** The byte at i, zero past the end. */
  function Val(f: File, i: nat): byte {
    if i < |f| then f[i] else 0
  }

  /** Do two files agree outside a range, the first being no shorter, and longer only within it? */
  ghost predicate AgreeOutside(f: File, g: File, offset: nat, len: nat) {
    && (forall i: nat :: i < offset || offset + len <= i ==> Val(f, i) == Val(g, i))
    && |g| <= |f| && (|f| == |g| || (len > 0 && |f| <= offset + len))
  }

  lemma EditAgrees(f: File, g: File, offset: nat, len: nat, at: nat, d: File, size: nat)
    requires AgreeOutside(f, g, offset, len)
    ensures AgreeOutside(WriteAt(f, at, d), WriteAt(g, at, d), offset, len)
    ensures AgreeOutside(Resize(f, size), Resize(g, size), offset, len)
  {
    var x, y := WriteAt(f, at, d), WriteAt(g, at, d);
    forall i: nat | i < offset || offset + len <= i
      ensures Val(x, i) == Val(y, i) && Val(Resize(f, size), i) == Val(Resize(g, size), i)
    {
      assert Val(f, i) == Val(g, i);
    }
  }

  lemma CutAgrees(f: File, g: File, offset: nat, data: File, bytes: File)
    requires AgreeOutside(f, g, offset, |data|) && bytes <= data
    ensures AgreeOutside(WriteAt(f, offset, bytes), g, offset, |data|)
  {
  }

  lemma FullAgrees(f: File, g: File, offset: nat, data: File)
    requires AgreeOutside(f, g, offset, |data|)
    ensures WriteAt(f, offset, data) == WriteAt(g, offset, data)
  {
    var x, y := WriteAt(f, offset, data), WriteAt(g, offset, data);
    assert |x| == |y|;
    forall i: nat | i < |x|
      ensures x[i] == y[i]
    {
      assert Val(f, i) == Val(g, i) || offset <= i < offset + |data|;
    }
  }

  // ------------------------------------------------------------------ trees that differ by cut attempts

  ghost predicate Like(m: Node, n: Node, offset: nat, len: nat) {
    m == n || (m.Regular? && n.Regular? && m.(data := n.data) == n && AgreeOutside(m.data, n.data, offset, len))
  }

  /** What cut attempts at writing p add at k: part of the range of p, p itself, or a directory above it. */
  ghost predicate AlikeAt(t: Tree, u: Tree, k: Rel, p: Rel, offset: nat, len: nat) {
    if k in u then
      k in t && (t[k] == u[k] || (k == p && Like(t[k], u[k], offset, len)))
    else
      k in t ==> (k < p && t[k] == NEW_DIRECTORY) || (k == p && t[k].Regular? && Like(t[k], NEW_FILE, offset, len))
  }

  ghost predicate Alike(t: Tree, u: Tree, p: Rel, offset: nat, len: nat) {
    Rooted(t) && Rooted(u) && forall k: Rel :: AlikeAt(t, u, k, p, offset, len)
  }

  /** Everything above something is there. */
  lemma AboveIsThere(t: Tree, k: Rel, p: Rel)
    requires Rooted(t) && p in t && k <= p && k != []
    ensures k in t && (k < p ==> t[k].Directory?)
  {
    RootedChain(t, p);
    if |k| == |p| {
      assert k == p;
    } else {
      assert Parent(p)[..|k|] == p[..|k|] == k;
      assert IsDirectory(t, Parent(p)[..|k|]);
    }
  }

  lemma AlikeMakeDirs(t: Tree, u: Tree, q: Rel, p: Rel, offset: nat, len: nat)
    requires Alike(t, u, p, offset, len) && (p <= q && p != [] ==> p in u)
    ensures MakeDirs(t, q).ok == MakeDirs(u, q).ok
    ensures Alike(MakeDirs(t, q).tree, MakeDirs(u, q).tree, p, offset, len)
    ensures p in u ==> p in MakeDirs(u, q).tree
  {
    MakeDirsIs(t, q);
    MakeDirsIs(u, q);
    MakeDirsRooted(t, q);
    MakeDirsRooted(u, q);
    SameObstacles(t, u, q, p, offset, len);
    hide MakeDirs, Rooted, Like;
    var x, y := MakeDirs(t, q).tree, MakeDirs(u, q).tree;
    if MakeDirs(t, q).ok {
      forall k: Rel
        ensures AlikeAt(x, y, k, p, offset, len)
      {
        assert AlikeAt(t, u, k, p, offset, len);
      }
    }
  }

  lemma SameObstacles(t: Tree, u: Tree, q: Rel, p: Rel, offset: nat, len: nat)
    requires Alike(t, u, p, offset, len) && (p <= q && p != [] ==> p in u)
    ensures (forall k <- t :: k <= q && k != [] ==> t[k].Directory?) <==>
      (forall k <- u :: k <= q && k != [] ==> u[k].Directory?)
  {
    hide Rooted, AgreeOutside;
    forall k: Rel
      ensures k in u ==> k in t && t[k].Directory? == u[k].Directory?
      ensures k in t && k !in u && k <= q && k != [] ==> t[k].Directory?
    {
      assert AlikeAt(t, u, k, p, offset, len);
    }
  }

  lemma AlikePut(t: Tree, u: Tree, q: Rel, m: Node, n: Node, p: Rel, offset: nat, len: nat)
    requires Alike(t, u, p, offset, len) && q != [] && IsDirectory(t, Parent(q)) && IsDirectory(u, Parent(q))
    requires m == n || (q == p && Like(m, n, offset, len))
    requires (q in t ==> t[q].Directory? == m.Directory?) && (q in u ==> u[q].Directory? == n.Directory?)
    ensures Alike(t[q := m], u[q := n], p, offset, len)
  {
    PutRooted(t, q, m);
    PutRooted(u, q, n);
    var x, y := t[q := m], u[q := n];
    hide Rooted, Like;
    forall k: Rel
      ensures AlikeAt(x, y, k, p, offset, len)
    {
      assert AlikeAt(t, u, k, p, offset, len);
    }
  }

  // ------------------------------------------------------------------ other clients' requests

  predicate Apart(q: Rel, p: Rel) {
    !(q <= p) && !(p <= q)
  }

  /** Does setting these leave what an attempt at writing p makes at q as it is? */
  predicate SetsNothing(q: Rel, p: Rel, mode: Option<nat>, modified: Option<int>) {
    var node := if q == p then NEW_FILE else NEW_DIRECTORY;
    (mode.Some? ==> mode.value == node.mode) && (modified.Some? ==> modified.value == node.modified)
  }

  /** May this request of another client come between the attempts at writing p?  `stays`: p is
      there from the start, and nothing at or above it is removed. */
  predicate Beside(a: Action, p: Rel, stays: bool) {
    match a
    case Stream(q, _, _) => stays || q == p || q == [] || Apart(q, p)
    case Mutate(Truncate(q, _)) => stays || q == p || q == [] || Apart(q, p)
    case Mutate(MakeSymlink(q, _)) => stays || q == p || q == [] || Apart(q, p)
    case Mutate(SetMetadata(q, mode, modified)) => stays || !(q <= p) || q == [] || SetsNothing(q, p, mode, modified)
    case Mutate(Mkdir(q)) => stays || !(p <= q)
    case Mutate(Remove(q, _)) => !stays || !(q <= p)
    case Mutate(Rename(from, to)) =>
      (stays || !(p < to)) && (!Apart(from, to) || (!(from <= p) && (stays || !(to <= p))))
  }

  ghost predicate Pair(t: Tree, u: Tree, p: Rel, stays: bool, offset: nat, len: nat) {
    Alike(t, u, p, offset, len) && (stays ==> p in u)
  }

  /** Apart from p itself a path is in both trees or in none. */
  lemma InBoth(t: Tree, u: Tree, q: Rel, p: Rel, stays: bool, offset: nat, len: nat)
    requires Pair(t, u, p, stays, offset, len) && (stays || !(q < p)) && q != []
    ensures q != p ==> (q in t <==> q in u) && (q in t ==> t[q] == u[q])
    ensures q == p && q in t && q in u ==> Like(t[q], u[q], offset, len)
    ensures q == p && q in t && q !in u ==> !stays && t[q].Regular? && Like(t[q], NEW_FILE, offset, len)
    ensures q in u ==> q in t && t[q].Directory? == u[q].Directory? && t[q].Symlink? == u[q].Symlink?
  {
    assert AlikeAt(t, u, q, p, offset, len);
    if q < p && stays {
      AboveIsThere(u, q, p);
    }
  }

  lemma AlikeAbove(t: Tree, u: Tree, q: Rel, p: Rel, stays: bool, offset: nat, len: nat)
    requires Pair(t, u, p, stays, offset, len) && (q == p || q == [] || stays || !(p <= q))
    ensures MakeDirs(t, Parent(q)).ok == MakeDirs(u, Parent(q)).ok
    ensures Pair(MakeDirs(t, Parent(q)).tree, MakeDirs(u, Parent(q)).tree, p, stays, offset, len)
    ensures var ok := MakeDirs(t, Parent(q)).ok; ok ==>
      IsDirectory(MakeDirs(t, Parent(q)).tree, Parent(q)) && IsDirectory(MakeDirs(u, Parent(q)).tree, Parent(q))
  {
    if q != [] {
      ParentOf(q, p);
      assert q == p ==> !(p <= Parent(q));
    }
    AlikeMakeDirs(t, u, Parent(q), p, offset, len);
    MakeDirsTwice(t, Parent(q));
    MakeDirsTwice(u, Parent(q));
    assert Parent(q)[..|Parent(q)|] == Parent(q);
  }

  lemma AlikeOpen(t: Tree, u: Tree, q: Rel, p: Rel, stays: bool, offset: nat, len: nat)
    requires Pair(t, u, p, stays, offset, len) && (q == p || q == [] || stays || Apart(q, p))
    ensures OpenFile(t, q).ok == OpenFile(u, q).ok
    ensures Pair(OpenFile(t, q).tree, OpenFile(u, q).tree, p, stays, offset, len)
    ensures var x, y := OpenFile(t, q).tree, OpenFile(u, q).tree; OpenFile(t, q).ok ==>
      && q != [] && q in x && q in y && x[q].Regular? && y[q].Regular? &&
        (x[q] == y[q] || (q == p && Like(x[q], y[q], offset, len)))
      && IsDirectory(x, Parent(q)) && IsDirectory(y, Parent(q))
  {
    AlikeAbove(t, u, q, p, stays, offset, len);
    var a, b := MakeDirs(t, Parent(q)).tree, MakeDirs(u, Parent(q)).tree;
    hide MakeDirs, Rooted, AlikeAt, AgreeOutside;
    if q != [] && MakeDirs(t, Parent(q)).ok {
      InBoth(a, b, q, p, stays, offset, len);
      if OpenFile(t, q).ok {
        AlikePut(a, b, q, if q in a then a[q] else NEW_FILE, if q in b then b[q] else NEW_FILE, p, offset, len);
      }
    }
  }

  /** Both files are edited in the same way. */
  lemma AlikeEdit(t: Tree, u: Tree, q: Rel, p: Rel, stays: bool, offset: nat, len: nat, at: nat, d: File, size: nat)
    requires Pair(t, u, p, stays, offset, len) && q != [] && q in t && q in u && t[q].Regular? && u[q].Regular?
    requires IsDirectory(t, Parent(q)) && IsDirectory(u, Parent(q))
    requires t[q] == u[q] || (q == p && Like(t[q], u[q], offset, len))
    ensures Pair(t[q := t[q].(data := WriteAt(t[q].data, at, d))], u[q := u[q].(data := WriteAt(u[q].data, at, d))], p,
      stays, offset, len)
    ensures Pair(t[q := t[q].(data := Resize(t[q].data, size))], u[q := u[q].(data := Resize(u[q].data, size))], p,
      stays, offset, len)
  {
    if t[q] != u[q] {
      EditAgrees(t[q].data, u[q].data, offset, len, at, d, size);
    }
    hide Alike, WriteAt, Resize, AgreeOutside;
    AlikePut(t, u, q, t[q].(data := WriteAt(t[q].data, at, d)), u[q].(data := WriteAt(u[q].data, at, d)), p, offset,
      len);
    AlikePut(t, u, q, t[q].(data := Resize(t[q].data, size)), u[q].(data := Resize(u[q].data, size)), p, offset, len);
  }

  lemma AlikeMetadata(t: Tree, u: Tree, op: Op, p: Rel, stays: bool, offset: nat, len: nat)
    requires Pair(t, u, p, stays, offset, len) && op.SetMetadata? && Beside(Mutate(op), p, stays)
    ensures Pair(Perform(t, op).tree, Perform(u, op).tree, p, stays, offset, len)
  {
    var q := op.path;
    assert q in t ==> q != [] && IsDirectory(t, Parent(q));
    assert q in u ==> q != [] && IsDirectory(u, Parent(q));
    assert AlikeAt(t, u, q, p, offset, len);
    if stays && q <= p && q != [] {
      AboveIsThere(u, q, p);
    }
    hide Rooted, AgreeOutside;
    if q in u && !u[q].Symlink? {
      AlikePut(t, u, q, Perform(t, op).tree[q], Perform(u, op).tree[q], p, offset, len);
    } else if q in t && q !in u {
      assert Perform(t, op).tree == t[q := t[q]] == t;
    }
  }

  lemma AlikeSymlink(t: Tree, u: Tree, q: Rel, target: string, p: Rel, stays: bool, offset: nat, len: nat)
    requires Pair(t, u, p, stays, offset, len) && (q == p || q == [] || stays || Apart(q, p))
    ensures Pair(Perform(t, MakeSymlink(q, target)).tree, Perform(u, MakeSymlink(q, target)).tree, p, stays, offset,
      len)
  {
    AlikeAbove(t, u, q, p, stays, offset, len);
    var a, b := MakeDirs(t, Parent(q)).tree, MakeDirs(u, Parent(q)).tree;
    hide MakeDirs, Rooted, AlikeAt, AgreeOutside;
    if q != [] && MakeDirs(t, Parent(q)).ok {
      InBoth(a, b, q, p, stays, offset, len);
      if !(q in a && a[q].Directory?) {
        AlikePut(a, b, q, Symlink(target), Symlink(target), p, offset, len);
      }
    }
  }

  lemma AlikeRemove(t: Tree, u: Tree, q: Rel, dir: bool, p: Rel, stays: bool, offset: nat, len: nat)
    requires Pair(t, u, p, stays, offset, len) && (!stays || !(q <= p))
    ensures Pair(Perform(t, Remove(q, dir)).tree, Perform(u, Remove(q, dir)).tree, p, stays, offset, len)
  {
    var x, y := Perform(t, Remove(q, dir)).tree, Perform(u, Remove(q, dir)).tree;
    PerformRooted(t, Remove(q, dir));
    PerformRooted(u, Remove(q, dir));
    assert AlikeAt(t, u, q, p, offset, len);
    forall k: Rel
      ensures AlikeAt(x, y, k, p, offset, len)
    {
      assert AlikeAt(t, u, k, p, offset, len);
      if q <= k && k in u && q != [] {
        AboveIsThere(u, q, k);
      }
    }
  }

  lemma AlikeRename(t: Tree, u: Tree, from: Rel, to: Rel, p: Rel, stays: bool, offset: nat, len: nat)
    requires Pair(t, u, p, stays, offset, len) && Beside(Mutate(Rename(from, to)), p, stays)
    ensures Pair(Perform(t, Rename(from, to)).tree, Perform(u, Rename(from, to)).tree, p, stays, offset, len)
  {
    AlikeAbove(t, u, to, p, stays, offset, len);
    var a, b := MakeDirs(t, Parent(to)), MakeDirs(u, Parent(to));
    PerformRooted(t, Rename(from, to));
    PerformRooted(u, Rename(from, to));
    assert AlikeAt(a.tree, b.tree, from, p, offset, len);
    hide MakeDirs, Rooted, AlikeAt;
    if Apart(from, to) && a.ok && from in a.tree {
      hide OsRename;
      AlikeOsRename(a.tree, b.tree, from, to, p, stays, offset, len);
    }
  }

  lemma AlikeOsRename(t: Tree, u: Tree, from: Rel, to: Rel, p: Rel, stays: bool, offset: nat, len: nat)
    requires Pair(t, u, p, stays, offset, len) && from in t && from in u && t[from] == u[from]
    requires !(from <= p) && (stays || Apart(to, p))
    requires Rooted(OsRename(t, from, to).tree) && Rooted(OsRename(u, from, to).tree)
    ensures Pair(OsRename(t, from, to).tree, OsRename(u, from, to).tree, p, stays, offset, len)
  {
    hide Rooted, AlikeAt, Move;
    if !(from <= to) && !(to <= from) {
      SameTarget(t, u, to, p, stays, offset, len);
      hide HasChild;
      if OsRename(t, from, to).ok {
        AlikeMove(t, u, from, to, p, stays, offset, len);
      }
    }
  }

  /** A rename finds the same at its target. */
  lemma SameTarget(t: Tree, u: Tree, to: Rel, p: Rel, stays: bool, offset: nat, len: nat)
    requires Pair(t, u, p, stays, offset, len) && (stays || Apart(to, p)) && to != []
    ensures to in t <==> to in u
    ensures to in t ==> t[to].Directory? == u[to].Directory?
    ensures HasChild(t, to) <==> HasChild(u, to)
    ensures stays && to < p ==> HasChild(t, to) && to in t
  {
    InBoth(t, u, to, p, stays, offset, len);
    forall k: Rel | to < k
      ensures k in t <==> k in u
    {
      InBoth(t, u, k, p, stays, offset, len);
    }
    if stays && to < p {
      AboveIsThere(u, to, p);
    }
  }

  lemma AlikeMove(t: Tree, u: Tree, from: Rel, to: Rel, p: Rel, stays: bool, offset: nat, len: nat)
    requires Pair(t, u, p, stays, offset, len) && !(from <= p) && !(from <= to) && !(to <= from) && from in u
    requires Rooted(Move(t, from, to)) && Rooted(Move(u, from, to)) && (stays ==> !(to < p))
    ensures Pair(Move(t, from, to), Move(u, from, to), p, stays, offset, len)
  {
    MoveExact(t, from, to);
    MoveExact(u, from, to);
    RelabelBack(from, to);
    RelabelBack(to, from);
    var x, y := Move(t, from, to), Move(u, from, to);
    hide Move, Rooted, AlikeAt, Relabel;
    forall k: Rel
      ensures AlikeAt(x, y, k, p, offset, len)
    {
      assert AlikeAt(t, u, k, p, offset, len);
      if to <= k {
        var o := Relabel(to, from, k);
        assert from <= o && !(o <= p) && Relabel(from, to, o) == k;
        assert AlikeAt(t, u, o, p, offset, len);
        MovedAlike(t, u, x, y, o, k, p, offset, len);
      } else {
        KeptAlike(t, u, x, y, k, p, offset, len);
      }
    }
    assert from <= from && Relabel(from, to, from) == to && to in y by {
      RelabelRoot(from, to);
    }
    if stays {
      assert p == to || p in y;
    }
  }

  lemma RelabelRoot(from: Rel, to: Rel)
    ensures Relabel(from, to, from) == to
  {
  }

  lemma MovedAlike(t: Tree, u: Tree, x: Tree, y: Tree, o: Rel, k: Rel, p: Rel, offset: nat, len: nat)
    requires AlikeAt(t, u, o, p, offset, len) && !(o <= p)
    requires (k in x <==> o in t) && (o in t ==> x[k] == t[o])
    requires (k in y <==> o in u) && (o in u ==> y[k] == u[o])
    ensures AlikeAt(x, y, k, p, offset, len)
  {
  }

  lemma KeptAlike(t: Tree, u: Tree, x: Tree, y: Tree, k: Rel, p: Rel, offset: nat, len: nat)
    requires AlikeAt(t, u, k, p, offset, len)
    requires (k in x && k in y && k in t && k in u && x[k] == t[k] && y[k] == u[k]) ||
      (k !in y && (k in x ==> k !in u && k in t && x[k] == t[k]))
    ensures AlikeAt(x, y, k, p, offset, len)
  {
  }

  /** Another client's request keeps the trees alike. */
  lemma AlikeForeign(t: Tree, u: Tree, e: Entry, p: Rel, stays: bool, offset: nat, len: nat)
    requires Pair(t, u, p, stays, offset, len) && Beside(e.action, p, stays)
    ensures Pair(Effect(t, e), Effect(u, e), p, stays, offset, len)
  {
    hide Alike, Rooted, MakeDirs, Like, OpenFile;
    match e.action
    case Stream(q, at, _) =>
      AlikeOpen(t, u, q, p, stays, offset, len);
      if OpenFile(t, q).ok {
        AlikeEdit(OpenFile(t, q).tree, OpenFile(u, q).tree, q, p, stays, offset, len, at, e.bytes, 0);
      }
    case Mutate(op) =>
      match op {
        case Truncate(q, size) =>
          AlikeOpen(t, u, q, p, stays, offset, len);
          if OpenFile(t, q).ok {
            AlikeEdit(OpenFile(t, q).tree, OpenFile(u, q).tree, q, p, stays, offset, len, 0, [], size);
          }
        case SetMetadata(_, _, _) => AlikeMetadata(t, u, op, p, stays, offset, len);
        case Mkdir(q) => AlikeMakeDirs(t, u, q, p, offset, len);
        case MakeSymlink(q, target) => AlikeSymlink(t, u, q, target, p, stays, offset, len);
        case Rename(from, to) => AlikeRename(t, u, from, to, p, stays, offset, len);
        case Remove(q, dir) => AlikeRemove(t, u, q, dir, p, stays, offset, len);
      }
  }

  // ------------------------------------------------------------------ the operation's own attempts

  /** What a cut attempt does to the tree if it can open the file. */
  lemma CutEffect(t: Tree, e: Entry, p: Rel, offset: nat, data: File)
    requires Rooted(t) && Attempts(e, Write(p, offset, data)) && OpenFile(t, p).ok
    ensures p != [] && p in Effect(t, e) && (p in t ==> t[p].Regular?)
    ensures var n := if p in t then t[p] else NEW_FILE; Effect(t, e)[p] == n.(data := WriteAt(n.data, offset, e.bytes))
    ensures forall k: Rel :: k != p ==> (k in Effect(t, e) <==> k in t || (k < p && k != []))
    ensures forall k <- Effect(t, e) :: k != p ==> Effect(t, e)[k] == if k in t then t[k] else NEW_DIRECTORY
  {
    MakeDirsIs(t, Parent(p));
    PrefixOfParent(p, p);
    var x := Effect(t, e);
    hide MakeDirs, Rooted, WriteAt;
    forall k: Rel
      ensures k != p ==> (k in x <==> k in t || (k < p && k != []))
    {
      PrefixOfParent(k, p);
    }
  }

  lemma AlikeCut(t: Tree, u: Tree, e: Entry, p: Rel, stays: bool, offset: nat, data: File)
    requires Pair(t, u, p, stays, offset, |data|) && Attempts(e, Write(p, offset, data))
    ensures Pair(Effect(t, e), u, p, stays, offset, |data|)
  {
    var x := Effect(t, e);
    OpenRooted(t, p);
    EffectRooted(t, e);
    if OpenFile(t, p).ok {
      CutEffect(t, e, p, offset, data);
      CutItself(t, u, e, p, offset, data);
      hide OpenFile, Rooted, Like, WriteAt, Effect;
      forall k: Rel
        ensures AlikeAt(x, u, k, p, offset, |data|)
      {
        assert AlikeAt(t, u, k, p, offset, |data|);
      }
    }
  }

  lemma CutItself(t: Tree, u: Tree, e: Entry, p: Rel, offset: nat, data: File)
    requires AlikeAt(t, u, p, p, offset, |data|) && Attempts(e, Write(p, offset, data)) && (p in t ==> t[p].Regular?)
    requires p in Effect(t, e)
    requires var n := if p in t then t[p] else NEW_FILE; Effect(t, e)[p] == n.(data := WriteAt(n.data, offset, e.bytes))
    ensures AlikeAt(Effect(t, e), u, p, p, offset, |data|)
  {
    hide WriteAt, AgreeOutside, Effect;
    var f, g := if p in t then t[p].data else [], if p in u then u[p].data else [];
    AgreesWithItself(f, offset, |data|);
    CutAgrees(f, g, offset, data, e.bytes);
  }

  lemma AgreesWithItself(f: File, offset: nat, len: nat)
    ensures AgreeOutside(f, f, offset, len)
  {
  }

  /** The attempt that goes through leaves nothing of the others. */
  lemma AlikeWhole(t: Tree, u: Tree, e: Entry, p: Rel, stays: bool, offset: nat, data: File)
    requires Pair(t, u, p, stays, offset, |data|) && Attempts(e, Write(p, offset, data)) && e.complete &&
      OpenFile(t, p).ok
    ensures Effect(t, e) == Effect(u, e)
  {
    AlikeOpen(t, u, p, p, stays, offset, |data|);
    var x, y := OpenFile(t, p).tree, OpenFile(u, p).tree;
    if x[p] != y[p] {
      FullAgrees(x[p].data, y[p].data, offset, data);
    }
    SameButFor(x, y, p, offset, |data|);
    hide OpenFile, Alike, AgreeOutside, WriteAt;
    var d := WriteAt(x[p].data, offset, data);
    assert x[p := x[p].(data := d)] == y[p := y[p].(data := d)];
  }

  /** Where p is in both trees nothing but p can differ. */
  lemma SameButFor(x: Tree, y: Tree, p: Rel, offset: nat, len: nat)
    requires Alike(x, y, p, offset, len) && p in x && p in y
    ensures forall k: Rel :: k != p ==> (k in x <==> k in y) && (k in x ==> x[k] == y[k])
  {
    hide Rooted, Like;
    forall k: Rel
      ensures k != p ==> (k in x <==> k in y) && (k in x ==> x[k] == y[k])
    {
      assert AlikeAt(x, y, k, p, offset, len);
      if k < p && k in x {
        ListedBelow(x, k);
        AboveIsThere(y, k, p);
      }
    }
  }

  lemma ListedBelow(t: Tree, k: Rel)
    requires Rooted(t) && k in t
    ensures k != []
  {
  }

  /** However a write's streams were cut, and whatever other clients did beside it meanwhile: once
      the operation is complete, the tree is as if it had been performed once, in one piece, where
      it was completed.  Before, it differs only by what cut attempts add: part of the range, the
      file, directories above it. */
  lemma {:induction false} RetriedWriteIsOneWrite(t: Tree, log: seq<Entry>, id: OpId, p: Rel, offset: nat, data: File,
      stays: bool)
    requires Rooted(t) && (stays ==> p in t)
    requires Truthful(t, log) && OnceOnly(log) && Sends(log, id, Write(p, offset, data))
    requires forall e <- log | e.id != id :: Beside(e.action, p, stays)
    ensures id in Completed(log) ==> Play(t, log) == Play(t, OnceInEffect(log, id))
    ensures id !in Completed(log) ==> Pair(Play(t, log), Play(t, OnceInEffect(log, id)), p, stays, offset, |data|)
  {
    hide Effect, Completed, OnceOnly, AlikeAt, Rooted, Beside;
    if log == [] {
      AlikeFirst(t, p, stays, offset, |data|);
    } else {
      var init, e := log[..|log| - 1], log[|log| - 1];
      assert e in log;
      CompletedLast(log, id);
      RetriedWriteIsOneWrite(t, init, id, p, offset, data, stays);
      var a, b := Play(t, init), Play(t, OnceInEffect(init, id));
      PlaySnoc(t, OnceInEffect(init, id), e);
      hide Alike;
      if e.id == id {
        if e.complete {
          AlikeWhole(a, b, e, p, stays, offset, data);
        } else {
          AlikeCut(a, b, e, p, stays, offset, data);
        }
      } else if id !in Completed(init) {
        AlikeForeign(a, b, e, p, stays, offset, |data|);
      }
    }
  }

  lemma AlikeFirst(t: Tree, p: Rel, stays: bool, offset: nat, len: nat)
    requires Rooted(t) && (stays ==> p in t)
    ensures Pair(t, t, p, stays, offset, len) && Completed([]) == {}
  {
  }

  lemma PlayThree(t: Tree, a: Entry, b: Entry, c: Entry)
    ensures Play(t, [a, b, c]) == Effect(Effect(Effect(t, a), b), c)
    ensures Truthful(t, [a, b, c]) <==> Honest(t, a) && Honest(Effect(t, a), b) && Honest(Effect(Effect(t, a), b), c)
  {
    PlaySnoc(t, [], a);
    PlaySnoc(t, [a], b);
    PlaySnoc(t, [a, b], c);
    assert [] + [a] == [a] && [a] + [b] == [a, b] && [a, b] + [c] == [a, b, c];
    hide Effect, Honest;
  }

  lemma AtTop(t: Tree, p: Rel, bytes: File)
    requires |p| == 1 && (p in t ==> t[p].Regular?)
    ensures OpenFile(t, p) == Outcome(t[p := if p in t then t[p] else NEW_FILE], true)
    ensures WriteFile(OpenFile(t, p).tree, p, 0, bytes)
      == t[p := if p in t then t[p].(data := WriteAt(t[p].data, 0, bytes))
      else NEW_FILE.(data := WriteAt([], 0, bytes))]
  {
    assert Parent(p) == [];
  }

  lemma RenameAtTop(p: Rel, q: Rel, node: Node)
    requires |p| == |q| == 1 && p != q
    ensures Perform(map[p := node], Rename(p, q)) == Outcome(map[q := node], true)
    ensures Perform(map[], Rename(p, q)) == Outcome(map[], true)
  {
    var t: Tree := map[p := node];
    assert Parent(q) == [] && !(p <= q) && !(q <= p);
    MoveExact(t, p, q);
    assert q[|q|..] == [] && p[|p|..] == [] && q + [] == q;
    assert Relabel(p, q, p) == q;
    var u := Move(t, p, q);
    forall k <- u
      ensures k == q
    {
      assert q <= k && Relabel(q, p, k) == p;
      assert k[|q|..] == [];
      assert k == q + k[|q|..];
    }
    assert u == map[q := node];
  }

  /** A rename of the file between two attempts is not beside the write: it carries off what the
      cut attempt wrote, which no single performance would have left. */
  lemma RenamedAwayLeavesPart() returns (log: seq<Entry>, id: OpId, p: Rel, data: File, q: Rel)
    ensures Truthful(map[], log) && OnceOnly(log) && Sends(log, id, Write(p, 0, data)) && id in Completed(log)
    ensures q in Play(map[], log) && q !in Play(map[], OnceInEffect(log, id))
  {
    id, p, q, data := (1, 1), ["a"], ["b"], [1, 2];
    var cut, away, whole := Entry(id, Stream(p, 0, 2), [1], false), Entry((2, 1), Mutate(Rename(p, q)), [], true),
      Entry(id, Stream(p, 0, 2), data, true);
    log := [cut, away, whole];
    var part := NEW_FILE.(data := WriteAt([], 0, [1]));
    AtTop(map[], p, [1]);
    RenameAtTop(p, q, part);
    AtTop(map[q := part], p, data);
    AtTop(map[], p, data);
    PlayThree(map[], cut, away, whole);
    OnceOfThree(cut, away, whole);
    PlaySnoc(map[], [], away);
    PlaySnoc(map[], [away], whole);
    assert whole in log;
    hide OpenFile, Perform, WriteFile;
  }

  lemma OnceOfThree(cut: Entry, away: Entry, whole: Entry)
    requires cut.id == whole.id != away.id && !cut.complete && whole.complete
    ensures OnceInEffect([cut, away, whole], whole.id) == ([] + [away]) + [whole]
    ensures OnceOnly([cut, away, whole])
    ensures [away] == [] + [away]
  {
    assert [cut, away, whole][..2] == [cut, away] && [cut, away][..1] == [cut] && [cut][..0] == [];
    assert OnceInEffect([cut], whole.id) == [];
    assert OnceInEffect([cut, away], whole.id) == [] + [away];
  }
}
