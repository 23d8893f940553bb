/** The served tree and the daemon's mutating requests.  A path is the list of its names;
    symbolic links are leaves and are not followed. */
module Trees {
  import opened Bytes
  import opened Wrappers

  type Rel = seq<string>

  datatype Node =
    | Regular(data: File, mode: nat, modified: int)
    | Directory(mode: nat, modified: int)
    | Symlink(target: string)

  type Tree = map<Rel, Node>

  /** What a request leaves, and whether the daemon answers Ok. */
  datatype Outcome = Outcome(tree: Tree, ok: bool)

  datatype Op =
    | Truncate(path: Rel, size: nat)
    | SetMetadata(path: Rel, mode: Option<nat>, modified: Option<int>)
    | Mkdir(path: Rel)
    | MakeSymlink(path: Rel, target: string)
    | Rename(from: Rel, to: Rel)
    | Remove(path: Rel, dir: bool)

  const NEW_FILE: Node := Regular([], 0x1A4, 0)
  const NEW_DIRECTORY: Node := Directory(0x1ED, 0)

  function Parent(p: Rel): Rel {
    if p == [] then [] else p[..|p| - 1]
  }

  predicate IsDirectory(t: Tree, p: Rel) {
    p == [] || (p in t && t[p].Directory?)
  }

  /** Are the path and everything above it directories? */
  predicate DirectoryChain(t: Tree, p: Rel) {
    forall i: nat :: i <= |p| ==> IsDirectory(t, p[..i])
  }

  /** `create_dir_all`. */
  function MakeDirs(t: Tree, p: Rel): Outcome
    decreases |p|
  {
    if p == [] then
      Outcome(t, true)
    else
      var above := MakeDirs(t, Parent(p));
      if !above.ok || (p in above.tree && !above.tree[p].Directory?) then
        Outcome(above.tree, false)
      else if p in above.tree then
        above
      else
        Outcome(above.tree[p := NEW_DIRECTORY], true)
  }

  /** `set_len`: cuts the file or extends it with zeros. */
  function Resize(f: File, size: nat): File {
    if size <= |f| then f[..size] else f + seq(size - |f|, _ => 0)
  }

  /** Opens a file for writing, creating it and the directories above it. */
  function OpenFile(t: Tree, p: Rel): Outcome {
    var above := MakeDirs(t, Parent(p));
    if !above.ok || p == [] || (p in above.tree && !above.tree[p].Regular?) then
      Outcome(above.tree, false)
    else
      Outcome(above.tree[p := if p in above.tree then above.tree[p] else NEW_FILE], true)
  }

  predicate HasChild(t: Tree, p: Rel) {
    exists q <- t :: p < q
  }

  function Relabel(from: Rel, to: Rel, q: Rel): Rel {
    if from <= q then to + q[|from|..] else q
  }

  /** Relabelling is undone by relabelling back. */
  lemma RelabelBack(from: Rel, to: Rel)
    ensures forall k: Rel | from <= k :: to <= Relabel(from, to, k) && Relabel(to, from, Relabel(from, to, k)) == k
  {
    forall k: Rel | from <= k
      ensures Relabel(to, from, Relabel(from, to, k)) == k
    {
      var q := Relabel(from, to, k);
      assert q[|to|..] == k[|from|..];
      assert from + k[|from|..] == k;
    }
  }

  /** Relabels the subtree at `from`; what was at or below `to` is replaced. */
  function Move(t: Tree, from: Rel, to: Rel): Tree
    requires !(from <= to) && !(to <= from)
  {
    RelabelBack(from, to);
    map q | q in (set k <- t | !(from <= k) && !(to <= k)) + (set k <- t | from <= k :: Relabel(from, to, k)) ::
      if to <= q then t[Relabel(to, from, q)] else t[q]
  }

  /** The operating system's rename of something that exists. */
  function OsRename(t: Tree, from: Rel, to: Rel): Outcome
    requires from in t
  {
    if from == to then
      Outcome(t, true)
    else if from <= to || to <= from then
      Outcome(t, false)
    else if to in t && (t[from].Directory? != t[to].Directory? || HasChild(t, to)) then
      Outcome(t, false)
    else
      Outcome(Move(t, from, to), true)
  }

  function Without(t: Tree, p: Rel): Tree {
    map q <- t | !(p <= q) :: t[q]
  }

  /** The mutating arms of the request handler. */
  function Perform(t: Tree, op: Op): Outcome {
    match op
    case Truncate(p, size) =>
      var file := OpenFile(t, p);
      if !file.ok then file else Outcome(file.tree[p := file.tree[p].(data := Resize(file.tree[p].data, size))], true)
    case SetMetadata(p, mode, modified) =>
      if p !in t || t[p].Symlink? then
        Outcome(t, false)
      else
        var node := if mode.Some? then t[p].(mode := mode.value) else t[p];
        Outcome(t[p := if modified.Some? then node.(modified := modified.value) else node], true)
    case Mkdir(p) => MakeDirs(t, p)
    case MakeSymlink(p, target) =>
      var above := MakeDirs(t, Parent(p));
      if !above.ok || p == [] || (p in above.tree && above.tree[p].Directory?) then
        Outcome(above.tree, false)
      else
        Outcome(above.tree[p := Symlink(target)], true)
    case Rename(from, to) =>
      var above := MakeDirs(t, Parent(to));
      if !above.ok || from !in above.tree then above else OsRename(above.tree, from, to)
    case Remove(p, dir) =>
      if p !in t then
        Outcome(t, true)
      else if t[p].Directory? then
        (if dir then Outcome(Without(t, p), true) else Outcome(t, false))
      else
        Outcome(t - {p}, true)
  }

  // ------------------------------------------------------------------ doing it twice

  /** After `create_dir_all`, successful or not, doing it again changes nothing. */
  lemma {:induction false} MakeDirsTwice(t: Tree, p: Rel)
    ensures MakeDirs(MakeDirs(t, p).tree, p) == MakeDirs(t, p)
    ensures MakeDirs(t, p).ok ==> DirectoryChain(MakeDirs(t, p).tree, p)
    ensures forall q <- t :: q in MakeDirs(t, p).tree && MakeDirs(t, p).tree[q] == t[q]
    ensures forall q <- MakeDirs(t, p).tree :: q in t || q <= p
    decreases |p|
  {
    if p != [] {
      var above := MakeDirs(t, Parent(p));
      var made := MakeDirs(t, p);
      MakeDirsTwice(t, Parent(p));
      if above.ok {
        forall i: nat | i < |p|
          ensures IsDirectory(made.tree, p[..i])
        {
          assert p[..i] == Parent(p)[..i];
        }
        MakeDirsNoop(made.tree, Parent(p));
        assert p[..|p|] == p;
      }
      forall q <- made.tree | q !in t
        ensures q <= p
      {
        assert q <= Parent(p) || q == p;
      }
    }
  }

  lemma {:induction false} MakeDirsNoop(t: Tree, p: Rel)
    requires DirectoryChain(t, p)
    ensures MakeDirs(t, p) == Outcome(t, true)
    decreases |p|
  {
    if p != [] {
      forall i: nat | i <= |Parent(p)|
        ensures IsDirectory(t, Parent(p)[..i])
      {
        assert p[..i] == Parent(p)[..i];
      }
      MakeDirsNoop(t, Parent(p));
      assert p[..|p|] == p;
    }
  }

  /** Directory chains survive changes that keep the directories above the path. */
  lemma ChainKept(t: Tree, u: Tree, p: Rel)
    requires DirectoryChain(t, p)
    requires forall q <- t :: q <= p && t[q].Directory? ==> q in u && u[q].Directory?
    ensures DirectoryChain(u, p)
  {
    forall i: nat | i <= |p|
      ensures IsDirectory(u, p[..i])
    {
      assert IsDirectory(t, p[..i]) && p[..i] <= p;
    }
  }

  /** Every mutating request is idempotent, successful or rejected: a second application in a
      row changes nothing and is answered the same way. */
  lemma Idempotent(t: Tree, op: Op)
    ensures Perform(Perform(t, op).tree, op) == Perform(t, op)
  {
    match op
    case Truncate(p, size) => TruncateTwice(t, p, size);
    case SetMetadata(p, mode, modified) =>
    case Mkdir(p) => MakeDirsTwice(t, p);
    case MakeSymlink(p, target) => SymlinkTwice(t, p, target);
    case Rename(from, to) => RenameTwice(t, from, to);
    case Remove(p, dir) =>
  }

  lemma TruncateTwice(t: Tree, p: Rel, size: nat)
    ensures Perform(Perform(t, Truncate(p, size)).tree, Truncate(p, size)) == Perform(t, Truncate(p, size))
  {
    var above := MakeDirs(t, Parent(p));
    var u := Perform(t, Truncate(p, size)).tree;
    MakeDirsTwice(t, Parent(p));
    if above.ok && p != [] {
      ChainKept(above.tree, u, Parent(p));
      MakeDirsNoop(u, Parent(p));
      if p in u && u[p].Regular? {
        assert Resize(u[p].data, size) == u[p].data;
      }
    }
  }

  lemma SymlinkTwice(t: Tree, p: Rel, target: string)
    ensures Perform(Perform(t, MakeSymlink(p, target)).tree, MakeSymlink(p, target))
      == Perform(t, MakeSymlink(p, target))
  {
    var above := MakeDirs(t, Parent(p));
    var u := Perform(t, MakeSymlink(p, target)).tree;
    MakeDirsTwice(t, Parent(p));
    if above.ok && p != [] {
      ChainKept(above.tree, u, Parent(p));
      MakeDirsNoop(u, Parent(p));
    }
  }

  lemma RenameTwice(t: Tree, from: Rel, to: Rel)
    ensures Perform(Perform(t, Rename(from, to)).tree, Rename(from, to)) == Perform(t, Rename(from, to))
  {
    var above := MakeDirs(t, Parent(to));
    MakeDirsTwice(t, Parent(to));
    if above.ok && from in above.tree && from != to && OsRename(above.tree, from, to).ok {
      var u := Move(above.tree, from, to);
      ChainKept(above.tree, u, Parent(to));
      MakeDirsNoop(u, Parent(to));
    }
  }

  // ------------------------------------------------------------------ what requests achieve

  /** A successful rename of something that exists moves its whole subtree, leaves nothing behind,
      and touches nothing outside the two paths but the directories it makes above the target. */
  lemma RenameMoves(t: Tree, from: Rel, to: Rel)
    requires from in t && from != to && Perform(t, Rename(from, to)).ok
    ensures var u := Perform(t, Rename(from, to)).tree;
      && (forall k <- t | from <= k :: Relabel(from, to, k) in u && u[Relabel(from, to, k)] == t[k])
      && (forall k <- t | !(from <= k) && !(to <= k) :: k in u && u[k] == t[k])
      && (forall k <- u :: !(from <= k) && (to <= k || k in t || k <= Parent(to)))
      && (forall k <- u | to <= k :: from <= Relabel(to, from, k) && Relabel(to, from, k) in t)
  {
    MakeDirsTwice(t, Parent(to));
    MoveExact(MakeDirs(t, Parent(to)).tree, from, to);
    hide Move, Relabel;
  }

  lemma MoveExact(t: Tree, from: Rel, to: Rel)
    requires !(from <= to) && !(to <= from)
    ensures var u := Move(t, from, to);
      && (forall k <- t | from <= k :: Relabel(from, to, k) in u && u[Relabel(from, to, k)] == t[k])
      && (forall k <- t | !(from <= k) && !(to <= k) :: k in u && u[k] == t[k])
      && (forall k <- u :: !(from <= k) && (to <= k || k in t))
      && (forall k <- u | to <= k :: from <= Relabel(to, from, k) && Relabel(to, from, k) in t)
  {
    RelabelBack(from, to);
    RelabelBack(to, from);
  }

  /** A successful removal leaves nothing at the path, nor below a directory, and all the rest. */
  lemma RemoveRemoves(t: Tree, p: Rel, dir: bool)
    requires Perform(t, Remove(p, dir)).ok
    ensures var u := Perform(t, Remove(p, dir)).tree;
      && p !in u
      && (p in t && t[p].Directory? ==> dir && forall q <- u :: !(p <= q))
      && (forall q <- u :: q in t && u[q] == t[q])
      && (forall q <- t :: q in u || q == p || (t[p].Directory? && p <= q))
  {
  }

  /** The way to p is free if nothing on it is something else than a directory. */
  predicate WayFree(t: Tree, p: Rel) {
    p != [] && forall k <- t :: k < p && k != [] ==> t[k].Directory?
  }

  /** Does u have what t has except at p, and the directories above p with the mode of a new one? */
  ghost predicate OnlyAt(t: Tree, u: Tree, p: Rel) {
    && (forall k: Rel | k != p :: k in u <==> k in t || (k < p && k != []))
    && (forall k <- u | k != p :: u[k] == if k in t then t[k] else Directory(0x1ED, 0))
  }

  lemma OpenLeaves(t: Tree, p: Rel)
    ensures OpenFile(t, p).ok <==> WayFree(t, p) && (p in t ==> t[p].Regular?)
    ensures OpenFile(t, p).ok ==> OnlyAt(t, OpenFile(t, p).tree, p)
    ensures OpenFile(t, p).ok ==>
      p in OpenFile(t, p).tree && OpenFile(t, p).tree[p] == if p in t then t[p] else Regular([], 0x1A4, 0)
  {
    WayAbove(t, p);
    hide MakeDirs, WayFree;
  }

  lemma WayAbove(t: Tree, p: Rel)
    ensures WayFree(t, p) <==> p != [] && MakeDirs(t, Parent(p)).ok
    ensures WayFree(t, p) ==> OnlyAt(t, MakeDirs(t, Parent(p)).tree, p)
    ensures WayFree(t, p) ==> (p in MakeDirs(t, Parent(p)).tree <==> p in t)
    ensures WayFree(t, p) && p in t ==> MakeDirs(t, Parent(p)).tree[p] == t[p]
  {
    if p != [] {
      MakeDirsIs(t, Parent(p));
      var u := MakeDirs(t, Parent(p)).tree;
      hide MakeDirs;
      PrefixOfParent(p, p);
      forall k: Rel
        ensures k in u || k in t ==> (k <= Parent(p) <==> k < p)
      {
        PrefixOfParent(k, p);
      }
      if WayFree(t, p) {
        forall k: Rel | k != p
          ensures k in u <==> k in t || (k < p && k != [])
        {
          PrefixOfParent(k, p);
        }
      }
    }
  }

  /** Truncation succeeds exactly where the way is free and nothing but a file is there.  Then the
      file has the wanted length: its old bytes, and zeros behind them; its mode and time stay, or
      are those of a new file; nothing else changes but for directories made above it. */
  lemma TruncateLeaves(t: Tree, p: Rel, size: nat)
    ensures Perform(t, Truncate(p, size)).ok <==> WayFree(t, p) && (p in t ==> t[p].Regular?)
    ensures var u := Perform(t, Truncate(p, size)).tree; Perform(t, Truncate(p, size)).ok ==>
      && OnlyAt(t, u, p) && p in u && u[p].Regular? && |u[p].data| == size
      && (forall i: nat | i < size :: u[p].data[i] == if p in t && i < |t[p].data| then t[p].data[i] else 0)
      && u[p].mode == (if p in t then t[p].mode else 0x1A4)
      && u[p].modified == (if p in t then t[p].modified else 0)
  {
    OpenLeaves(t, p);
    hide OpenFile, WayFree;
  }

  /** A link replaces what is there unless it is a directory. */
  lemma SymlinkLeaves(t: Tree, p: Rel, target: string)
    ensures Perform(t, MakeSymlink(p, target)).ok <==> WayFree(t, p) && (p in t ==> !t[p].Directory?)
    ensures var u := Perform(t, MakeSymlink(p, target)).tree; Perform(t, MakeSymlink(p, target)).ok ==>
      OnlyAt(t, u, p) && p in u && u[p] == Symlink(target)
  {
    WayAbove(t, p);
    hide MakeDirs, WayFree;
  }

  /** Of a file or directory that is there just the given metadata change. */
  lemma MetadataLeaves(t: Tree, p: Rel, mode: Option<nat>, modified: Option<int>)
    ensures var r := Perform(t, SetMetadata(p, mode, modified)); r.ok <==> p in t && !t[p].Symlink?
    ensures var r := Perform(t, SetMetadata(p, mode, modified)); r.ok ==>
      && r.tree.Keys == t.Keys && (forall k <- t | k != p :: r.tree[k] == t[k])
      && r.tree[p].Directory? == t[p].Directory? && r.tree[p].Regular? == t[p].Regular?
      && r.tree[p].mode == (if mode.Some? then mode.value else t[p].mode)
      && r.tree[p].modified == (if modified.Some? then modified.value else t[p].modified)
      && (t[p].Regular? ==> r.tree[p].data == t[p].data)
  {
  }

  /** A directory is there afterwards, or something on the way is no directory. */
  lemma MkdirLeaves(t: Tree, p: Rel)
    ensures Perform(t, Mkdir(p)).ok <==> forall k <- t :: k <= p && k != [] ==> t[k].Directory?
    ensures var u := Perform(t, Mkdir(p)).tree; Perform(t, Mkdir(p)).ok ==>
      && (forall k: Rel :: k in u <==> k in t || (k <= p && k != []))
      && (forall k <- u :: u[k] == if k in t then t[k] else Directory(0x1ED, 0))
  {
    MakeDirsIs(t, p);
    hide MakeDirs;
  }

  /** Removing succeeds unless a directory is not named as one. */
  lemma RemoveSucceeds(t: Tree, p: Rel, dir: bool)
    ensures Perform(t, Remove(p, dir)).ok <==> !(p in t && t[p].Directory? && !dir)
    ensures p !in t ==> Perform(t, Remove(p, dir)) == Outcome(t, true)
  {
  }

  /** When a rename of something that is there succeeds: onto itself, or to a path that neither
      contains it nor lies in it, that can be reached, and where there is nothing, something that is no
      directory in place of the same, or an empty directory in place of a directory. */
  lemma RenameSucceeds(t: Tree, from: Rel, to: Rel)
    requires Rooted(t) && from in t && to != []
    ensures Perform(t, Rename(from, to)).ok <==>
      && (forall k <- t :: k < to && k != [] ==> t[k].Directory?)
      && (from == to
          || (!(from <= to) && !(to <= from)
              && (to in t ==> t[from].Directory? == t[to].Directory? && !exists q <- t :: to < q)))
    ensures from == to && Perform(t, Rename(from, to)).ok ==> Perform(t, Rename(from, to)).tree == t
  {
    WayAbove(t, to);
    var above := MakeDirs(t, Parent(to)).tree;
    if from == to {
      RootedChain(t, to);
      MakeDirsNoop(t, Parent(to));
    }
    hide MakeDirs, Move, Rooted;
    assert WayFree(t, to) ==> (HasChild(above, to) <==> HasChild(t, to)) by {
      forall q: Rel | to < q
        ensures WayFree(t, to) ==> (q in above <==> q in t)
      {
      }
    }
  }

  /** A rename of what is not there succeeds wherever the target can be reached, unless the target is
      below: the directory made there is then renamed into itself.  All that changes are the
      directories made above the target. */
  lemma RenameOfNothing(t: Tree, from: Rel, to: Rel)
    requires from !in t && from != [] && to != []
    ensures Perform(t, Rename(from, to)).ok <==>
      !(from < to) && forall k <- t :: k < to && k != [] ==> t[k].Directory?
    ensures var u := Perform(t, Rename(from, to)).tree; Perform(t, Rename(from, to)).ok ==>
      && (forall k: Rel :: k in u <==> k in t || (k < to && k != []))
      && (forall k <- u :: u[k] == if k in t then t[k] else Directory(0x1ED, 0))
  {
    WayAbove(t, to);
    hide MakeDirs, Move;
  }

  // ------------------------------------------------------------------ trees stay trees

  /** Is everything in a directory?  The root itself is not listed. */
  predicate Rooted(t: Tree) {
    forall k <- t :: k != [] && IsDirectory(t, Parent(k))
  }

  lemma {:induction false} RootedChain(t: Tree, p: Rel)
    requires Rooted(t) && (p == [] || p in t)
    ensures DirectoryChain(t, Parent(p))
    ensures IsDirectory(t, p) ==> DirectoryChain(t, p)
    decreases |p|
  {
    if p != [] {
      RootedChain(t, Parent(p));
      forall i: nat | i <= |p|
        ensures i < |p| ==> p[..i] == Parent(p)[..i]
      {
      }
      assert p[..|p|] == p;
    }
  }

  /** What `create_dir_all` does: it succeeds if and only if nothing on the way is something else
      than a directory, adds the missing directories, and in a tree changes nothing if it fails. */
  lemma {:induction false} MakeDirsIs(t: Tree, p: Rel)
    ensures MakeDirs(t, p).ok <==> forall k <- t :: k <= p && k != [] ==> t[k].Directory?
    ensures MakeDirs(t, p).ok ==> forall k: Rel :: k in MakeDirs(t, p).tree <==> k in t || (k <= p && k != [])
    ensures MakeDirs(t, p).ok ==> forall k <- MakeDirs(t, p).tree ::
      MakeDirs(t, p).tree[k] == if k in t then t[k] else NEW_DIRECTORY
    ensures Rooted(t) && !MakeDirs(t, p).ok ==> MakeDirs(t, p).tree == t
    decreases |p|
  {
    if p != [] {
      var above := MakeDirs(t, Parent(p));
      MakeDirsIs(t, Parent(p));
      forall k: Rel
        ensures k in t || k in above.tree ==> (k <= p <==> k <= Parent(p) || k == p)
      {
        PrefixOfParent(k, p);
      }
      PrefixOfParent(Parent(p), p);
      if above.ok {
        MadeDirs(t, p, above.tree);
        if Rooted(t) && !MakeDirs(t, p).ok {
          RootedChain(t, p);
          MakeDirsNoop(t, Parent(p));
        }
      }
    }
  }

  lemma MadeDirs(t: Tree, p: Rel, above: Tree)
    requires p != []
    requires forall k: Rel :: k in above <==> k in t || (k <= Parent(p) && k != [])
    ensures forall k: Rel :: k in above || k == p <==> k in t || (k <= p && k != [])
  {
    forall k: Rel
      ensures k in above || k == p <==> k in t || (k <= p && k != [])
    {
      PrefixOfParent(k, p);
    }
  }

  lemma PrefixOfParent(k: Rel, p: Rel)
    requires p != []
    ensures k <= p <==> k <= Parent(p) || k == p
  {
    if k <= p && k != p {
      assert k == p[..|k|] == Parent(p)[..|k|];
    }
  }

  lemma ParentBelow(q: Rel, p: Rel)
    requires q <= p && q != []
    ensures Parent(q) <= p && (q != p ==> q <= Parent(p))
  {
    assert Parent(q) == p[..|q| - 1];
    if q != p {
      PrefixOfParent(q, p);
    }
  }

  lemma MakeDirsRooted(t: Tree, p: Rel)
    requires Rooted(t)
    ensures Rooted(MakeDirs(t, p).tree)
    ensures MakeDirs(t, p).ok ==> DirectoryChain(MakeDirs(t, p).tree, p)
  {
    MakeDirsIs(t, p);
    MakeDirsTwice(t, p);
    var u := MakeDirs(t, p).tree;
    forall k <- u
      ensures k != [] && IsDirectory(u, Parent(k))
    {
      if k !in t {
        ParentBelow(k, p);
      }
    }
  }

  /** Putting a node where a file or link is, or where nothing is, in a directory. */
  lemma PutRooted(t: Tree, p: Rel, node: Node)
    requires Rooted(t) && p != [] && IsDirectory(t, Parent(p))
    requires p in t ==> t[p].Directory? == node.Directory?
    ensures Rooted(t[p := node])
  {
  }

  lemma TakeRooted(t: Tree, p: Rel)
    requires Rooted(t) && p in t && !t[p].Directory?
    ensures Rooted(t - {p})
  {
  }

  lemma WithoutRooted(t: Tree, p: Rel)
    requires Rooted(t)
    ensures Rooted(Without(t, p))
  {
    forall k <- Without(t, p)
      ensures IsDirectory(Without(t, p), Parent(k))
    {
      assert k in t;
      ParentOf(k, p);
    }
  }

  lemma MoveRooted(t: Tree, from: Rel, to: Rel)
    requires Rooted(t) && from in t && to != [] && !(from <= to) && !(to <= from) && IsDirectory(t, Parent(to))
    ensures Rooted(Move(t, from, to))
  {
    var u := Move(t, from, to);
    MoveExact(t, from, to);
    hide Move, Rooted, Relabel;
    forall k <- u
      ensures k != [] && IsDirectory(u, Parent(k))
    {
      if to <= k {
        RelabelledParent(t, u, from, to, k);
      } else {
        KeptParent(t, u, from, to, k);
      }
    }
    assert Rooted(u) by {
      RootedBy(u);
    }
  }

  lemma RootedBy(t: Tree)
    requires forall k <- t :: k != [] && IsDirectory(t, Parent(k))
    ensures Rooted(t)
  {
  }

  lemma KeptParent(t: Tree, u: Tree, from: Rel, to: Rel, k: Rel)
    requires Rooted(t) && k in t && !(from <= k) && !(to <= k)
    requires forall q <- t | !(from <= q) && !(to <= q) :: q in u && u[q] == t[q]
    ensures k != [] && IsDirectory(u, Parent(k))
  {
    ParentOf(k, from);
    ParentOf(k, to);
  }

  lemma RelabelledParent(t: Tree, u: Tree, from: Rel, to: Rel, k: Rel)
    requires Rooted(t) && to != [] && !(from <= to) && !(to <= from) && IsDirectory(t, Parent(to)) && to <= k
    requires from <= Relabel(to, from, k) && Relabel(to, from, k) in t
    requires forall q <- t | !(from <= q) && !(to <= q) :: q in u && u[q] == t[q]
    requires forall q <- t | from <= q :: Relabel(from, to, q) in u && u[Relabel(from, to, q)] == t[q]
    ensures k != [] && IsDirectory(u, Parent(k))
  {
    var o := Relabel(to, from, k);
    if k == to {
      ParentApart(from, to);
    } else {
      RelabelParent(from, to, k);
      hide Relabel, Parent;
      assert o in t && IsDirectory(t, Parent(o));
    }
  }

  /** The parent of a relabelled path, below the relabelled root. */
  lemma RelabelParent(from: Rel, to: Rel, k: Rel)
    requires to < k
    ensures var o := Relabel(to, from, k);
      from <= Parent(o) && Relabel(from, to, Parent(o)) == Parent(k) && |Parent(o)| < |o| && |Parent(k)| < |k|
    ensures |from| < |Relabel(to, from, k)|
  {
    var o := Relabel(to, from, k);
    assert o == from + k[|to|..];
    assert Parent(o)[..|from|] == o[..|from|] == from;
    assert Parent(o)[|from|..] == Parent(k)[|to|..];
    assert Parent(k)[..|to|] == k[..|to|] == to;
    assert Parent(k) == to + Parent(k)[|to|..];
  }

  lemma ParentOf(k: Rel, p: Rel)
    requires k != []
    ensures p <= Parent(k) ==> p <= k
  {
    if p <= Parent(k) {
      assert k[..|p|] == Parent(k)[..|p|];
    }
  }

  lemma ParentApart(from: Rel, to: Rel)
    requires to != [] && !(from <= to) && !(to <= from)
    ensures !(from <= Parent(to)) && !(to <= Parent(to))
  {
    ParentOf(to, from);
  }

  /** Every mutating request keeps the tree a tree. */
  lemma PerformRooted(t: Tree, op: Op)
    requires Rooted(t)
    ensures Rooted(Perform(t, op).tree)
  {
    hide MakeDirs, OpenFile, OsRename, Rooted;
    match op
    case Truncate(p, size) => TruncateRooted(t, p, size);
    case SetMetadata(p, mode, modified) => MetadataRooted(t, p, mode, modified);
    case Mkdir(p) => MakeDirsRooted(t, p);
    case MakeSymlink(p, target) => SymlinkRooted(t, p, target);
    case Rename(from, to) => RenameRooted(t, from, to);
    case Remove(p, dir) =>
      if p in t && t[p].Directory? {
        WithoutRooted(t, p);
      } else if p in t {
        TakeRooted(t, p);
      }
  }

  lemma TruncateRooted(t: Tree, p: Rel, size: nat)
    requires Rooted(t)
    ensures Rooted(Perform(t, Truncate(p, size)).tree)
  {
    OpenRooted(t, p);
    OpenLeaves(t, p);
    var file := OpenFile(t, p);
    hide OpenFile, Rooted, MakeDirs;
    if file.ok {
      PutRooted(file.tree, p, file.tree[p].(data := Resize(file.tree[p].data, size)));
    }
  }

  lemma MetadataRooted(t: Tree, p: Rel, mode: Option<nat>, modified: Option<int>)
    requires Rooted(t)
    ensures Rooted(Perform(t, SetMetadata(p, mode, modified)).tree)
  {
    var u := Perform(t, SetMetadata(p, mode, modified));
    if u.ok {
      PutRooted(t, p, u.tree[p]);
    }
  }

  lemma SymlinkRooted(t: Tree, p: Rel, target: string)
    requires Rooted(t)
    ensures Rooted(Perform(t, MakeSymlink(p, target)).tree)
  {
    MakeDirsRooted(t, Parent(p));
    var above := MakeDirs(t, Parent(p));
    hide MakeDirs, Rooted;
    assert Parent(p)[..|Parent(p)|] == Parent(p);
    if Perform(t, MakeSymlink(p, target)).ok {
      PutRooted(above.tree, p, Symlink(target));
    }
  }

  lemma RenameRooted(t: Tree, from: Rel, to: Rel)
    requires Rooted(t)
    ensures Rooted(Perform(t, Rename(from, to)).tree)
  {
    MakeDirsRooted(t, Parent(to));
    var above := MakeDirs(t, Parent(to));
    hide MakeDirs, Rooted, Move;
    assert Parent(to)[..|Parent(to)|] == Parent(to);
    if above.ok && from in above.tree && from != to && OsRename(above.tree, from, to).ok {
      MoveRooted(above.tree, from, to);
    }
  }

  lemma OpenRooted(t: Tree, p: Rel)
    requires Rooted(t)
    ensures Rooted(OpenFile(t, p).tree)
    ensures OpenFile(t, p).ok ==> p != [] && IsDirectory(OpenFile(t, p).tree, Parent(p))
    ensures !OpenFile(t, p).ok ==> OpenFile(t, p).tree == t
  {
    MakeDirsRooted(t, Parent(p));
    var above := MakeDirs(t, Parent(p));
    MakeDirsIs(t, Parent(p));
    if above.ok {
      assert Parent(p)[..|Parent(p)|] == Parent(p);
      if OpenFile(t, p).ok {
        PutRooted(above.tree, p, OpenFile(t, p).tree[p]);
      } else if p != [] {
        OpenFails(t, p);
      }
    }
  }

  lemma OpenFails(t: Tree, p: Rel)
    requires Rooted(t) && p != [] && MakeDirs(t, Parent(p)).ok && !OpenFile(t, p).ok
    ensures OpenFile(t, p).tree == t
  {
    MakeDirsIs(t, Parent(p));
    PrefixOfParent(p, p);
    assert p in t;
    RootedChain(t, p);
    MakeDirsNoop(t, Parent(p));
  }
}
