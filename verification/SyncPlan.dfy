/** Two-way sync: the plan computed from the last common snapshot and both sides, and its
    application to both trees. */
module SyncPlan {
  import opened Paths
  import opened Wrappers
  import Namespace

  /** Entries are compared by kind, content and mode. */
  datatype Entry = File(content: seq<int>, mode: nat) | Directory(mode: nat)

  type Snapshot = map<Path, Entry>

  datatype PlanItem =
    | Put(path: Path)
    | Get(path: Path)
    | DeleteLocal(path: Path)
    | DeleteRemote(path: Path)
    | Conflict(path: Path)

  function Lookup(s: Snapshot, q: Path): Option<Entry> {
    if q in s then Some(s[q]) else None
  }

  function FileAt(s: Snapshot, q: Path): Option<Entry> {
    if q in s && s[q].File? then Some(s[q]) else None
  }

  /** What the plan says about a path: copy or delete towards the side that did not change. */
  function ItemFor(base: Snapshot, local: Snapshot, remote: Snapshot, delete: bool, q: Path): (item: Option<PlanItem>)
    ensures item.Some? ==> item.value.path == q
  {
    var (b, l, r) := (Lookup(base, q), Lookup(local, q), Lookup(remote, q));
    if l == r then None
    else if r == b then
      (if l == None then (if delete then Some(DeleteRemote(q)) else None) else if l.value.File? then Some(Put(q))
        else None)
    else if l == b then
      (if r == None then (if delete then Some(DeleteLocal(q)) else None) else if r.value.File? then Some(Get(q))
        else None)
    else Some(Conflict(q))
  }

  /** The walk over all paths of the three snapshots, in order. */
  method SyncItems(base: Snapshot, local: Snapshot, remote: Snapshot, delete: bool) returns (items: seq<PlanItem>)
    ensures IsPlan(items, base, local, remote, delete)
    ensures forall i: nat, j: nat :: i < j < |items| ==> Namespace.Less(items[i].path, items[j].path)
  {
    hide ItemFor, Namespace.Less, Namespace.Sorted, PlanOf, IsPlan;
    var paths := AllPaths(base, local, remote);
    items := [];
    PlanOfNothing(paths, base, local, remote, delete);
    for k := 0 to |paths|
      invariant PlanOf(items, paths[..k], base, local, remote, delete)
    {
      var item := PlanPath(base, local, remote, delete, paths[k]);
      PlanOfMore(items, paths, k, base, local, remote, delete);
      if item.Some? {
        items := items + [item.value];
      } else {
        assert items + [] == items;
      }
    }
    PlanOfAll(items, paths, base, local, remote, delete);
  }

  method AllPaths(base: Snapshot, local: Snapshot, remote: Snapshot) returns (paths: seq<Path>)
    ensures Namespace.Sorted(paths) && forall q :: q in paths <==> q in base || q in local || q in remote
  {
    var all := map q | q in base.Keys + local.Keys + remote.Keys :: true;
    paths := Namespace.KeysInOrder(all);
  }

  /** The plan of the paths gone through so far, in their order. */
  ghost predicate PlanOf(items: seq<PlanItem>, paths: seq<Path>, base: Snapshot, local: Snapshot, remote: Snapshot,
      delete: bool) {
    && (forall it <- items :: it.path in paths && ItemFor(base, local, remote, delete, it.path) == Some(it))
    && (forall q <- paths ::
      ItemFor(base, local, remote, delete, q).Some? ==> ItemFor(base, local, remote, delete, q).value in items)
    && (forall i: nat, j: nat :: i < j < |items| ==> Namespace.Less(items[i].path, items[j].path))
  }

  lemma PlanOfNothing(paths: seq<Path>, base: Snapshot, local: Snapshot, remote: Snapshot, delete: bool)
    ensures PlanOf([], paths[..0], base, local, remote, delete)
  {
  }

  lemma PlanOfMore(items: seq<PlanItem>, paths: seq<Path>, k: nat, base: Snapshot, local: Snapshot, remote: Snapshot,
      delete: bool)
    requires k < |paths| && Namespace.Sorted(paths) && PlanOf(items, paths[..k], base, local, remote, delete)
    ensures var item := ItemFor(base, local, remote, delete, paths[k]);
      PlanOf(items + (if item.Some? then [item.value] else []), paths[..k + 1], base, local, remote, delete)
  {
    hide ItemFor, Namespace.Less;
    forall i: nat | i < |items|
      ensures Namespace.Less(items[i].path, paths[k])
    {
      assert items[i] in items;
      var n: nat :| n < k && paths[..k][n] == items[i].path;
    }
    assert paths[..k + 1] == paths[..k] + [paths[k]];
  }

  lemma PlanOfAll(items: seq<PlanItem>, paths: seq<Path>, base: Snapshot, local: Snapshot, remote: Snapshot,
      delete: bool)
    requires PlanOf(items, paths[..|paths|], base, local, remote, delete)
    requires forall q :: q in paths <==> q in base || q in local || q in remote
    ensures IsPlan(items, base, local, remote, delete)
    ensures forall i: nat, j: nat :: i < j < |items| ==> Namespace.Less(items[i].path, items[j].path)
  {
    assert paths[..|paths|] == paths;
    assert forall q :: ItemFor(base, local, remote, delete, q).Some? ==> q in paths;
  }

  /** The case split on which side changed. */
  method PlanPath(base: Snapshot, local: Snapshot, remote: Snapshot, delete: bool, path: Path)
      returns (item: Option<PlanItem>)
    ensures item == ItemFor(base, local, remote, delete, path)
  {
    var (b, l, r) := (Lookup(base, path), Lookup(local, path), Lookup(remote, path));
    if l == r {
      return None;
    }
    var localChanged, remoteChanged := l != b, r != b;
    if localChanged && !remoteChanged && l.Some? && l.value.File? {
      return Some(Put(path));
    } else if localChanged && !remoteChanged && l == None && delete {
      return Some(DeleteRemote(path));
    } else if !localChanged && remoteChanged && r.Some? && r.value.File? {
      return Some(Get(path));
    } else if !localChanged && remoteChanged && r == None && delete {
      return Some(DeleteLocal(path));
    } else if localChanged && remoteChanged {
      return Some(Conflict(path));
    }
    return None;
  }

  /** The items are exactly what the plan says about each path, in any order. */
  ghost predicate IsPlan(items: seq<PlanItem>, base: Snapshot, local: Snapshot, remote: Snapshot, delete: bool) {
    && (forall it <- items :: ItemFor(base, local, remote, delete, it.path) == Some(it))
    && (forall q :: ItemFor(base, local, remote, delete, q).Some? ==>
      ItemFor(base, local, remote, delete, q).value in items)
  }

  /** Which items a plan has, path by path: copies and deletions go from a side that changed to the
      one that did not, deletions only if asked for, and a path is in conflict exactly if all three
      snapshots differ on it. */
  lemma PlanExactly(items: seq<PlanItem>, base: Snapshot, local: Snapshot, remote: Snapshot, delete: bool, q: Path)
    requires IsPlan(items, base, local, remote, delete)
    ensures var localSame := (q in local <==> q in base) && (q in base && q in local ==> local[q] == base[q]);
      var remoteSame := (q in remote <==> q in base) && (q in base && q in remote ==> remote[q] == base[q]);
      var sidesSame := (q in local <==> q in remote) && (q in local && q in remote ==> local[q] == remote[q]);
      && (Put(q) in items <==> remoteSame && !localSame && q in local && local[q].File?)
      && (Get(q) in items <==> localSame && !remoteSame && q in remote && remote[q].File?)
      && (DeleteRemote(q) in items <==> delete && remoteSame && !localSame && q !in local)
      && (DeleteLocal(q) in items <==> delete && localSame && !remoteSame && q !in remote)
      && (Conflict(q) in items <==> !localSame && !remoteSame && !sidesSame)
  {
    var item := ItemFor(base, local, remote, delete, q);
    assert item.Some? ==> item.value in items;
  }

  /** The proper ancestors of a path. */
  function Ancestors(q: Path): set<Path> {
    set i | 0 < i < |q| && q[i] == '/' :: q[..i]
  }

  const NEW_DIRECTORY: Entry := Directory(0x1ED)

  /** Makes the directories above a path. */
  function WithAncestors(s: Snapshot, q: Path): Snapshot {
    map p | p in s.Keys + Ancestors(q) :: if p in s then s[p] else NEW_DIRECTORY
  }

  /** Copies an entry to the other side, making the directories above it. */
  function Copy(s: Snapshot, q: Path, e: Entry): Snapshot {
    WithAncestors(s, q)[q := e]
  }

  /** Deletes a file, or a directory with everything below it; a missing path is ignored. */
  function Delete(s: Snapshot, q: Path): Snapshot {
    if q in s && s[q].Directory? then map p <- s | !Under(q, p) :: s[p] else s - {q}
  }

  class Workspace {
    var local: Snapshot
    var remote: Snapshot

    constructor (local: Snapshot, remote: Snapshot)
      ensures this.local == local && this.remote == remote
    {
      this.local, this.remote := local, remote;
    }

    /** One item; an upload or a download reads the side as it is by then, and fails if there is
        nothing to read. */
    method ApplyItem(it: PlanItem, before: Snapshot) returns (ok: bool)
      modifies this
      ensures Sides(local, remote, ok) == ItemApplied(Sides(old(local), old(remote), true), it, before)
    {
      match it {
        case Put(q) =>
          if q !in local {
            return false;
          }
          remote := Copy(remote, q, local[q]);
        case Get(q) =>
          if q in before {
            local := WithAncestors(local, q);
            if q !in remote {
              return false;
            }
            local := local[q := remote[q]];
          }
        case DeleteLocal(q) => local := Delete(local, q);
        case DeleteRemote(q) =>
          if q in before {
            remote := Delete(remote, q);
          }
        case Conflict(q) =>
      }
      return true;
    }

    /** Walks the plan up to the first item that fails; `before` is the remote snapshot it was
        computed from. */
    method ApplyPlan(plan: seq<PlanItem>, before: Snapshot) returns (ok: bool)
      modifies this
      ensures Sides(local, remote, ok) == PlanApplied(old(local), old(remote), plan, before)
    {
      for i := 0 to |plan|
        invariant Sides(local, remote, true) == PlanApplied(old(local), old(remote), plan[..i], before)
      {
        assert plan[..i + 1][..i] == plan[..i];
        ok := ApplyItem(plan[i], before);
        if !ok {
          StaysFailed(old(local), old(remote), plan, i + 1, before);
          return;
        }
      }
      assert plan[..|plan|] == plan;
      return true;
    }
  }

  /** Both sides, and whether all went well so far. */
  datatype Sides = Sides(local: Snapshot, remote: Snapshot, ok: bool)

  function ItemApplied(s: Sides, it: PlanItem, before: Snapshot): Sides {
    match it
    case Put(q) => if q in s.local then s.(remote := Copy(s.remote, q, s.local[q])) else s.(ok := false)
    case Get(q) =>
      if q !in before then s
      else if q in s.remote then s.(local := Copy(s.local, q, s.remote[q]))
      else s.(local := WithAncestors(s.local, q), ok := false)
    case DeleteLocal(q) => s.(local := Delete(s.local, q))
    case DeleteRemote(q) => if q in before then s.(remote := Delete(s.remote, q)) else s
    case Conflict(q) => s
  }

  function PlanApplied(local: Snapshot, remote: Snapshot, plan: seq<PlanItem>, before: Snapshot): Sides {
    if plan == [] then
      Sides(local, remote, true)
    else
      var s := PlanApplied(local, remote, plan[..|plan| - 1], before);
      if s.ok then ItemApplied(s, plan[|plan| - 1], before) else s
  }

  lemma {:induction false} StaysFailed(local: Snapshot, remote: Snapshot, plan: seq<PlanItem>, n: nat, before: Snapshot)
    requires n <= |plan| && !PlanApplied(local, remote, plan[..n], before).ok
    ensures PlanApplied(local, remote, plan, before) == PlanApplied(local, remote, plan[..n], before)
  {
    if n == |plan| {
      assert plan[..n] == plan;
    } else {
      assert plan[..|plan| - 1][..n] == plan[..n];
      StaysFailed(local, remote, plan[..|plan| - 1], n, before);
    }
  }

  // ------------------------------------------------------------------ what a sync achieves

  /** The changed side's entry. */
  function Merged(base: Snapshot, local: Snapshot, remote: Snapshot, q: Path): Option<Entry> {
    if Lookup(remote, q) == Lookup(base, q) then Lookup(local, q) else Lookup(remote, q)
  }

  function MergedFile(base: Snapshot, local: Snapshot, remote: Snapshot, q: Path): Option<Entry> {
    var m := Merged(base, local, remote, q);
    if m.Some? && m.value.File? then m else None
  }

  predicate SameKind(a: Option<Entry>, b: Option<Entry>) {
    a.Some? && b.Some? ==> a.value.File? == b.value.File?
  }

  /** No path changes between file and directory. */
  ghost predicate SameKinds(base: Snapshot, local: Snapshot, remote: Snapshot) {
    forall q :: SameKind(Lookup(local, q), Lookup(remote, q)) && SameKind(Lookup(local, q), Lookup(base, q)) &&
      SameKind(Lookup(remote, q), Lookup(base, q))
  }

  /** Nothing survives below a path that one side deleted. */
  ghost predicate NoSurvivors(base: Snapshot, local: Snapshot, remote: Snapshot) {
    forall d, q | Under(d, q) && ItemFor(base, local, remote, true, d).Some? ::
      ItemFor(base, local, remote, true, d).value.DeleteLocal? ||
        ItemFor(base, local, remote, true, d).value.DeleteRemote?
      ==> MergedFile(base, local, remote, q) == None
  }

  predicate NoConflict(plan: seq<PlanItem>) {
    forall it <- plan :: !it.Conflict?
  }

  /** Is what a side has at q either what it had or already the outcome? */
  predicate Between(now: Snapshot, start: Snapshot, q: Path, outcome: Option<Entry>) {
    FileAt(now, q) == FileAt(start, q) || FileAt(now, q) == outcome
  }

  lemma CopyFiles(s: Snapshot, q: Path, e: Entry)
    requires e.File?
    ensures FileAt(Copy(s, q, e), q) == Some(e)
    ensures forall p | p != q :: FileAt(Copy(s, q, e), p) == FileAt(s, p)
  {
  }

  /** A deletion takes just the path and, if a directory is there, what is below it. */
  lemma DeleteExactly(s: Snapshot, q: Path, p: Path)
    ensures p in Delete(s, q) <==> p in s && p != q && !(q in s && s[q].Directory? && q + "/" <= p)
    ensures p in Delete(s, q) ==> Delete(s, q)[p] == s[p]
  {
    UnderExactly(q, p);
  }

  lemma DeleteFiles(s: Snapshot, q: Path)
    ensures FileAt(Delete(s, q), q) == None
    ensures forall p :: FileAt(Delete(s, q), p) == FileAt(s, p) || (Under(q, p) && FileAt(Delete(s, q), p) == None)
  {
  }

  /** With delete on and no conflict, where there is no item both sides have the outcome already,
      and an item copies from, or deletes beside, a side that has it. */
  lemma ItemMeans(base: Snapshot, local: Snapshot, remote: Snapshot, q: Path)
    requires SameKinds(base, local, remote)
    ensures var m := MergedFile(base, local, remote, q);
      match ItemFor(base, local, remote, true, q)
      case None => FileAt(local, q) == m && FileAt(remote, q) == m
      case Some(Put(_)) => FileAt(local, q) == m && m.Some?
      case Some(Get(_)) => FileAt(remote, q) == m && m.Some? && q in remote
      case Some(DeleteLocal(_)) => m == None && FileAt(remote, q) == None
      case Some(DeleteRemote(_)) => m == None && FileAt(local, q) == None && q in remote
      case Some(Conflict(_)) => true
  {
    assert SameKind(Lookup(local, q), Lookup(remote, q)) && SameKind(Lookup(local, q), Lookup(base, q)) &&
      SameKind(Lookup(remote, q), Lookup(base, q));
  }

  /** Has every path what it started with or its outcome, on both sides? */
  ghost predicate OnTheWay(base: Snapshot, local: Snapshot, remote: Snapshot, l: Snapshot, r: Snapshot) {
    forall q :: Between(l, local, q, MergedFile(base, local, remote, q)) &&
      Between(r, remote, q, MergedFile(base, local, remote, q))
  }

  predicate Arrived(base: Snapshot, local: Snapshot, remote: Snapshot, l: Snapshot, r: Snapshot, q: Path) {
    FileAt(l, q) == MergedFile(base, local, remote, q) == FileAt(r, q)
  }

  lemma ItemStep(base: Snapshot, local: Snapshot, remote: Snapshot, s: Sides, it: PlanItem)
    requires SameKinds(base, local, remote) && NoSurvivors(base, local, remote) &&
      OnTheWay(base, local, remote, s.local, s.remote) && s.ok
    requires ItemFor(base, local, remote, true, it.path) == Some(it) && !it.Conflict?
    ensures var t := ItemApplied(s, it, remote);
      && t.ok
      && OnTheWay(base, local, remote, t.local, t.remote)
      && Arrived(base, local, remote, t.local, t.remote, it.path)
      && forall q | Arrived(base, local, remote, s.local, s.remote, q) ::
        Arrived(base, local, remote, t.local, t.remote, q)
  {
    var q, l, r := it.path, s.local, s.remote;
    var t := ItemApplied(s, it, remote);
    ItemMeans(base, local, remote, q);
    assert Between(l, local, q, MergedFile(base, local, remote, q)) &&
      Between(r, remote, q, MergedFile(base, local, remote, q));
    match it
    case Put(_) =>
      CopyFiles(r, q, l[q]);
      assert forall p | p != q :: FileAt(t.remote, p) == FileAt(r, p);
    case Get(_) =>
      CopyFiles(l, q, r[q]);
      assert forall p | p != q :: FileAt(t.local, p) == FileAt(l, p);
    case DeleteLocal(_) =>
      DeleteFiles(l, q);
      assert forall p ::
          FileAt(t.local, p) == FileAt(l, p) || FileAt(t.local, p) == None == MergedFile(base, local, remote, p);
    case DeleteRemote(_) =>
      DeleteFiles(r, q);
      assert forall p ::
          FileAt(t.remote, p) == FileAt(r, p) || FileAt(t.remote, p) == None == MergedFile(base, local, remote, p);
  }

  lemma {:induction false} PlanSteps(base: Snapshot, local: Snapshot, remote: Snapshot, plan: seq<PlanItem>)
    requires SameKinds(base, local, remote) && NoSurvivors(base, local, remote) && NoConflict(plan)
    requires forall it <- plan :: ItemFor(base, local, remote, true, it.path) == Some(it)
    ensures var s := PlanApplied(local, remote, plan, remote);
      && s.ok
      && OnTheWay(base, local, remote, s.local, s.remote)
      && forall it <- plan :: Arrived(base, local, remote, s.local, s.remote, it.path)
  {
    hide SameKinds, NoSurvivors, OnTheWay, Arrived, ItemFor, ItemApplied;
    if plan == [] {
      StartsOnTheWay(base, local, remote);
    } else {
      var init, last := plan[..|plan| - 1], plan[|plan| - 1];
      assert last in plan;
      PlanSteps(base, local, remote, init);
      ItemStep(base, local, remote, PlanApplied(local, remote, init, remote), last);
      assert forall it <- plan :: it in init || it == last;
    }
  }

  lemma StartsOnTheWay(base: Snapshot, local: Snapshot, remote: Snapshot)
    ensures OnTheWay(base, local, remote, local, remote)
  {
  }

  /** Where nothing survives below a deleted path the plan succeeds, in whatever order the items
      come, and leaves both sides with the changed side's file, or its absence, at every path. */
  lemma SyncAgrees(base: Snapshot, local: Snapshot, remote: Snapshot, plan: seq<PlanItem>, q: Path)
    requires SameKinds(base, local, remote) && NoSurvivors(base, local, remote)
    requires IsPlan(plan, base, local, remote, true) && NoConflict(plan)
    ensures var s := PlanApplied(local, remote, plan, remote);
      s.ok && FileAt(s.local, q) == FileAt(s.remote, q) == MergedFile(base, local, remote, q)
  {
    PlanSteps(base, local, remote, plan);
    ItemMeans(base, local, remote, q);
    var s := PlanApplied(local, remote, plan, remote);
    var it := ItemFor(base, local, remote, true, q);
    if it.Some? {
      assert it.value in plan && it.value.path == q;
      assert Arrived(base, local, remote, s.local, s.remote, q);
    } else {
      assert Between(s.local, local, q, MergedFile(base, local, remote, q)) &&
        Between(s.remote, remote, q, MergedFile(base, local, remote, q));
    }
  }

  /** A plan without deletions changes no file of a side but those it copies to that side, and
      removes none; in particular without deletion asked for, and never one in conflict. */
  lemma {:induction false} CopiesOnly(local: Snapshot, remote: Snapshot, plan: seq<PlanItem>, before: Snapshot)
    requires forall it <- plan :: !it.DeleteLocal? && !it.DeleteRemote?
    requires forall it <- plan ::
      (it.Put? ==> FileAt(local, it.path).Some?) && (it.Get? ==> FileAt(remote, it.path).Some?)
    ensures var s := PlanApplied(local, remote, plan, before);
      forall q ::
        && (FileAt(s.local, q) != FileAt(local, q) ==> Get(q) in plan && FileAt(s.local, q).Some?)
        && (FileAt(s.remote, q) != FileAt(remote, q) ==> Put(q) in plan && FileAt(s.remote, q).Some?)
  {
    if plan != [] {
      var init, last := plan[..|plan| - 1], plan[|plan| - 1];
      assert last in plan && forall it <- init :: it in plan;
      CopiesOnly(local, remote, init, before);
      var s := PlanApplied(local, remote, init, before);
      var q := last.path;
      hide PlanApplied;
      if last.Put? && q in s.local {
        assert FileAt(s.local, q).Some?;
        CopyFiles(s.remote, q, s.local[q]);
      } else if last.Get? {
        assert FileAt(s.remote, q).Some?;
        WayFiles(s.local, q);
        CopyFiles(s.local, q, s.remote[q]);
      }
      hide Copy, WithAncestors;
    }
  }

  lemma WayFiles(s: Snapshot, q: Path)
    ensures forall p :: FileAt(WithAncestors(s, q), p) == FileAt(s, p)
  {
  }

  /** Without deletion asked for a sync removes no file, and a file in conflict, or changed on one
      side, is left as it is there. */
  lemma SyncKeepsFiles(base: Snapshot, local: Snapshot, remote: Snapshot, plan: seq<PlanItem>, q: Path)
    requires IsPlan(plan, base, local, remote, false)
    ensures var s := PlanApplied(local, remote, plan, remote);
      && (FileAt(local, q).Some? ==> FileAt(s.local, q).Some?)
      && (FileAt(remote, q).Some? ==> FileAt(s.remote, q).Some?)
      && (Lookup(local, q) != Lookup(base, q) ==> FileAt(s.local, q) == FileAt(local, q))
      && (Lookup(remote, q) != Lookup(base, q) ==> FileAt(s.remote, q) == FileAt(remote, q))
  {
    forall it <- plan
      ensures !it.DeleteLocal? && !it.DeleteRemote?
      ensures (it.Put? ==> FileAt(local, it.path).Some?) && (it.Get? ==> FileAt(remote, it.path).Some?)
    {
      PlanExactly(plan, base, local, remote, false, it.path);
    }
    PlanExactly(plan, base, local, remote, false, q);
    hide IsPlan, PlanApplied;
    CopiesOnly(local, remote, plan, remote);
  }

  // ------------------------------------------------------------------ what survives a deletion

  /** Is everything inside a directory that is there?  The root itself is not listed. */
  predicate Rooted(s: Snapshot) {
    "" !in s && forall q <- s, d <- Ancestors(q) :: d in s && s[d].Directory?
  }

  predicate InOrder(plan: seq<PlanItem>) {
    forall i: nat, j: nat :: i < j < |plan| ==> Namespace.Less(plan[i].path, plan[j].path)
  }

  lemma InDirectory(s: Snapshot, d: Path, q: Path)
    requires Rooted(s) && q in s && Under(d, q) && d != q && d != ""
    ensures d in s && s[d].Directory?
  {
    assert q[..|d|] == d && q[|d|] == '/';
    assert d in Ancestors(q);
  }

  lemma UnderAncestor(d: Path, a: Path, q: Path)
    requires a in Ancestors(q) && Under(d, a)
    ensures Under(d, q)
  {
    var i :| 0 < i < |q| && q[i] == '/' && a == q[..i];
    assert Under(a, q);
    UnderTransitive(d, a, q);
  }

  /** One side, the items that copy to it, and those that delete from it. */
  function Side(s: Sides, onRemote: bool): Snapshot {
    if onRemote then s.remote else s.local
  }

  predicate CopiesTo(it: PlanItem, onRemote: bool) {
    if onRemote then it.Put? else it.Get?
  }

  predicate DeletesFrom(it: PlanItem, onRemote: bool) {
    if onRemote then it.DeleteRemote? else it.DeleteLocal?
  }

  predicate Deletes(it: PlanItem, d: Path, before: Snapshot, onRemote: bool) {
    it.path == d && DeletesFrom(it, onRemote) && (onRemote ==> d in before)
  }

  /** Is there nothing at or below d? */
  ghost predicate Bare(s: Snapshot, d: Path) {
    forall k <- s :: !Under(d, k)
  }

  ghost predicate DirectoryOrBare(s: Snapshot, d: Path) {
    (d in s && s[d].Directory?) || Bare(s, d)
  }

  lemma BareStep(s: Sides, it: PlanItem, before: Snapshot, d: Path, onRemote: bool)
    requires CopiesTo(it, onRemote) ==> !Under(d, it.path)
    ensures var t := Side(ItemApplied(s, it, before), onRemote);
      && (Bare(Side(s, onRemote), d) ==> Bare(t, d))
      && (DirectoryOrBare(Side(s, onRemote), d) && it.path != d ==> DirectoryOrBare(t, d))
      && (DirectoryOrBare(Side(s, onRemote), d) && Deletes(it, d, before, onRemote) ==> Bare(t, d))
  {
    hide Under;
    forall a <- Ancestors(it.path) | Under(d, a)
      ensures Under(d, it.path)
    {
      UnderAncestor(d, a, it.path);
    }
    forall k: Path | Under(it.path, d) && Under(d, k)
      ensures Under(it.path, k)
    {
      UnderTransitive(it.path, d, k);
    }
    UnderItself(d);
  }

  lemma UnderItself(d: Path)
    ensures Under(d, d)
  {
  }

  /** A deleted directory is gone with everything below it, and stays so. */
  lemma {:induction false} DeletedStaysBare(local: Snapshot, remote: Snapshot, plan: seq<PlanItem>, i: nat, n: nat,
      onRemote: bool)
    requires i < |plan| && n <= |plan| && InOrder(plan) && DeletesFrom(plan[i], onRemote) &&
      (onRemote ==> plan[i].path in remote)
    requires DirectoryOrBare(if onRemote then remote else local, plan[i].path)
    requires forall it <- plan :: CopiesTo(it, onRemote) ==> !Under(plan[i].path, it.path)
    ensures var s, d := PlanApplied(local, remote, plan[..n], remote), plan[i].path;
      s.ok ==> if n <= i then DirectoryOrBare(Side(s, onRemote), d) else Bare(Side(s, onRemote), d)
  {
    hide DirectoryOrBare, Bare, Under, ItemApplied, Side;
    if n > 0 {
      assert plan[..n][..n - 1] == plan[..n - 1];
      DeletedStaysBare(local, remote, plan, i, n - 1, onRemote);
      BareStep(PlanApplied(local, remote, plan[..n - 1], remote), plan[n - 1], remote, plan[i].path, onRemote);
      assert plan[n - 1] in plan;
      if n - 1 < i {
        Namespace.LessTotal(plan[n - 1].path, plan[i].path);
      }
    } else {
      StartSide(local, remote, onRemote);
      assert plan[..0] == [];
    }
  }

  lemma StartSide(local: Snapshot, remote: Snapshot, onRemote: bool)
    ensures Side(PlanApplied(local, remote, [], remote), onRemote) == if onRemote then remote else local
  {
  }

  /** What a survivor is: a new file on one side below a directory that the other side lacks. */
  lemma SurvivorMeans(base: Snapshot, local: Snapshot, remote: Snapshot, plan: seq<PlanItem>, d: Path, q: Path)
      returns (onRemote: bool)
    requires SameKinds(base, local, remote) && Rooted(local) && Rooted(remote)
    requires IsPlan(plan, base, local, remote, true) && NoConflict(plan)
    requires Under(d, q) && ItemFor(base, local, remote, true, d).Some? && MergedFile(base, local, remote, q).Some?
    requires var it := ItemFor(base, local, remote, true, d).value; it.DeleteLocal? || it.DeleteRemote?
    ensures DeletesFrom(ItemFor(base, local, remote, true, d).value, onRemote) && d != q && d != ""
    ensures ItemFor(base, local, remote, true, q) == Some(if onRemote then Get(q) else Put(q))
    ensures var (s, o) := if onRemote then (remote, local) else (local, remote);
      d in s && s[d].Directory? && d !in o && q in s && q !in o
  {
    var it := ItemFor(base, local, remote, true, d).value;
    onRemote := it.DeleteRemote?;
    if q in local && q != d {
      InDirectory(local, d, q);
    }
    if q in remote && q != d {
      InDirectory(remote, d, q);
    }
    assert ItemFor(base, local, remote, true, q) == Some(Conflict(q)) ==> Conflict(q) in plan;
  }

  /** Nothing is copied to where the other side has nothing. */
  lemma NoCopiesBelow(base: Snapshot, local: Snapshot, remote: Snapshot, plan: seq<PlanItem>, d: Path, onRemote: bool)
    requires Rooted(local) && Rooted(remote) && IsPlan(plan, base, local, remote, true) && d != ""
    requires d !in if onRemote then local else remote
    ensures forall it <- plan :: CopiesTo(it, onRemote) ==> !Under(d, it.path)
  {
    forall it <- plan | CopiesTo(it, onRemote)
      ensures !Under(d, it.path)
    {
      assert ItemFor(base, local, remote, true, it.path) == Some(it);
      if Under(d, it.path) && it.path != d {
        InDirectory(if onRemote then local else remote, d, it.path);
      }
    }
  }

  /** If something survives below a deleted path, the copy of it fails. */
  lemma SurvivorFails(base: Snapshot, local: Snapshot, remote: Snapshot, plan: seq<PlanItem>, d: Path, q: Path)
    requires SameKinds(base, local, remote) && Rooted(local) && Rooted(remote)
    requires IsPlan(plan, base, local, remote, true) && NoConflict(plan) && InOrder(plan)
    requires Under(d, q) && ItemFor(base, local, remote, true, d).Some? && MergedFile(base, local, remote, q).Some?
    requires var it := ItemFor(base, local, remote, true, d).value; it.DeleteLocal? || it.DeleteRemote?
    ensures !PlanApplied(local, remote, plan, remote).ok
  {
    var onRemote := SurvivorMeans(base, local, remote, plan, d, q);
    var x, y := ItemFor(base, local, remote, true, d).value, ItemFor(base, local, remote, true, q).value;
    assert x in plan && y in plan;
    var i: nat :| i < |plan| && plan[i] == x;
    var j: nat :| j < |plan| && plan[j] == y;
    hide SameKinds, Rooted, ItemFor, IsPlan, MergedFile, Bare, InOrder, Under, PlanApplied, NoConflict;
    Before(plan, i, j);
    NoCopiesBelow(base, local, remote, plan, d, onRemote);
    DeletedStaysBare(local, remote, plan, i, j, onRemote);
    CopyFails(local, remote, plan, j, d, q, onRemote);
  }

  lemma CopyFails(local: Snapshot, remote: Snapshot, plan: seq<PlanItem>, j: nat, d: Path, q: Path, onRemote: bool)
    requires j < |plan| && plan[j] == (if onRemote then Get(q) else Put(q)) && Under(d, q) && (onRemote ==> q in remote)
    requires var s := PlanApplied(local, remote, plan[..j], remote); s.ok ==> Bare(Side(s, onRemote), d)
    ensures !PlanApplied(local, remote, plan, remote).ok
  {
    hide Bare, Under, Copy, WithAncestors;
    assert plan[..j + 1][..j] == plan[..j];
    var s := PlanApplied(local, remote, plan[..j], remote);
    if s.ok {
      BareHasNot(Side(s, onRemote), d, q);
    }
    StaysFailed(local, remote, plan, j + 1, remote);
  }

  lemma BareHasNot(s: Snapshot, d: Path, q: Path)
    requires Bare(s, d) && Under(d, q)
    ensures q !in s
  {
  }

  /** In a plan in order what is above comes first. */
  lemma Before(plan: seq<PlanItem>, i: nat, j: nat)
    requires i < |plan| && j < |plan| && InOrder(plan) && Under(plan[i].path, plan[j].path) &&
      plan[i].path != plan[j].path
    ensures i < j
  {
    var d, q := plan[i].path, plan[j].path;
    assert d <= q;
    Namespace.PrefixNotBefore(d, q);
  }

  /** In the order of the paths the plan succeeds if and only if nothing survives below a deleted
      path: a file that is new on one side in a directory that the other side has deleted is deleted
      with it, and its copy then fails. */
  lemma SyncSucceedsExactly(base: Snapshot, local: Snapshot, remote: Snapshot, plan: seq<PlanItem>)
    requires SameKinds(base, local, remote) && Rooted(local) && Rooted(remote)
    requires IsPlan(plan, base, local, remote, true) && NoConflict(plan) && InOrder(plan)
    ensures PlanApplied(local, remote, plan, remote).ok <==> NoSurvivors(base, local, remote)
  {
    if NoSurvivors(base, local, remote) {
      PlanSteps(base, local, remote, plan);
    } else {
      var d, q :| Under(d, q) && ItemFor(base, local, remote, true, d).Some? &&
        MergedFile(base, local, remote, q).Some? &&
        var it := ItemFor(base, local, remote, true, d).value; it.DeleteLocal? || it.DeleteRemote?;
      SurvivorFails(base, local, remote, plan, d, q);
    }
  }

  /** A file is made in a directory on the remote side after the local side has deleted the
      directory: nothing conflicts, and after the sync neither side has the file. */
  lemma NewFileIsLost(e: Entry, mode: nat)
      returns (base: Snapshot, local: Snapshot, remote: Snapshot, plan: seq<PlanItem>, q: Path)
    requires e.File?
    ensures SameKinds(base, local, remote) && Rooted(base) && Rooted(local) && Rooted(remote)
    ensures IsPlan(plan, base, local, remote, true) && NoConflict(plan) && InOrder(plan)
    ensures q !in base && MergedFile(base, local, remote, q) == Some(e)
    ensures var s := PlanApplied(local, remote, plan, remote); !s.ok && q !in s.local && q !in s.remote
  {
    q := "d/x";
    base, local, remote := map["d" := Directory(mode)], map[], map["d" := Directory(mode), q := e];
    plan := [DeleteRemote("d"), Get(q)];
    assert Ancestors(q) == {"d"} by {
      assert q[1] == '/' && q[..1] == "d";
      assert forall i | 0 < i < |q| && q[i] == '/' :: i == 1;
    }
    assert Ancestors("d") == {};
    assert Namespace.Less("d", q) by {
      Namespace.PrefixNotBefore("d", q);
    }
    assert Under("d", q) && q[..1] == "d";
    assert plan[..1] == [DeleteRemote("d")] && plan[..1][..0] == [];
    var a := ItemApplied(Sides(local, remote, true), DeleteRemote("d"), remote);
    assert a.remote == map[];
    assert PlanApplied(local, remote, plan[..1], remote) == a;
  }

  /** The next plan, made from the new base, which is the remote side as it is after a sync that
      succeeded: no file is in it, and it is empty if and only if the remote side has no directory
      that the local side lacks.  Such a directory, new on the remote side and without files, is
      deleted by it. */
  lemma NextPlan(base: Snapshot, local: Snapshot, remote: Snapshot, plan: seq<PlanItem>, next: seq<PlanItem>)
    requires SameKinds(base, local, remote) && Rooted(local) && Rooted(remote)
    requires IsPlan(plan, base, local, remote, true) && NoConflict(plan) && InOrder(plan)
    requires var s := PlanApplied(local, remote, plan, remote); s.ok && IsPlan(next, s.remote, s.local, s.remote, true)
    ensures var s := PlanApplied(local, remote, plan, remote);
      && (forall it <- next :: it.DeleteRemote? && FileAt(s.local, it.path) == FileAt(s.remote, it.path) == None)
      && (next == [] <==> forall d <- s.remote :: s.remote[d].Directory? ==> d in s.local)
  {
    SyncSucceedsExactly(base, local, remote, plan);
    var s := PlanApplied(local, remote, plan, remote);
    var l, r := s.local, s.remote;
    forall q
      ensures ItemFor(r, l, r, true, q) == if q in r && q !in l && r[q].Directory? then Some(DeleteRemote(q)) else None
    {
      SyncAgrees(base, local, remote, plan, q);
    }
    hide PlanApplied;
    if next != [] {
      assert next[0] in next;
      assert r[next[0].path].Directory? && next[0].path !in l;
    }
    forall d <- r | r[d].Directory? && d !in l
      ensures next != []
    {
      assert ItemFor(r, l, r, true, d).Some?;
    }
  }

  lemma FirstIn(plan: seq<PlanItem>)
    ensures plan != [] ==> plan[0] in plan
  {
  }

  /** A directory made on the remote side only, without files: the first sync leaves it alone, the
      second deletes it. */
  lemma NewRemoteDirectoryIsDeleted(d: Path, plan: seq<PlanItem>, next: seq<PlanItem>)
    requires IsPlan(plan, map[], map[], map[d := NEW_DIRECTORY], true)
    requires var s := PlanApplied(map[], map[d := NEW_DIRECTORY], plan, map[d := NEW_DIRECTORY]); IsPlan(next,
      s.remote, s.local, s.remote, true)
    ensures plan == []
    ensures DeleteRemote(d) in next
  {
    var remote: Snapshot := map[d := NEW_DIRECTORY];
    FirstIn(plan);
    assert forall it <- plan :: ItemFor(map[], map[], remote, true, it.path) == Some(it);
    assert ItemFor(remote, map[], remote, true, d) == Some(DeleteRemote(d));
  }
}
