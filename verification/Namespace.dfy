/** The mount's maps over paths: inode numbers, metadata and directory listings, kept in ordered
    maps and relabelled together by a rename. */
module Namespace {
  import opened Paths
  import opened Wrappers

  // ------------------------------------------------------------------ ordered keys

  /** The order of the maps' keys. */
  predicate Less(a: Path, b: Path) {
    b != "" && (a == "" || a[0] < b[0] || (a[0] == b[0] && Less(a[1..], b[1..])))
  }

  predicate Sorted(s: seq<Path>) {
    forall i: nat, j: nat :: i < j < |s| ==> Less(s[i], s[j])
  }

  lemma {:induction false} LessTotal(a: Path, b: Path)
    ensures a == b || Less(a, b) || Less(b, a)
    ensures !(Less(a, b) && Less(b, a)) && !Less(a, a)
  {
    if a != "" && b != "" {
      LessTotal(a[1..], b[1..]);
      LessTotal(a[1..], a[1..]);
      assert a[0] == b[0] && a[1..] == b[1..] ==> a == b by {
        assert a == [a[0]] + a[1..] && b == [b[0]] + b[1..];
      }
    } else if a != "" {
      LessTotal(a[1..], a[1..]);
    }
  }

  lemma {:induction false} LessTransitive(a: Path, b: Path, c: Path)
    requires Less(a, b) && Less(b, c)
    ensures Less(a, c)
  {
    if a != "" && a[0] == b[0] == c[0] {
      LessTransitive(a[1..], b[1..], c[1..]);
    }
  }

  /** What starts with p is not before p, and comes after everything p properly extends. */
  lemma {:induction false} PrefixNotBefore(p: Path, k: Path)
    requires p <= k
    ensures !Less(k, p) && (p != k ==> Less(p, k))
  {
    if p != "" {
      PrefixNotBefore(p[1..], k[1..]);
    }
  }

  /** The keys that start with p are an interval beginning at p: nothing sorts in between. */
  lemma {:induction false} PrefixInterval(p: Path, k: Path, m: Path)
    requires !Less(k, p) && Less(k, m) && p <= m
    ensures p <= k
  {
    if p != "" {
      PrefixInterval(p[1..], k[1..], m[1..]);
    }
  }

  /** Adds a key where it belongs. */
  method InsertKey(s: seq<Path>, k: Path) returns (r: seq<Path>)
    requires Sorted(s) && k !in s
    ensures Sorted(r) && forall q :: q in r <==> q in s || q == k
  {
    var i := 0;
    while i < |s| && Less(s[i], k)
      invariant i <= |s| && forall j: nat :: j < i ==> Less(s[j], k)
    {
      i := i + 1;
    }
    r := s[..i] + [k] + s[i..];
    forall j: nat | i <= j < |s|
      ensures Less(k, s[j])
    {
      LessTotal(s[i], k);
      if i < j {
        LessTransitive(k, s[i], s[j]);
      }
    }
    assert s == s[..i] + s[i..];
  }

  /** The keys of a map in order, as the ordered map iterates over them. */
  method KeysInOrder<V>(m: map<Path, V>) returns (s: seq<Path>)
    ensures Sorted(s) && forall q :: q in s <==> q in m
  {
    s := [];
    var rest := m.Keys;
    while rest != {}
      invariant rest <= m.Keys && Sorted(s)
      invariant forall q :: q in s <==> q in m && q !in rest
    {
      var k :| k in rest;
      s := InsertKey(s, k);
      rest := rest - {k};
    }
  }

  /** The path itself, then the keys from `path/` on for as long as they start with it. */
  method SubtreeKeys<V>(m: map<Path, V>, path: Path) returns (keys: seq<Path>)
    ensures forall k :: k in keys <==> k in m && Under(path, k)
    ensures Sorted(keys)
  {
    var s := KeysInOrder(m);
    var prefix := path + "/";
    var start := 0;
    while start < |s| && Less(s[start], prefix)
      invariant start <= |s| && forall j: nat :: j < start ==> Less(s[j], prefix)
    {
      start := start + 1;
    }
    var end := start;
    while end < |s| && prefix <= s[end]
      invariant start <= end <= |s| && forall j: nat :: start <= j < end ==> prefix <= s[j]
    {
      end := end + 1;
    }
    keys := (if path in m then [path] else []) + s[start..end];
    ScanExact(s, prefix, start, end);
    UnderPrefix(path);
    forall j: nat | start <= j < end
      ensures Less(path, s[j])
    {
      assert path <= s[j] by {
        assert s[j][..|path|] == prefix[..|path|] == path;
      }
      PrefixNotBefore(path, s[j]);
    }
    forall k
      ensures k in keys <==> k in m && Under(path, k)
    {
      assert k in s[start..end] <==> k in s && prefix <= k;
    }
  }

  lemma UnderPrefix(path: Path)
    ensures forall k: Path :: Under(path, k) <==> k == path || path + "/" <= k
  {
    forall k: Path
      ensures Under(path, k) <==> k == path || path + "/" <= k
    {
      var prefix := path + "/";
      if prefix <= k {
        assert k[..|path|] == prefix[..|path|] == path && k[|path|] == prefix[|path|];
      }
      if |path| < |k| && k[..|path|] == path && k[|path|] == '/' {
        assert k[..|prefix|] == prefix;
      }
    }
  }

  /** The scan finds every key with the prefix and no other. */
  lemma ScanExact(s: seq<Path>, prefix: Path, start: nat, end: nat)
    requires Sorted(s) && start <= end <= |s|
    requires forall j: nat :: j < start ==> Less(s[j], prefix)
    requires start < |s| ==> !Less(s[start], prefix)
    requires forall j: nat :: start <= j < end ==> prefix <= s[j]
    requires end < |s| ==> !(prefix <= s[end])
    ensures forall j: nat :: j < |s| ==> (prefix <= s[j] <==> start <= j < end)
    ensures forall k :: k in s[start..end] <==> k in s && prefix <= k
  {
    forall j: nat | j < |s|
      ensures prefix <= s[j] <==> start <= j < end
    {
      if j < start {
        if prefix <= s[j] {
          PrefixNotBefore(prefix, s[j]);
        }
      } else if end < j && prefix <= s[j] {
        LessTotal(s[start], s[end]);
        if Less(s[end], prefix) {
          LessTotal(s[end], prefix);
          if start < end {
            LessTransitive(s[start], s[end], prefix);
          }
        }
        PrefixInterval(prefix, s[end], s[j]);
      }
    }
  }

  // ------------------------------------------------------------------ relabelling

  /** The new name of a path in the renamed subtree, and back. */
  function Moved(from: Path, to: Path, k: Path): Path
    requires Under(from, k)
  {
    to + k[|from|..]
  }

  lemma MovedBack(from: Path, to: Path, k: Path)
    requires Under(from, k)
    ensures Under(to, Moved(from, to, k)) && Moved(to, from, Moved(from, to, k)) == k
  {
    var q := Moved(from, to, k);
    assert q[|to|..] == k[|from|..] && q[..|to|] == to;
    assert from + k[|from|..] == k;
  }

  /** The subtree at `from` under its new name, without what was at or under `to`. */
  function Relabel<V>(m: map<Path, V>, from: Path, to: Path): (r: map<Path, V>)
    ensures forall k <- m | !Under(from, k) && !Under(to, k) :: k in r && r[k] == m[k]
    ensures forall k <- m | Under(from, k) && !Under(to, k) :: Moved(from, to, k) in r && r[Moved(from, to, k)] == m[k]
    ensures forall q <- r ::
      if Under(to, q) then Moved(to, from, q) in m && !Under(to, Moved(to, from, q)) &&
      Under(from, Moved(to, from, q)) else q in m && !Under(from, q)
  {
    var stay := set k <- m | !Under(from, k) && !Under(to, k);
    var move := set k <- m | Under(from, k) && !Under(to, k) :: Moved(from, to, k);
    assert forall k <- m | Under(from, k) && !Under(to, k) ::
      Under(to, Moved(from, to, k)) && Moved(to, from, Moved(from, to, k)) == k by {
      forall k <- m | Under(from, k) && !Under(to, k)
        ensures Under(to, Moved(from, to, k)) && Moved(to, from, Moved(from, to, k)) == k
      {
        MovedBack(from, to, k);
      }
    }
    map q | q in stay + move :: if Under(to, q) then m[Moved(to, from, q)] else m[q]
  }

  function Pruned<V>(m: map<Path, V>, path: Path): map<Path, V> {
    map k <- m | !Under(path, k) :: m[k]
  }

  /** Drops the subtree, key by key. */
  method RemoveSubtree<V>(m: map<Path, V>, path: Path) returns (r: map<Path, V>)
    ensures r == Pruned(m, path)
  {
    var keys := SubtreeKeys(m, path);
    r := m;
    for i := 0 to |keys|
      invariant r == map k <- m | k !in keys[..i] :: m[k]
    {
      r := r - {keys[i]};
    }
    assert keys[..|keys|] == keys;
  }

  /** What the loop has made of the map after the keys in `done`. */
  predicate Partly<V(==)>(m: map<Path, V>, r: map<Path, V>, from: Path, to: Path, done: seq<Path>) {
    && (forall k <- m | k !in done :: k in r && r[k] == m[k])
    && (forall k <- done :: k in m && Under(from, k) && Moved(from, to, k) in r && r[Moved(from, to, k)] == m[k])
    && (forall q <- r :: (q in m && q !in done) || (Under(to, q) && Moved(to, from, q) in done))
  }

  /** The two loops over one of the maps: removing what is at the target, then moving the
      subtree's entries one by one. */
  method RelabelEntries<V(==)>(m: map<Path, V>, from: Path, to: Path) returns (r: map<Path, V>)
    ensures r == Relabel(m, from, to)
  {
    hide Partly, Pruned, Relabel;
    r := RemoveSubtree(m, to);
    ghost var pruned := r;
    PrunedHas(m, to);
    var keys := SubtreeKeys(r, from);
    PartlyStart(pruned, from, to, keys);
    for i := 0 to |keys|
      invariant Partly(pruned, r, from, to, keys[..i])
    {
      PartlyStep(pruned, r, from, to, keys, i);
      var value := r[keys[i]];
      r := r - {keys[i]};
      r := r[Moved(from, to, keys[i]) := value];
    }
    assert keys[..|keys|] == keys;
    RelabelDone(m, r, from, to, keys);
  }

  /** What is left is all but the path and what begins with it and a slash. */
  lemma PrunedExactly<V>(m: map<Path, V>, path: Path)
    ensures forall k: Path :: k in Pruned(m, path) <==> k in m && k != path && !(path + "/" <= k)
    ensures forall k <- Pruned(m, path) :: Pruned(m, path)[k] == m[k]
  {
    forall k: Path
      ensures Under(path, k) <==> k == path || path + "/" <= k
    {
      UnderExactly(path, k);
    }
  }

  lemma PrunedHas<V>(m: map<Path, V>, path: Path)
    ensures forall k <- Pruned(m, path) :: !Under(path, k)
  {
  }

  lemma PartlyStart<V>(m: map<Path, V>, from: Path, to: Path, keys: seq<Path>)
    ensures Partly(m, m, from, to, keys[..0])
  {
  }

  lemma NotDoneYet(keys: seq<Path>, i: nat)
    requires i < |keys| && Sorted(keys)
    ensures keys[i] !in keys[..i] && keys[..i + 1] == keys[..i] + [keys[i]]
  {
    forall j: nat | j < i
      ensures keys[j] != keys[i]
    {
      LessTotal(keys[j], keys[i]);
    }
  }

  lemma PartlyStep<V>(m: map<Path, V>, r: map<Path, V>, from: Path, to: Path, keys: seq<Path>, i: nat)
    requires i < |keys| && Sorted(keys) && (forall k <- m :: !Under(to, k)) &&
      (forall k <- keys :: k in m && Under(from, k))
    requires Partly(m, r, from, to, keys[..i])
    ensures keys[i] in m && keys[i] in r && r[keys[i]] == m[keys[i]]
    ensures Moved(from, to, keys[i]) !in r
    ensures Partly(m, (r - {keys[i]})[Moved(from, to, keys[i]) := m[keys[i]]], from, to, keys[..i + 1])
  {
    hide Moved, Under, Less;
    var k, done := keys[i], keys[..i];
    NotDoneYet(keys, i);
    assert k in keys;
    MovedBack(from, to, k);
    forall d <- done
      ensures d in keys && Moved(from, to, d) != k && Moved(from, to, d) != Moved(from, to, k)
    {
      MovedBack(from, to, d);
    }
    PartlyOne(m, r, from, to, done, k);
  }

  lemma PartlyOne<V>(m: map<Path, V>, r: map<Path, V>, from: Path, to: Path, done: seq<Path>, k: Path)
    requires k in m && k in r && k !in done && Under(from, k) && !Under(to, k) && Partly(m, r, from, to, done)
    requires Under(to, Moved(from, to, k)) && Moved(to, from, Moved(from, to, k)) == k && Moved(from, to, k) !in m
    requires forall d <- done :: Under(from, d) && Moved(from, to, d) != k && Moved(from, to, d) != Moved(from, to, k)
    ensures Partly(m, (r - {k})[Moved(from, to, k) := m[k]], from, to, done + [k])
  {
    hide Moved, Under;
  }

  lemma RelabelDone<V>(m: map<Path, V>, r: map<Path, V>, from: Path, to: Path, keys: seq<Path>)
    requires Partly(Pruned(m, to), r, from, to, keys)
    requires forall k :: k in keys <==> k in Pruned(m, to) && Under(from, k)
    ensures r == Relabel(m, from, to)
  {
    hide Moved;
    var x := Relabel(m, from, to);
    forall q <- r
      ensures q in x && x[q] == r[q]
    {
      if q !in Pruned(m, to) || q in keys {
        var k := Moved(to, from, q);
        MovedBack(to, from, q);
        assert k in keys;
      }
    }
    forall q <- x
      ensures q in r
    {
      if Under(to, q) {
        var k := Moved(to, from, q);
        MovedBack(to, from, q);
        assert k in keys;
      }
    }
  }

  /** Renaming a path onto itself forgets everything under it; otherwise what was under the path
      is kept, under its new name, if and only if it was not also under the target. */
  lemma RelabelKeepsExactly<V>(m: map<Path, V>, from: Path, to: Path, k: Path)
    requires k in m && Under(from, k)
    ensures Moved(from, to, k) in Relabel(m, from, to) <==> !Under(to, k)
    ensures !Under(to, k) ==> Relabel(m, from, to)[Moved(from, to, k)] == m[k]
    ensures from == to ==> forall q <- Relabel(m, from, to) :: !Under(from, q)
  {
    MovedBack(from, to, k);
    forall q <- Relabel(m, from, to) | from == to
      ensures !Under(from, q)
    {
    }
  }

  // ------------------------------------------------------------------ inode numbers

  const ROOT_INO: nat := 1

  /** Are the two maps each other's inverse? */
  predicate Inverse(byPath: map<Path, nat>, byIno: map<nat, Path>) {
    && (forall p <- byPath :: byPath[p] in byIno && byIno[byPath[p]] == p)
    && (forall i <- byIno :: byIno[i] in byPath && byPath[byIno[i]] == i)
  }

  lemma InverseDrop(byPath: map<Path, nat>, byIno: map<nat, Path>, k: Path)
    requires Inverse(byPath, byIno) && k in byPath
    ensures Inverse(byPath - {k}, byIno - {byPath[k]})
  {
  }

  lemma InverseMove(byPath: map<Path, nat>, byIno: map<nat, Path>, k: Path, moved: Path)
    requires Inverse(byPath, byIno) && k in byPath && moved !in byPath
    ensures Inverse((byPath - {k})[moved := byPath[k]], byIno[byPath[k] := moved])
  {
  }

  class Inodes {
    var byPath: map<Path, nat>
    var byIno: map<nat, Path>
    var next: nat

    /** The maps are mutual inverses, and every number in use was handed out before `next`,
        from the root's on. */
    ghost predicate Valid()
      reads this
    {
      Inverse(byPath, byIno) && ROOT_INO < next && forall i <- byIno :: ROOT_INO <= i < next
    }

    constructor ()
      ensures Valid() && byPath == map["" := ROOT_INO] && next == ROOT_INO + 1
    {
      byPath, byIno, next := map["" := ROOT_INO], map[ROOT_INO := ""], ROOT_INO + 1;
    }

    function View(): Numbers
      reads this
    {
      Numbers(byPath, next)
    }

    /** The number of a path; a new one has never been handed out before. */
    method Ino(path: Path) returns (ino: nat)
      requires Valid()
      modifies this
      ensures Valid() && byPath == old(byPath)[path := ino]
      ensures path in old(byPath) ==> ino == old(byPath)[path] && next == old(next) && byIno == old(byIno)
      ensures path !in old(byPath) ==> ino == old(next) && next == ino + 1
    {
      if path in byPath {
        assert byPath[path := byPath[path]] == byPath;
        return byPath[path];
      }
      ino := next;
      next := next + 1;
      byPath := byPath[path := ino];
      byIno := byIno[ino := path];
    }

    method RemoveTree(path: Path)
      requires Valid()
      modifies `byPath, `byIno
      ensures Valid() && byPath == Pruned(old(byPath), path)
      ensures forall i <- byIno :: i in old(byIno) && byIno[i] == old(byIno)[i]
    {
      var keys := SubtreeKeys(byPath, path);
      for i := 0 to |keys|
        invariant Valid()
        invariant byPath == map k <- old(byPath) | k !in keys[..i] :: old(byPath)[k]
        invariant forall i <- byIno :: i in old(byIno) && byIno[i] == old(byIno)[i]
      {
        NotDoneYet(keys, i);
        assert keys[i] in keys;
        InverseDrop(byPath, byIno, keys[i]);
        var ino := byPath[keys[i]];
        byPath := byPath - {keys[i]};
        byIno := byIno - {ino};
      }
      assert keys[..|keys|] == keys;
    }

    /** Relabels the subtree for any two paths, related or not; no number changes or is new. */
    method Rename(from: Path, to: Path)
      requires Valid()
      modifies `byPath, `byIno
      ensures Valid() && byPath == Relabel(old(byPath), from, to)
    {
      hide Partly, Pruned, Relabel, Inverse;
      RemoveTree(to);
      ghost var pruned := byPath;
      PrunedHas(old(byPath), to);
      var keys := SubtreeKeys(byPath, from);
      PartlyStart(pruned, from, to, keys);
      for i := 0 to |keys|
        invariant Inverse(byPath, byIno) && Partly(pruned, byPath, from, to, keys[..i])
        invariant forall i <- byIno :: ROOT_INO <= i < next
      {
        PartlyStep(pruned, byPath, from, to, keys, i);
        var moved := Moved(from, to, keys[i]);
        InverseMove(byPath, byIno, keys[i], moved);
        var ino := byPath[keys[i]];
        assert ROOT_INO <= ino < next by {
          InverseHas(byPath, byIno, keys[i]);
        }
        byPath := byPath - {keys[i]};
        byPath := byPath[moved := ino];
        byIno := byIno[ino := moved];
      }
      assert keys[..|keys|] == keys;
      RelabelDone(old(byPath), byPath, from, to, keys);
    }
  }

  lemma InverseHas(byPath: map<Path, nat>, byIno: map<nat, Path>, k: Path)
    requires Inverse(byPath, byIno) && k in byPath
    ensures byPath[k] in byIno
  {
  }

  datatype InodeOp = Look(path: Path) | Forget(path: Path) | Relabelled(from: Path, to: Path)

  /** The numbers of the paths, and the next new one. */
  datatype Numbers = Numbers(byPath: map<Path, nat>, next: nat)

  function AfterOp(s: Numbers, op: InodeOp): Numbers {
    match op
    case Look(path) => if path in s.byPath then s else Numbers(s.byPath[path := s.next], s.next + 1)
    case Forget(path) => s.(byPath := Pruned(s.byPath, path))
    case Relabelled(from, to) => s.(byPath := Relabel(s.byPath, from, to))
  }

  function AfterOps(s: Numbers, ops: seq<InodeOp>): Numbers {
    if ops == [] then s else AfterOp(AfterOps(s, ops[..|ops| - 1]), ops[|ops| - 1])
  }

  lemma AfterNone(s: Numbers, ops: seq<InodeOp>)
    ensures AfterOps(s, ops[..0]) == s && ops[..|ops|] == ops
  {
  }

  lemma AfterNext(s: Numbers, ops: seq<InodeOp>, k: nat)
    requires k < |ops|
    ensures AfterOps(s, ops[..k + 1]) == AfterOp(AfterOps(s, ops[..k]), ops[k])
  {
    assert ops[..k + 1][..k] == ops[..k];
  }

  /** Over any run of operations on any paths the maps stay mutual inverses, and the numbers
      handed out for new paths are consecutive: none is used twice, whatever was removed. */
  method RunInodes(inodes: Inodes, ops: seq<InodeOp>) returns (issued: seq<nat>)
    requires inodes.Valid()
    modifies inodes
    ensures inodes.Valid() && inodes.View() == AfterOps(old(inodes.View()), ops)
    ensures old(inodes.next) + |issued| == inodes.next
    ensures forall i: nat :: i < |issued| ==> issued[i] == old(inodes.next) + i
  {
    hide Pruned, Relabel, Inverse;
    issued := [];
    for k := 0 to |ops|
      invariant inodes.Valid() && inodes.View() == AfterOps(old(inodes.View()), ops[..k])
      invariant old(inodes.next) + |issued| == inodes.next
      invariant forall i: nat :: i < |issued| ==> issued[i] == old(inodes.next) + i
    {
      AfterNext(old(inodes.View()), ops, k);
      match ops[k]
      case Look(path) =>
        var known := path in inodes.byPath;
        var ino := inodes.Ino(path);
        if !known {
          issued := issued + [ino];
        }
      case Forget(path) => inodes.RemoveTree(path);
      case Relabelled(from, to) => inodes.Rename(from, to);
    }
    assert ops[..|ops|] == ops;
  }

  // ------------------------------------------------------------------ the mount's rename

  datatype Meta = Meta(directory: bool, size: nat, mode: nat)

  /** A cached directory listing. */
  type Listing = seq<(string, Meta)>

  function JoinRel(parent: Path, name: string): Path {
    if parent == "" then name else parent + "/" + name
  }

  /** Joining adds one name to those of the parent. */
  lemma {:induction false} JoinNames(parent: Path, name: string)
    requires '/' !in name
    ensures Parts(JoinRel(parent, name)) == (if parent == "" then [] else Parts(parent)) + [name]
  {
    if parent == "" {
      PartsUnique([name]);
    } else {
      PartsJoin(parent);
      JoinedSnoc(Parts(parent), name);
      PartsUnique(Parts(parent) + [name]);
    }
  }

  lemma {:induction false} JoinedSnoc(names: seq<string>, name: string)
    requires names != []
    ensures Joined(names + [name]) == Joined(names) + "/" + name
  {
    if |names| > 1 {
      assert (names + [name])[1..] == names[1..] + [name];
      JoinedSnoc(names[1..], name);
    } else {
      assert (names + [name])[1..] == [name];
    }
  }

  /** The part before the last slash, and the part after it. */
  function SplitParent(path: Path): (Path, string) {
    if path == "" then
      ("", "")
    else if path[|path| - 1] == '/' then
      (path[..|path| - 1], "")
    else
      var s := SplitParent(path[..|path| - 1]);
      (s.0, s.1 + [path[|path| - 1]])
  }

  lemma SplitJoin(parent: Path, name: string)
    requires '/' !in name
    ensures name != "" ==> SplitParent(JoinRel(parent, name)) == (parent, name)
    ensures parent != "" ==> SplitParent(parent + "/" + name) == (parent, name)
    ensures SplitParent(name) == ("", name)
  {
    SplitName(name);
    SplitSlash(parent, name);
    hide SplitParent;
  }

  lemma {:induction false} SplitName(name: string)
    requires '/' !in name
    ensures SplitParent(name) == ("", name)
  {
    if name != "" {
      var init, last := name[..|name| - 1], name[|name| - 1];
      SplitName(init);
      SplitSnoc(init, last);
      hide SplitParent;
      assert name == init + [last];
    }
  }

  lemma {:induction false} SplitSlash(parent: Path, name: string)
    requires '/' !in name
    ensures SplitParent(parent + "/" + name) == (parent, name)
  {
    if name == "" {
      assert (parent + "/")[..|parent|] == parent;
      assert parent + "/" + name == parent + "/";
    } else {
      var init, last := name[..|name| - 1], name[|name| - 1];
      SplitSlash(parent, init);
      SplitSnoc(parent + "/" + init, last);
      hide SplitParent;
      assert name == init + [last];
      assert parent + "/" + name == parent + "/" + init + [last];
    }
  }

  lemma SplitSnoc(path: Path, last: char)
    requires last != '/'
    ensures SplitParent(path + [last]) == (SplitParent(path).0, SplitParent(path).1 + [last])
  {
    assert (path + [last])[..|path|] == path;
  }

  /** The entries with other names. */
  function Retain(entries: Listing, name: string): (r: Listing)
    ensures Count(r, name) == 0
  {
    if entries == [] then
      []
    else
      var rest := Retain(entries[..|entries| - 1], name);
      var last := entries[|entries| - 1];
      assert (rest + [last])[..|rest|] == rest;
      if last.0 == name then rest else rest + [last]
  }

  /** These are just the entries with other names, as they are and in their order. */
  lemma {:induction false} RetainExactly(entries: Listing, name: string) returns (kept: seq<nat>)
    ensures |kept| == |Retain(entries, name)|
    ensures forall i: nat :: i < |kept| ==>
      kept[i] < |entries| && entries[kept[i]].0 != name && Retain(entries, name)[i] == entries[kept[i]]
    ensures forall i: nat, j: nat :: i < j < |kept| ==> kept[i] < kept[j]
    ensures forall k: nat {:trigger k in kept} :: k < |entries| && entries[k].0 != name ==> k in kept
  {
    if entries == [] {
      kept := [];
    } else {
      var n := |entries| - 1;
      hide Retain, Count;
      kept := RetainExactly(entries[..n], name);
      RetainNext(entries, name);
      if entries[n].0 != name {
        kept := kept + [n];
      }
    }
  }

  lemma RetainNext(entries: Listing, name: string)
    requires entries != []
    ensures var n := |entries| - 1; var rest := Retain(entries[..n], name);
      Retain(entries, name) == if entries[n].0 != name then rest + [entries[n]] else rest
  {
  }

  function Count(entries: Listing, name: string): nat {
    if entries == [] then
      0
    else
      Count(entries[..|entries| - 1], name) + if entries[|entries| - 1].0 == name then 1 else 0
  }

  lemma {:induction false} RetainOthers(entries: Listing, name: string, other: string)
    requires name != other
    ensures Count(Retain(entries, name), other) == Count(entries, other)
  {
    if entries != [] {
      RetainOthers(entries[..|entries| - 1], name, other);
      var rest, last := Retain(entries[..|entries| - 1], name), entries[|entries| - 1];
      assert (rest + [last])[..|rest|] == rest;
    }
  }

  class Names {
    const inodes: Inodes
    var metas: map<Path, Meta>
    var dirs: map<Path, Listing>

    constructor (inodes: Inodes)
      ensures this.inodes == inodes && metas == map[] && dirs == map[]
    {
      this.inodes, metas, dirs := inodes, map[], map[];
    }

    /** Puts the entry into its parent's listing, if that is cached, in place of any other of its
        name. */
    method DirUpsert(path: Path, meta: Meta)
      modifies `dirs
      ensures var (parent, name) := SplitParent(path);
        dirs == if parent in old(dirs) then old(dirs)[parent := Retain(old(dirs)[parent], name) + [(name, meta)]]
          else old(dirs)
    {
      var (parent, name) := SplitParent(path);
      if parent in dirs {
        var entries := RetainLoop(dirs[parent], name);
        entries := entries + [(name, meta)];
        dirs := dirs[parent := entries];
      }
    }

    /** Takes the entry out of its parent's listing and forgets the listings at and under it. */
    method DirRemove(path: Path)
      modifies `dirs
      ensures var (parent, name) := SplitParent(path);
        dirs == Pruned(if parent in old(dirs) then old(dirs)[parent := Retain(old(dirs)[parent], name)]
          else old(dirs), path)
    {
      var (parent, name) := SplitParent(path);
      if parent in dirs {
        var entries := RetainLoop(dirs[parent], name);
        dirs := dirs[parent := entries];
      }
      dirs := RemoveSubtree(dirs, path);
    }

    /** The local half of a rename.  All three maps are relabelled by the same subtree map; then
        the parents' listings follow. */
    method Rename(parent: Path, name: string, newParent: Path, newName: string)
      requires inodes.Valid() && name != "" && newName != "" && '/' !in name && '/' !in newName
      modifies this, inodes
      ensures inodes.Valid()
      ensures inodes.byPath == Relabel(old(inodes.byPath), JoinRel(parent, name), JoinRel(newParent, newName))
      ensures metas == Relabel(old(metas), JoinRel(parent, name), JoinRel(newParent, newName))
      ensures dirs == Relisted(Relabel(old(dirs), JoinRel(parent, name), JoinRel(newParent, newName)), parent, name,
        newParent, newName,
                               if JoinRel(newParent, newName) in metas then Some(metas[JoinRel(newParent, newName)])
                                 else None)
    {
      hide Relabel, Retain, SplitParent, Pruned;
      var from, to := JoinRel(parent, name), JoinRel(newParent, newName);
      SplitJoin(parent, name);
      SplitJoin(newParent, newName);
      var relabelled := RelabelEntries(metas, from, to);
      metas := relabelled;
      var listings := RelabelEntries(dirs, from, to);
      dirs := listings;
      inodes.Rename(from, to);
      DirRemove(from);
      if to in metas {
        DirUpsert(to, metas[to]);
      } else {
        dirs := dirs - {newParent};
      }
    }
  }

  /** The listings after both parents' entries have been brought up to date. */
  function Relisted(dirs: map<Path, Listing>, parent: Path, name: string, newParent: Path, newName: string,
      meta: Option<Meta>): map<Path, Listing> {
    var removed := Pruned(if parent in dirs then dirs[parent := Retain(dirs[parent], name)]
      else dirs, JoinRel(parent, name));
    if meta == None then
      removed - {newParent}
    else if newParent in removed then
      removed[newParent := Retain(removed[newParent], newName) + [(newName, meta.value)]]
    else
      removed
  }

  /** After relabelling there is nothing left to forget under the old path. */
  lemma NothingLeft(dirs: map<Path, Listing>, before: map<Path, Listing>, from: Path, to: Path, parent: Path,
      name: string)
    requires dirs == Relabel(before, from, to) && !Under(from, to) && !Under(to, from)
    requires name != "" && '/' !in name && from == JoinRel(parent, name)
    ensures var removed := if parent in dirs then dirs[parent := Retain(dirs[parent], name)] else dirs;
      Pruned(removed, from) == removed
  {
    ParentOutside(from, to, parent, name);
    RelabelledAway(before, from, to);
  }

  lemma RelabelledAway<V>(m: map<Path, V>, from: Path, to: Path)
    requires !Under(from, to) && !Under(to, from)
    ensures forall q <- Relabel(m, from, to) :: !Under(from, q)
  {
    forall q <- Relabel(m, from, to) | Under(to, q)
      ensures !Under(from, q)
    {
      if Under(from, q) {
        if |from| <= |to| {
          UnderChain(from, to, q);
        } else {
          UnderChain(to, from, q);
        }
      }
    }
  }

  /** A directory is not under its own entry, nor under a path unrelated to that entry. */
  lemma ParentOutside(path: Path, other: Path, parent: Path, name: string)
    requires name != "" && '/' !in name && path == JoinRel(parent, name)
    requires !Under(other, path)
    ensures !Under(path, parent) && (other != "" ==> !Under(other, parent))
  {
    if parent != "" {
      assert (parent + "/" + name)[..|parent|] == parent;
      assert Under(parent, path);
      if Under(other, parent) {
        UnderTransitive(other, parent, path);
      }
    }
  }

  /** After a rename between unrelated paths the target's parent, if its listing is still cached,
      lists the new name exactly once, with the moved metadata; the source's parent does not list
      the old name; every other name of either is listed as often as before; every other listing
      is the one cached before, under its new path. */
  lemma RenamedListings(before: map<Path, Listing>, after: map<Path, Listing>, parent: Path, name: string,
      newParent: Path, newName: string, meta: Option<Meta>, other: string)
    requires name != "" && newName != "" && '/' !in name && '/' !in newName
    requires !Under(JoinRel(parent, name), JoinRel(newParent, newName)) &&
      !Under(JoinRel(newParent, newName), JoinRel(parent, name))
    requires after == Relisted(Relabel(before, JoinRel(parent, name), JoinRel(newParent, newName)), parent, name,
      newParent, newName, meta)
    ensures newParent in after <==> newParent in before && meta.Some?
    ensures newParent in after ==> Count(after[newParent], newName) == 1 && (newName, meta.value) in after[newParent]
    ensures parent in after <==> parent in before && (parent == newParent ==> meta.Some?)
    ensures parent in after ==> Count(after[parent], name) == 0
    ensures parent in after && other != name && (other != newName || parent != newParent) ==>
      Count(after[parent], other) == Count(before[parent], other)
    ensures newParent in after && other != newName && (other != name || parent != newParent) ==>
      Count(after[newParent], other) == Count(before[newParent], other)
    ensures forall q <- after | q != parent && q != newParent ::
      after[q] == Relabel(before, JoinRel(parent, name), JoinRel(newParent, newName))[q]
  {
    hide Relabel, Under, Moved;
    var from, to := JoinRel(parent, name), JoinRel(newParent, newName);
    var d := Relabel(before, from, to);
    ParentOutside(from, to, parent, name);
    ParentOutside(to, from, newParent, newName);
    ParentKept(before, from, to, parent);
    ParentKept(before, from, to, newParent);
    UnderSelf(from);
    NothingLeft(d, before, from, to, parent, name);
    hide Pruned;
    RelistedCounts(d, parent, name, newParent, newName, meta, other);
  }

  lemma RelistedCounts(d: map<Path, Listing>, parent: Path, name: string, newParent: Path, newName: string,
      meta: Option<Meta>, other: string)
    requires parent != newParent || name != newName
    requires var removed := if parent in d then d[parent := Retain(d[parent], name)]
      else d; Pruned(removed, JoinRel(parent, name)) == removed
    ensures var after := Relisted(d, parent, name, newParent, newName, meta);
      && (newParent in after <==> newParent in d && meta.Some?)
      && (newParent in after ==> Count(after[newParent], newName) == 1 && (newName, meta.value) in after[newParent])
      && (parent in after <==> parent in d && (parent == newParent ==> meta.Some?))
      && (parent in after ==> Count(after[parent], name) == 0)
      && (parent in after && other != name && (other != newName || parent != newParent) ==>
        Count(after[parent], other) == Count(d[parent], other))
      && (newParent in after && other != newName && (other != name || parent != newParent) ==>
        Count(after[newParent], other) == Count(d[newParent], other))
      && (forall q <- after | q != parent && q != newParent :: q in d && after[q] == d[q])
  {
    hide Count, Retain, Pruned;
    if parent in d {
      RetainCounts(d[parent], name, other);
      if meta.Some? {
        Appended(Retain(d[parent], name), newName, meta.value, other);
        Appended(Retain(d[parent], name), newName, meta.value, name);
      }
    }
    if newParent in d && meta.Some? {
      Appended(d[newParent], newName, meta.value, other);
    }
  }

  lemma RetainCounts(entries: Listing, name: string, other: string)
    ensures Count(Retain(entries, name), name) == 0
    ensures other != name ==> Count(Retain(entries, name), other) == Count(entries, other)
  {
    if other != name {
      RetainOthers(entries, name, other);
    }
  }

  lemma UnderSelf(p: Path)
    ensures Under(p, p)
  {
  }

  lemma ParentKept<V>(m: map<Path, V>, from: Path, to: Path, parent: Path)
    requires !Under(from, parent) && !Under(to, parent)
    ensures parent in Relabel(m, from, to) <==> parent in m
    ensures parent in m ==> Relabel(m, from, to)[parent] == m[parent]
  {
  }

  /** Replacing the entries of one name by a new last one. */
  lemma Appended(entries: Listing, newName: string, meta: Meta, other: string)
    ensures var r := Retain(entries, newName) + [(newName, meta)];
      && Count(r, newName) == 1
      && (newName, meta) in r
      && (other != newName ==> Count(r, other) == Count(entries, other))
  {
    var rest := Retain(entries, newName);
    assert (rest + [(newName, meta)])[..|rest|] == rest;
    if other != newName {
      RetainOthers(entries, newName, other);
    }
  }

  method RetainLoop(entries: Listing, name: string) returns (r: Listing)
    ensures r == Retain(entries, name)
  {
    r := [];
    for i := 0 to |entries|
      invariant r == Retain(entries[..i], name)
    {
      assert entries[..i + 1][..i] == entries[..i];
      if entries[i].0 != name {
        r := r + [entries[i]];
      }
    }
    assert entries[..|entries|] == entries;
  }
}
