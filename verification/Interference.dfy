/** Which requests of other clients may come between a cut attempt at a write and the one that goes
    through: exactly those that leave the tree as if there had been no cut attempt, in all trees. */
module Interference {
  import opened Bytes
  import opened Trees
  import opened Wrappers
  import opened RequestLog
  import opened CutWrites

  const ID: OpId := (0, 0)

  /** An attempt that is cut after k bytes. */
  function Cut(p: Rel, offset: nat, data: File, k: nat): Entry
    requires k <= |data|
  {
    Entry(ID, Stream(p, offset, |data|), data[..k], false)
  }

  /** If the write goes through in the end, is the tree the one without the cut attempt? */
  predicate Absorbed(t: Tree, e: Entry, p: Rel, offset: nat, data: File, k: nat) {
    k <= |data| ==>
      var v := Effect(Effect(t, Cut(p, offset, data, k)), e);
      var whole := Whole(ID, Write(p, offset, data));
      OpenFile(v, p).ok ==> Effect(v, whole) == Effect(Effect(t, e), whole)
  }

  /** Is it so in every tree, or in every tree that has p? */
  ghost predicate AlwaysAbsorbed(e: Entry, p: Rel, present: bool) {
    forall t: Tree, offset: nat, data: File, k: nat ::
      Rooted(t) && (present ==> p in t) ==> Absorbed(t, e, p, offset, data, k)
  }

  /** In trees that may or may not have the file a request is harmless if and only if it is beside
      the write. */
  lemma BesideExactly(e: Entry, p: Rel)
    requires p != []
    ensures AlwaysAbsorbed(e, p, false) <==> Beside(e.action, p, false)
  {
    hide Absorbed;
    if Beside(e.action, p, false) {
      forall t: Tree, offset: nat, data: File, k: nat | Rooted(t)
        ensures Absorbed(t, e, p, offset, data, k)
      {
        BesideAbsorbed(t, e, p, offset, data, k, false);
      }
    } else {
      var t := Harm(e, p);
      assert !Absorbed(t, e, p, 0, [], 0);
    }
  }

  /** Where the file is there, it is harmless if and only if it does not move the file away. */
  lemma BesidePresentExactly(e: Entry, p: Rel)
    requires p != []
    ensures AlwaysAbsorbed(e, p, true) <==> !MovesAway(e.action, p)
    ensures Beside(e.action, p, true) ==> !MovesAway(e.action, p)
  {
    hide Absorbed;
    if MovesAway(e.action, p) {
      var t := MovedHarm(e, p);
      assert !Absorbed(t, e, p, 0, [1], 1);
    } else {
      var stays := !(e.action.Mutate? && e.action.op.Remove?);
      forall t: Tree, offset: nat, data: File, k: nat | Rooted(t) && p in t
        ensures Absorbed(t, e, p, offset, data, k)
      {
        BesideAbsorbed(t, e, p, offset, data, k, stays);
      }
    }
  }

  predicate MovesAway(a: Action, p: Rel) {
    a.Mutate? && a.op.Rename? && a.op.from <= p && Apart(a.op.from, a.op.to)
  }

  lemma BesideAbsorbed(t: Tree, e: Entry, p: Rel, offset: nat, data: File, k: nat, stays: bool)
    requires Rooted(t) && (stays ==> p in t) && Beside(e.action, p, stays)
    ensures Absorbed(t, e, p, offset, data, k)
  {
    hide Effect, OpenFile, Rooted, Beside, Alike;
    if k <= |data| {
      var cut, whole := Cut(p, offset, data, k), Whole(ID, Write(p, offset, data));
      AlikeFirst(t, p, stays, offset, |data|);
      AlikeCut(t, t, cut, p, stays, offset, data);
      AlikeForeign(Effect(t, cut), t, e, p, stays, offset, |data|);
      if OpenFile(Effect(Effect(t, cut), e), p).ok {
        AlikeWhole(Effect(Effect(t, cut), e), Effect(t, e), whole, p, stays, offset, data);
      }
    }
  }

  // ------------------------------------------------------------------ the trees that show harm

  /** Just the file, empty, and the directories above it. */
  function Bare(p: Rel): Tree {
    OpenFile(map[], p).tree
  }

  lemma BareIs(p: Rel)
    requires p != []
    ensures Rooted(Bare(p)) && OpenFile(map[], p).ok && OpenFile(Bare(p), p) == Outcome(Bare(p), true)
    ensures forall k: Rel :: k in Bare(p) <==> k <= p && k != []
    ensures forall k <- Bare(p) :: Bare(p)[k] == if k == p then NEW_FILE else NEW_DIRECTORY
    ensures Effect(map[], Cut(p, 0, [], 0)) == Bare(p)
  {
    var t: Tree := map[];
    MakeDirsIs(t, Parent(p));
    OpenRooted(t, p);
    StandsIn(Bare(p), p);
    var v := Bare(p);
    forall k: Rel
      ensures k in v <==> k <= p && k != []
    {
      PrefixOfParent(k, p);
    }
    assert WriteAt([], 0, []) == [];
    hide MakeDirs;
    assert v[p := v[p]] == v;
  }

  /** The write of nothing: it opens the file, and changes nothing but p and the way to it. */
  lemma WholeAt(t: Tree, e: Entry, p: Rel, offset: nat, data: File)
    requires Rooted(t) && Attempts(e, Write(p, offset, data))
    ensures !OpenFile(t, p).ok ==> Effect(t, e) == t
    ensures forall k: Rel :: !(k <= p) ==> (k in Effect(t, e) <==> k in t)
    ensures forall k <- t :: k != p ==> k in Effect(t, e) && Effect(t, e)[k] == t[k]
    ensures p in t && t[p].Regular? && OpenFile(t, p).ok ==>
      p in Effect(t, e) && Effect(t, e)[p] == t[p].(data := WriteAt(t[p].data, offset, e.bytes))
  {
    OpenRooted(t, p);
    if OpenFile(t, p).ok {
      CutEffect(t, e, p, offset, data);
    }
    hide OpenFile;
  }

  lemma Opens(t: Tree, p: Rel)
    requires Rooted(t) && p != [] && (forall k <- t :: k < p && k != [] ==> t[k].Directory?) &&
      (p in t ==> t[p].Regular?)
    ensures OpenFile(t, p).ok
  {
    MakeDirsIs(t, Parent(p));
    StandsIn(t, p);
    forall k <- t | k <= Parent(p) && k != []
      ensures t[k].Directory?
    {
      PrefixOfParent(k, p);
    }
    hide MakeDirs;
  }

  /** A directory made below the file, where there is none yet: a cut attempt forestalls it. */
  lemma BelowHarm(e: Entry, p: Rel)
    requires p != [] && Effect(Bare(p), e) == Bare(p)
    requires var y := Effect(map[], e); Rooted(y) && p in y && y[p].Directory?
    ensures !Absorbed(map[], e, p, 0, [], 0)
  {
    BareIs(p);
    var whole := Whole(ID, Write(p, 0, []));
    var y := Effect(map[], e);
    WholeAt(Bare(p), whole, p, 0, []);
    WholeAt(y, whole, p, 0, []);
    StandsIn(y, p);
    assert !OpenFile(y, p).ok;
    hide OpenFile, Effect, WriteAt;
  }

  /** Something else than a directory made above the file. */
  lemma AboveHarm(e: Entry, p: Rel, q: Rel)
    requires q < p && q != [] && Effect(Bare(p), e) == Bare(p)
    requires var y := Effect(map[], e); Rooted(y) && q in y && !y[q].Directory?
    ensures !Absorbed(map[], e, p, 0, [], 0)
  {
    BareIs(p);
    var whole := Whole(ID, Write(p, 0, []));
    var y := Effect(map[], e);
    WholeAt(Bare(p), whole, p, 0, []);
    WholeAt(y, whole, p, 0, []);
    MakeDirsIs(y, Parent(p));
    PrefixOfParent(q, p);
    assert !OpenFile(y, p).ok;
    hide OpenFile, Effect, WriteAt, MakeDirs;
    assert q in Bare(p) && Bare(p)[q] == NEW_DIRECTORY;
  }

  /** What `create_dir_all` does where there is nothing, and where there is just the file. */
  lemma Ways(p: Rel, d: Rel)
    requires p != []
    ensures MakeDirs(map[], d).ok && Rooted(MakeDirs(map[], d).tree)
    ensures forall k: Rel :: k in MakeDirs(map[], d).tree <==> k <= d && k != []
    ensures forall k <- MakeDirs(map[], d).tree :: MakeDirs(map[], d).tree[k] == NEW_DIRECTORY
    ensures MakeDirs(Bare(p), d).ok <==> !(p <= d)
    ensures p <= d ==> MakeDirs(Bare(p), d).tree == Bare(p)
    ensures d < p ==> MakeDirs(Bare(p), d) == Outcome(Bare(p), true)
  {
    var t: Tree := map[];
    MakeDirsIs(t, d);
    MakeDirsRooted(t, d);
    BareIs(p);
    MakeDirsIs(Bare(p), d);
    if d < p && d != [] {
      assert d in Bare(p);
      RootedChain(Bare(p), d);
      MakeDirsNoop(Bare(p), d);
    }
  }

  lemma OpenHarm(e: Entry, p: Rel, q: Rel)
    requires p != [] && q != [] && q != p && !Apart(q, p)
    requires (e.action.Stream? && e.action.path == q) ||
      (e.action.Mutate? && e.action.op.Truncate? && e.action.op.path == q)
    ensures !Absorbed(map[], e, p, 0, [], 0)
  {
    BareIs(p);
    Ways(p, Parent(q));
    PrefixOfParent(p, q);
    PrefixOfParent(q, q);
    EffectRooted(map[], e);
    hide MakeDirs, WriteAt, Resize, Rooted, Absorbed;
    if p < q {
      BelowHarm(e, p);
    } else {
      ParentBelow(q, p);
      assert q in Bare(p);
      AboveHarm(e, p, q);
    }
  }

  lemma SymlinkHarm(e: Entry, p: Rel, q: Rel)
    requires p != [] && q != [] && q != p && !Apart(q, p)
    requires e.action.Mutate? && e.action.op.MakeSymlink? && e.action.op.path == q
    ensures !Absorbed(map[], e, p, 0, [], 0)
  {
    BareIs(p);
    Ways(p, Parent(q));
    PrefixOfParent(p, q);
    EffectRooted(map[], e);
    hide MakeDirs, WriteAt, Rooted, Absorbed;
    if p < q {
      BelowHarm(e, p);
    } else {
      ParentBelow(q, p);
      assert q in Bare(p);
      AboveHarm(e, p, q);
    }
  }

  lemma MkdirHarm(e: Entry, p: Rel, q: Rel)
    requires p != [] && p <= q && e.action == Mutate(Mkdir(q))
    ensures !Absorbed(map[], e, p, 0, [], 0)
  {
    BareIs(p);
    Ways(p, q);
    EffectRooted(map[], e);
    hide MakeDirs, Rooted, Absorbed;
    BelowHarm(e, p);
  }

  lemma RenameBelowHarm(e: Entry, p: Rel, from: Rel, to: Rel)
    requires p != [] && p < to && e.action == Mutate(Rename(from, to))
    ensures !Absorbed(map[], e, p, 0, [], 0)
  {
    BareIs(p);
    Ways(p, Parent(to));
    PrefixOfParent(p, to);
    EffectRooted(map[], e);
    if from <= Parent(to) {
      PrefixOfParent(from, to);
    }
    hide MakeDirs, Rooted, Absorbed, Move;
    BelowHarm(e, p);
  }

  lemma MetadataHarm(e: Entry, p: Rel, q: Rel, mode: Option<nat>, modified: Option<int>)
    requires p != [] && q <= p && q != [] && e.action == Mutate(SetMetadata(q, mode, modified)) &&
      !SetsNothing(q, p, mode, modified)
    ensures !Absorbed(map[], e, p, 0, [], 0)
  {
    hide OpenFile, Rooted, Bare;
    BareIs(p);
    var whole := Whole(ID, Write(p, 0, []));
    var x := Effect(Bare(p), e);
    EffectRooted(Bare(p), e);
    Opens(x, p);
    WholeAt(x, whole, p, 0, []);
    assert x[q] != Bare(p)[q] && Effect(map[], e) == map[];
    assert q == p ==> WriteAt(x[p].data, 0, []) == x[p].data;
    assert Whole(ID, Write(p, 0, [])).bytes == Cut(p, 0, [], 0).bytes;
    hide Effect, WriteAt;
    SameEffect(map[], whole, Cut(p, 0, [], 0));
  }

  lemma SameEffect(t: Tree, a: Entry, b: Entry)
    requires a.action == b.action && a.bytes == b.bytes
    ensures Effect(t, a) == Effect(t, b)
  {
    hide OpenFile, Perform;
  }

  /** A rename whose target is free. */
  lemma RenameGoes(w: Tree, from: Rel, to: Rel)
    requires Apart(from, to) && MakeDirs(w, Parent(to)).ok && from in w && to !in w
    ensures var above := MakeDirs(w, Parent(to)).tree;
      && Perform(w, Rename(from, to)) == Outcome(Move(above, from, to), true)
      && (forall k: Rel :: k in above <==> k in w || (k <= Parent(to) && k != []))
      && (forall k <- above :: above[k] == if k in w then w[k] else NEW_DIRECTORY)
  {
    MakeDirsIs(w, Parent(to));
    NotItsParent(to);
    hide MakeDirs, Move;
  }

  lemma NotItsParent(to: Rel)
    ensures to != [] ==> !(to <= Parent(to))
  {
  }

  lemma RenameStops(w: Tree, from: Rel, to: Rel)
    requires MakeDirs(w, Parent(to)).ok && from !in MakeDirs(w, Parent(to)).tree
    ensures Perform(w, Rename(from, to)).tree == MakeDirs(w, Parent(to)).tree
  {
    hide MakeDirs;
  }

  /** What a rename to a free path leaves. */
  lemma RenameLeaves(w: Tree, from: Rel, to: Rel)
    requires Apart(from, to) && MakeDirs(w, Parent(to)).ok && from in w && to !in w
    ensures var v := Perform(w, Rename(from, to)).tree;
      && to in v
      && (forall k <- w | from <= k :: Relabel(from, to, k) in v && v[Relabel(from, to, k)] == w[k])
      && (forall k <- v ::
        !(from <= k) && (to <= k || (k in w && v[k] == w[k]) || (k <= Parent(to) && v[k] == NEW_DIRECTORY)))
  {
    hide *;
    RenameGoes(w, from, to);
    ApartPaths(from, to);
    var above := MakeDirs(w, Parent(to)).tree;
    MoveExact(above, from, to);
    RelabelRoot(from, to);
  }

  lemma ApartPaths(from: Rel, to: Rel)
    ensures Apart(from, to) <==> !(from <= to) && !(to <= from)
  {
  }

  /** The file, with whatever is in it, moves away with a directory above it or alone. */
  lemma MovedOff(w: Tree, e: Entry, p: Rel, from: Rel, to: Rel)
    requires p != [] && from <= p && Apart(from, to) && e.action == Mutate(Rename(from, to))
    requires Rooted(w) && (forall k: Rel :: k in w <==> k <= p && k != [])
    requires forall k <- w :: if k == p then w[k].Regular? else w[k].Directory?
    ensures var v := Effect(w, e);
      && Rooted(v) && OpenFile(v, p).ok
      && to in v && Relabel(from, to, p) in v && v[Relabel(from, to, p)] == w[p]
  {
    hide MakeDirs, Rooted, Move, Relabel, Perform, OpenFile;
    WayToTarget(w, p, from, to);
    EffectRooted(w, e);
    RenameLeaves(w, from, to);
    var v := Effect(w, e);
    forall k <- v | k <= p && k != []
      ensures k < p && v[k].Directory?
    {
      assert !(to <= k) && k != p;
    }
    Opens(v, p);
  }

  lemma WayToTarget(w: Tree, p: Rel, from: Rel, to: Rel)
    requires from <= p && Apart(from, to) && (forall k: Rel :: k in w <==> k <= p && k != [])
    requires forall k <- w :: k == p || w[k].Directory?
    ensures MakeDirs(w, Parent(to)).ok && from in w && to !in w
  {
    MakeDirsIs(w, Parent(to));
    hide MakeDirs;
    PrefixOfParent(p, to);
  }

  lemma AwayHarm(e: Entry, p: Rel, from: Rel, to: Rel)
    requires p != [] && from <= p && Apart(from, to) && e.action == Mutate(Rename(from, to))
    ensures !Absorbed(map[], e, p, 0, [], 0)
  {
    hide MakeDirs, Rooted, OpenFile, WriteAt, Relabel, Perform, Bare;
    var whole := Whole(ID, Write(p, 0, []));
    BareIs(p);
    MovedOff(Bare(p), e, p, from, to);
    Ways(p, Parent(to));
    NotItsParent(to);
    PrefixOfParent(from, to);
    RenameStops(map[], from, to);
    var v, y := Effect(Bare(p), e), Effect(map[], e);
    WholeAt(v, whole, p, 0, []);
    WholeAt(y, whole, p, 0, []);
    assert to in Effect(v, whole) && to !in Effect(y, whole);
    hide Effect;
  }

  /** Replacing a directory above the file, or what will be the file: it succeeds only before. */
  lemma OntoHarm(e: Entry, p: Rel, from: Rel, to: Rel) returns (t: Tree)
    requires p != [] && !(from <= p) && to <= p && Apart(from, to) && e.action == Mutate(Rename(from, to))
    ensures Rooted(t) && !Absorbed(t, e, p, 0, [], 0)
  {
    var cut, whole := Cut(p, 0, [], 0), Whole(ID, Write(p, 0, []));
    Ways(p, from);
    t := MakeDirs(map[], from).tree;
    assert p !in t;
    Opens(t, p);
    CutEffect(t, cut, p, 0, []);
    EffectRooted(t, cut);
    var v, y := Effect(t, cut), Effect(t, e);
    Refused(v, e, p, from, to);
    Opens(v, p);
    WholeAt(v, whole, p, 0, []);
    Replaced(t, e, from, to);
    EffectRooted(t, e);
    WholeAt(y, whole, p, 0, []);
    hide MakeDirs, Rooted, OpenFile, Effect, WriteAt;
    assert from in Effect(v, whole) && from !in Effect(y, whole);
  }

  lemma Refused(v: Tree, e: Entry, p: Rel, from: Rel, to: Rel)
    requires Rooted(v) && from in v && v[from].Directory? && p in v && v[p].Regular?
    requires to <= p && Apart(from, to) && e.action == Mutate(Rename(from, to))
    ensures Effect(v, e) == v
  {
    AboveIsThere(v, to, p);
    StandsIn(v, to);
    hide MakeDirs, Rooted, Move;
    assert to == p || to < p;
    assert to < p ==> HasChild(v, to);
  }

  lemma Replaced(t: Tree, e: Entry, from: Rel, to: Rel)
    requires Apart(from, to) && e.action == Mutate(Rename(from, to)) && t == MakeDirs(map[], from).tree
    requires Rooted(t) && (forall k: Rel :: k in t <==> k <= from && k != []) && forall k <- t :: t[k] == NEW_DIRECTORY
    ensures from !in Effect(t, e)
  {
    hide MakeDirs, Rooted, Relabel, Perform;
    MakeDirsIs(t, Parent(to));
    RenameLeaves(t, from, to);
  }

  /** Where the file is there, what a cut attempt wrote goes with it. */
  lemma MovedHarm(e: Entry, p: Rel) returns (t: Tree)
    requires p != [] && MovesAway(e.action, p)
    ensures Rooted(t) && p in t && !Absorbed(t, e, p, 0, [1], 1)
  {
    var from, to := e.action.op.from, e.action.op.to;
    var cut, whole := Cut(p, 0, [1], 1), Whole(ID, Write(p, 0, [1]));
    t := Bare(p);
    hide Rooted, OpenFile, Effect, Relabel, Bare;
    BareIs(p);
    CutEffect(t, cut, p, 0, [1]);
    EffectRooted(t, cut);
    var w := Effect(t, cut);
    assert WriteAt([], 0, [1][..1]) == [1];
    hide WriteAt;
    MovedOff(w, e, p, from, to);
    MovedOff(t, e, p, from, to);
    var v, y := Effect(w, e), Effect(t, e);
    WholeAt(v, whole, p, 0, [1]);
    WholeAt(y, whole, p, 0, [1]);
    var o := Relabel(from, to, p);
    RelabelledApart(from, to, p);
    assert Effect(v, whole)[o] == w[p] && Effect(y, whole)[o] == t[p];
  }

  lemma RelabelledApart(from: Rel, to: Rel, p: Rel)
    requires from <= p && Apart(from, to)
    ensures !(Relabel(from, to, p) <= p)
  {
    assert to <= Relabel(from, to, p);
  }

  lemma Harm(e: Entry, p: Rel) returns (t: Tree)
    requires p != [] && !Beside(e.action, p, false)
    ensures Rooted(t) && !Absorbed(t, e, p, 0, [], 0)
  {
    hide Absorbed, SetsNothing;
    t := map[];
    match e.action
    case Stream(q, _, _) => OpenHarm(e, p, q);
    case Mutate(op) =>
      match op {
        case Truncate(q, _) => OpenHarm(e, p, q);
        case MakeSymlink(q, _) => SymlinkHarm(e, p, q);
        case SetMetadata(q, mode, modified) => MetadataHarm(e, p, q, mode, modified);
        case Mkdir(q) => MkdirHarm(e, p, q);
        case Remove(_, _) => assert false;
        case Rename(from, to) =>
          if p < to {
            RenameBelowHarm(e, p, from, to);
          } else if from <= p {
            AwayHarm(e, p, from, to);
          } else {
            t := OntoHarm(e, p, from, to);
          }
      }
  }
}
