/** The daemon's history as a log of the attempts that arrived, and what an operation whose
    attempts were cut or repeated amounts to. */
module RequestLog {
  import opened Bytes
  import opened Trees

  /** A client's random nonce and its running count; hashing them is injective. */
  type OpId = (nat, nat)

  datatype Action =
    | Mutate(op: Op)
    | Stream(path: Rel, offset: nat, len: nat)

  /** One arrival of a request at the daemon that found no marker: for a stream, the bytes that
      were written before it ended; `complete` when the marker was set. */
  datatype Entry = Entry(id: OpId, action: Action, bytes: File, complete: bool)

  /** What a client asks for under one id. */
  datatype Request = Call(op: Op) | Write(path: Rel, offset: nat, data: File)

  function ActionOf(req: Request): Action {
    match req
    case Call(op) => Mutate(op)
    case Write(p, offset, data) => Stream(p, offset, |data|)
  }

  /** Can this entry come from an attempt at the request? */
  predicate Attempts(e: Entry, req: Request) {
    && e.action == ActionOf(req)
    && (req.Write? ==> e.bytes <= req.data && (e.complete ==> e.bytes == req.data))
  }

  /** The attempt that goes through. */
  function Whole(id: OpId, req: Request): Entry {
    Entry(id, ActionOf(req), if req.Write? then req.data else [], true)
  }

  /** Writes into an open file. */
  function WriteFile(t: Tree, p: Rel, offset: nat, data: File): Tree {
    if p in t && t[p].Regular? then t[p := t[p].(data := WriteAt(t[p].data, offset, data))] else t
  }

  function Effect(t: Tree, e: Entry): Tree {
    match e.action
    case Mutate(op) => Perform(t, op).tree
    case Stream(p, offset, _) =>
      var file := OpenFile(t, p);
      if file.ok then WriteFile(file.tree, p, offset, e.bytes) else file.tree
  }

  function Play(t: Tree, log: seq<Entry>): Tree {
    if log == [] then t else Effect(Play(t, log[..|log| - 1]), log[|log| - 1])
  }

  /** An operation's completing entry is its last. */
  predicate OnceOnly(log: seq<Entry>) {
    forall i: nat, j: nat :: i < j < |log| && log[i].id == log[j].id ==> !log[i].complete
  }

  function Completed(log: seq<Entry>): set<OpId> {
    set e <- log | e.complete :: e.id
  }

  /** Would a whole attempt succeed? */
  predicate Succeeds(t: Tree, a: Action) {
    match a
    case Mutate(op) => Perform(t, op).ok
    case Stream(p, _, _) => OpenFile(t, p).ok
  }

  /** A call completes exactly if it succeeds; a stream only if its file could be opened. */
  predicate Honest(t: Tree, e: Entry) {
    && (e.complete ==> Succeeds(t, e.action))
    && (e.action.Mutate? && Succeeds(t, e.action) ==> e.complete)
  }

  predicate Truthful(t: Tree, log: seq<Entry>) {
    log == [] || (Truthful(t, log[..|log| - 1]) && Honest(Play(t, log[..|log| - 1]), log[|log| - 1]))
  }

  /** The log without the attempts of one operation that did not complete. */
  function OnceInEffect(log: seq<Entry>, id: OpId): seq<Entry> {
    if log == [] then
      []
    else
      var e := log[|log| - 1];
      var rest := OnceInEffect(log[..|log| - 1], id);
      if e.id == id && !e.complete then rest else rest + [e]
  }

  ghost predicate Sends(log: seq<Entry>, id: OpId, req: Request) {
    forall e <- log :: e.id == id ==> Attempts(e, req)
  }

  // ------------------------------------------------------------------ logs

  lemma PlaySnoc(t: Tree, log: seq<Entry>, e: Entry)
    ensures Play(t, log + [e]) == Effect(Play(t, log), e)
    ensures Truthful(t, log + [e]) <==> Truthful(t, log) && Honest(Play(t, log), e)
  {
    assert (log + [e])[..|log|] == log;
  }

  lemma {:induction false} PlayAppend(t: Tree, a: seq<Entry>, b: seq<Entry>)
    ensures Play(t, a + b) == Play(Play(t, a), b)
    ensures Truthful(t, a + b) ==> Truthful(Play(t, a), b)
  {
    if b == [] {
      assert a + b == a;
    } else {
      PlayAppend(t, a, b[..|b| - 1]);
      PlayOneMore(t, a, b[..|b| - 1], b[|b| - 1]);
      Regroup(a, b);
      hide *;
    }
  }

  lemma Regroup(a: seq<Entry>, b: seq<Entry>)
    requires b != []
    ensures a + b == (a + b[..|b| - 1]) + [b[|b| - 1]] && b == b[..|b| - 1] + [b[|b| - 1]]
  {
  }

  lemma PlayOneMore(t: Tree, a: seq<Entry>, init: seq<Entry>, e: Entry)
    requires Play(t, a + init) == Play(Play(t, a), init)
    requires Truthful(t, a + init) ==> Truthful(Play(t, a), init)
    ensures Play(t, (a + init) + [e]) == Play(Play(t, a), init + [e])
    ensures Truthful(t, (a + init) + [e]) ==> Truthful(Play(t, a), init + [e])
  {
    PlaySnoc(t, a + init, e);
    PlaySnoc(Play(t, a), init, e);
    hide *;
  }

  lemma OnceSnoc(log: seq<Entry>, e: Entry)
    requires OnceOnly(log) && e.id !in Completed(log)
    ensures OnceOnly(log + [e])
    ensures Completed(log + [e]) == Completed(log) + if e.complete then {e.id} else {}
  {
    var more := log + [e];
    forall i: nat, j: nat | i < j < |more| && more[i].id == more[j].id
      ensures !more[i].complete
    {
      assert j == |log| ==> log[i] in log;
    }
    assert forall x :: x in more <==> x in log || x == e;
  }

  /** What was added to a log is a log of its own. */
  lemma OnceSuffix(a: seq<Entry>, b: seq<Entry>)
    requires OnceOnly(a + b)
    ensures OnceOnly(b) && Completed(a + b) == Completed(a) + Completed(b)
    ensures forall e <- b :: e.id !in Completed(a)
  {
    var log := a + b;
    forall i: nat, j: nat | i < j < |b| && b[i].id == b[j].id
      ensures !b[i].complete
    {
      assert b[i] == log[|a| + i] && b[j] == log[|a| + j];
    }
    forall e <- b
      ensures e.id !in Completed(a)
    {
      var j: nat :| j < |b| && b[j] == e;
      forall x <- a | x.complete
        ensures x.id != e.id
      {
        var i: nat :| i < |a| && a[i] == x;
        assert log[i] == x && log[|a| + j] == e;
      }
    }
    assert forall x :: x in log <==> x in a || x in b;
  }

  lemma CompletedLast(log: seq<Entry>, id: OpId)
    requires log != [] && OnceOnly(log)
    ensures OnceOnly(log[..|log| - 1])
    ensures log[|log| - 1].id == id ==> id !in Completed(log[..|log| - 1])
    ensures id in Completed(log) <==>
      id in Completed(log[..|log| - 1]) || (log[|log| - 1].id == id && log[|log| - 1].complete)
  {
    var init, last := log[..|log| - 1], [log[|log| - 1]];
    assert log == init + last;
    OnceSuffix(init, last);
    assert last[0] in last;
    forall i: nat, j: nat | i < j < |init| && init[i].id == init[j].id
      ensures !init[i].complete
    {
      assert init[i] == log[i] && init[j] == log[j];
    }
  }

  /** A completed operation has one completing entry, and it is the operation's last. */
  lemma CompletedOnce(log: seq<Entry>, id: OpId) returns (i: nat)
    requires OnceOnly(log) && id in Completed(log)
    ensures i < |log| && log[i].id == id && log[i].complete
    ensures forall j: nat :: j < |log| && log[j].id == id && j != i ==> j < i && !log[j].complete
  {
    var e :| e in log && e.complete && e.id == id;
    i :| i < |log| && log[i] == e;
  }

  lemma EffectRooted(t: Tree, e: Entry)
    requires Rooted(t)
    ensures Rooted(Effect(t, e))
  {
    match e.action
    case Mutate(op) => PerformRooted(t, op);
    case Stream(p, offset, _) =>
      OpenRooted(t, p);
      var file := OpenFile(t, p);
      if file.ok && p in file.tree && file.tree[p].Regular? {
        PutRooted(file.tree, p, file.tree[p].(data := WriteAt(file.tree[p].data, offset, e.bytes)));
      }
  }

  lemma {:induction false} PlayRooted(t: Tree, log: seq<Entry>)
    requires Rooted(t)
    ensures Rooted(Play(t, log))
  {
    if log != [] {
      PlayRooted(t, log[..|log| - 1]);
      EffectRooted(Play(t, log[..|log| - 1]), log[|log| - 1]);
    }
  }

  /** When nobody else was active, a completed operation amounts to its one whole attempt. */
  lemma {:induction false} Alone(t: Tree, log: seq<Entry>, id: OpId, req: Request)
    requires OnceOnly(log) && forall e <- log :: e.id == id && Attempts(e, req)
    ensures id !in Completed(log) ==> OnceInEffect(log, id) == []
    ensures id in Completed(log) ==> Play(t, OnceInEffect(log, id)) == Effect(t, Whole(id, req))
  {
    if log != [] {
      var init, e := log[..|log| - 1], log[|log| - 1];
      assert e in log;
      CompletedLast(log, id);
      Alone(t, init, id, req);
      PlaySnoc(t, [], e);
      assert [] + [e] == [e];
    }
  }

  // ------------------------------------------------------------------ calls

  /** A rename into the renamed directory itself. */
  predicate IntoItself(op: Op) {
    op.Rename? && op.from != [] && op.from < op.to
  }

  /** Such a rename never succeeds; any other request that is rejected changes nothing. */
  lemma Rejected(t: Tree, op: Op)
    requires Rooted(t) && !Perform(t, op).ok
    ensures !IntoItself(op) ==> Perform(t, op).tree == t
  {
    match op
    case Truncate(p, size) => OpenRooted(t, p);
    case SetMetadata(p, _, _) =>
    case Mkdir(p) => MakeDirsIs(t, p);
    case MakeSymlink(p, target) =>
      MakeDirsIs(t, Parent(p));
      if p != [] {
        StandsIn(t, p);
      }
    case Rename(from, to) =>
      if !IntoItself(op) {
        RejectedRename(t, from, to);
      }
    case Remove(p, dir) =>
  }

  lemma RejectedRename(t: Tree, from: Rel, to: Rel)
    requires Rooted(t) && !Perform(t, Rename(from, to)).ok && (from == [] || !(from < to))
    ensures Perform(t, Rename(from, to)).tree == t
  {
    MakeDirsIs(t, Parent(to));
    MakeDirsRooted(t, Parent(to));
    var above := MakeDirs(t, Parent(to));
    hide MakeDirs, Move;
    if above.ok && from in above.tree && to != [] {
      if to <= from {
        RootedChain(above.tree, from);
        assert to == from || (from[..|to|] == to && Parent(from)[..|to|] == to);
        assert to in above.tree;
      }
      StandsIn(t, to);
    }
  }

  /** A rejected request changes something if and only if it renames a path to below itself and
      the directories above the target can be made and are not there; then it leaves these. */
  lemma RejectedExactly(t: Tree, op: Op)
    requires Rooted(t) && !Perform(t, op).ok
    ensures Perform(t, op).tree != t <==> IntoItself(op) && MakeDirs(t, Parent(op.to)).ok && Parent(op.to) !in t
    ensures IntoItself(op) ==> Perform(t, op).tree == MakeDirs(t, Parent(op.to)).tree
  {
    if IntoItself(op) {
      var from, to := op.from, op.to;
      PrefixOfParent(from, to);
      MakeDirsIs(t, Parent(to));
      if Parent(to) in t {
        RootedChain(t, Parent(to));
        assert MakeDirs(t, Parent(to)).ok ==> IsDirectory(t, Parent(to));
        if MakeDirs(t, Parent(to)).ok {
          MakeDirsNoop(t, Parent(to));
        }
      }
    } else {
      Rejected(t, op);
    }
  }

  /** Moving a directory to below itself, one level too deep: it is rejected, and leaves the level. */
  lemma RejectedLeavesDirectory() returns (t: Tree, op: Op, made: Rel)
    ensures Rooted(t) && !Perform(t, op).ok && made !in t && made in Perform(t, op).tree
  {
    t, op, made := map[["a"] := NEW_DIRECTORY], Rename(["a"], ["a", "b", "c"]), ["a", "b"];
    assert Parent(["a"]) == [] && Parent(op.to) == made && Parent(made) == ["a"];
    assert made[..1] == ["a"] && ["a"] < op.to;
    MakeDirsIs(t, made);
    NeverIntoItself(t, op);
    RejectedExactly(t, op);
    hide MakeDirs;
  }

  /** Nothing has to be made above a path that is there. */
  lemma StandsIn(t: Tree, p: Rel)
    requires Rooted(t) && p != []
    ensures p in t ==> MakeDirs(t, Parent(p)) == Outcome(t, true)
    ensures MakeDirs(t, Parent(p)).ok ==> (p in MakeDirs(t, Parent(p)).tree <==> p in t)
  {
    MakeDirsIs(t, Parent(p));
    if p in t {
      RootedChain(t, p);
      MakeDirsNoop(t, Parent(p));
    }
  }

  lemma NeverIntoItself(t: Tree, op: Op)
    requires Rooted(t) && IntoItself(op)
    ensures !Perform(t, op).ok
  {
    var from, to := op.from, op.to;
    MakeDirsIs(t, Parent(to));
    PrefixOfParent(from, to);
  }

  /** However often a call was rejected or its answer lost, and whatever other clients did
      meanwhile: the tree is as if it had been performed once, where it was completed, or not at
      all.  Only a rename of a directory into itself, which cannot succeed, leaves the
      directories it makes. */
  lemma {:induction false} RetriedCallIsOneCall(t: Tree, log: seq<Entry>, id: OpId, op: Op)
    requires Rooted(t) && Truthful(t, log) && Sends(log, id, Call(op))
    requires id in Completed(log) || !IntoItself(op)
    ensures Play(t, log) == Play(t, OnceInEffect(log, id))
  {
    if IntoItself(op) {
      NotCompleted(t, log, id, op);
    } else if log != [] {
      var init, e := log[..|log| - 1], log[|log| - 1];
      assert e in log;
      RetriedCallIsOneCall(t, init, id, op);
      PlayRooted(t, init);
      PlaySnoc(t, OnceInEffect(init, id), e);
      if e.id == id && !e.complete {
        Rejected(Play(t, init), op);
      }
    }
  }

  lemma {:induction false} NotCompleted(t: Tree, log: seq<Entry>, id: OpId, op: Op)
    requires Rooted(t) && Truthful(t, log) && Sends(log, id, Call(op)) && IntoItself(op)
    ensures id !in Completed(log)
  {
    if log != [] {
      var init, e := log[..|log| - 1], log[|log| - 1];
      assert e in log && log == init + [e];
      NotCompleted(t, init, id, op);
      PlayRooted(t, init);
      NeverIntoItself(Play(t, init), op);
    }
  }
}
