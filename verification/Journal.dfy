/** The mount's journal: a mutation is recorded, sent and cleared; whatever is still recorded
    after a lost reply or a crash is sent again under a new operation id. */
module Journal {
  import opened Network
  import opened Trees
  import Wrappers

  const DEFAULT_OP_RETRIES: nat := 12

  /** Performs the operations one after the other, successful or rejected. */
  function Fold(t: Tree, ops: seq<Op>): Tree {
    if ops == [] then t else Perform(Fold(t, ops[..|ops| - 1]), ops[|ops| - 1]).tree
  }

  lemma FoldSnoc(t: Tree, ops: seq<Op>, op: Op)
    ensures Fold(t, ops + [op]) == Perform(Fold(t, ops), op).tree
  {
    assert (ops + [op])[..|ops|] == ops;
  }

  datatype Reply = Reply(ok: bool) | Lost

  datatype Result = Acknowledged | Rejected | Failed | Crashed

  /** What happens during one mutation: where the process dies (before recording, after it, after
      sending, after clearing, or not at all from 4 on), and the attempts at sending, at each
      replay that follows a lost reply, and at the replay when the mount is started again. */
  datatype Events = Events(dies: nat, send: seq<Fate>, recovery: nat -> seq<Fate>, restart: seq<Fate>)

  /** Does no replay after a lost reply get through? */
  predicate Unrecovered(e: Events) {
    forall k: nat :: k < DEFAULT_OP_RETRIES ==> NoAnswer(e.recovery(k))
  }

  predicate Fails(e: Events) {
    2 < e.dies && NoAnswer(e.send) && Unrecovered(e)
  }

  /** Is the request itself answered, to a process that is still alive? */
  predicate Heard(e: Events) {
    3 <= e.dies && !NoAnswer(e.send)
  }

  predicate Calm(e: Events) {
    3 < e.dies && Heard(e)
  }

  /** What the caller learns of a mutation of tree t. */
  function ResultOf(t: Tree, op: Op, e: Events): Result {
    if e.dies <= 2 || (e.dies == 3 && !Fails(e)) then Crashed
    else if Fails(e) then Failed
    else if Heard(e) && !Perform(t, op).ok then Rejected
    else Acknowledged
  }

  /** A request that was answered to a living process decides; else any of the replays that was. */
  lemma ResultExactly(t: Tree, op: Op, e: Events)
    ensures ResultOf(t, op, e) == Failed <==>
      3 <= e.dies && Answered !in e.send && forall k: nat :: k < 12 ==> Answered !in e.recovery(k)
    ensures ResultOf(t, op, e) == Rejected <==> 4 <= e.dies && Answered in e.send && !Perform(t, op).ok
    ensures ResultOf(t, op, e) == Acknowledged <==>
      && 4 <= e.dies
      && if Answered in e.send then Perform(t, op).ok else exists k: nat :: k < 12 && Answered in e.recovery(k)
    ensures ResultOf(t, op, e) == Crashed <==>
      e.dies < 3 || (e.dies == 3 && (Answered in e.send || exists k: nat :: k < 12 && Answered in e.recovery(k)))
  {
    hide Perform;
  }

  /** An operation whose fate is settled, and whether the caller was told that it succeeded. */
  datatype Settled = Settled(op: Op, acknowledged: bool)

  function Ops(settled: seq<Settled>): seq<Op> {
    seq(|settled|, i requires 0 <= i < |settled| => settled[i].op)
  }

  function AckedOps(settled: seq<Settled>): seq<Op> {
    if settled == [] then
      []
    else
      var rest := AckedOps(settled[..|settled| - 1]);
      if settled[|settled| - 1].acknowledged then rest + [settled[|settled| - 1].op] else rest
  }

  predicate Subsequence(a: seq<Op>, b: seq<Op>)
    decreases |b|
  {
    || a == []
    || (b != [] && Subsequence(a, b[..|b| - 1]))
    || (b != [] && a[|a| - 1] == b[|b| - 1] && Subsequence(a[..|a| - 1], b[..|b| - 1]))
  }

  lemma {:induction false} SubsequenceOfMore(a: seq<Op>, b: seq<Op>, n: nat)
    requires n <= |b| && Subsequence(a, b[..n])
    ensures Subsequence(a, b)
    decreases |b|
  {
    if n < |b| {
      assert b[..|b| - 1][..n] == b[..n];
      SubsequenceOfMore(a, b[..|b| - 1], n);
    } else {
      assert b[..n] == b;
    }
  }

  /** A mutation settles its operation, leaves it recorded, or neither. */
  lemma OneMore(before: seq<Settled>, after: seq<Settled>, journal: seq<Op>, ops: seq<Op>, i: nat, r: Result, e: Events)
    requires i < |ops| && Subsequence(Ops(before), ops[..i])
    requires after == before + if r == Failed || e.dies <= 2 then [] else [Settled(ops[i], r == Acknowledged)]
    requires journal == [] || (journal == [ops[i]] && after == before)
    ensures Subsequence(Ops(after) + journal, ops[..i + 1])
    ensures ops[..i + 1] == ops[..i] + [ops[i]]
  {
    hide Subsequence;
    SubsequenceSnoc(Ops(before), ops[..i], ops[i]);
    assert ops[..i + 1] == ops[..i] + [ops[i]];
    if journal == [] && after == before {
      assert Ops(after) + journal == Ops(before);
    } else {
      assert Ops(after) + journal == Ops(before) + [ops[i]];
    }
  }

  lemma SubsequenceSnoc(a: seq<Op>, b: seq<Op>, x: Op)
    requires Subsequence(a, b)
    ensures Subsequence(a, b + [x]) && Subsequence(a + [x], b + [x])
  {
    assert (b + [x])[..|b|] == b && (a + [x])[..|a|] == a;
  }

  /** A mount and the tree it mutates; no one else does meanwhile. */
  class Mount {
    var tree: Tree
    var journal: seq<Op>
    ghost const initial: Tree
    ghost var settled: seq<Settled>

    /** The tree is what the settled operations made of it, each performed once, and possibly
        the one recorded operation after them. */
    ghost predicate Valid()
      reads this
    {
      && |journal| <= 1
      && (tree == Fold(initial, Ops(settled)) || (journal != [] && tree == Fold(initial, Ops(settled) + journal)))
    }

    constructor (tree: Tree)
      ensures Valid() && journal == [] && settled == [] && initial == tree
    {
      this.tree, journal, initial, settled := tree, [], tree, [];
    }

    /** One request with its retries: each attempt may be lost before or after it is performed.
        If any arrives the operation has been performed, in effect once. */
    method Send(op: Op, fates: seq<Fate>) returns (reply: Reply)
      modifies `tree
      ensures tree == if Arrives(fates) then Perform(old(tree), op).tree else old(tree)
      ensures reply == if NoAnswer(fates) then Lost else Reply(Perform(old(tree), op).ok)
    {
      Idempotent(tree, op);
      for attempt := 0 to |fates|
        invariant NoAnswer(fates[..attempt])
        invariant tree == if Arrives(fates[..attempt]) then Perform(old(tree), op).tree else old(tree)
      {
        assert fates[..attempt + 1] == fates[..attempt] + [fates[attempt]];
        if fates[attempt] != RequestLost {
          var outcome := Perform(tree, op);
          tree := outcome.tree;
          if fates[attempt] == Answered {
            return Reply(outcome.ok);
          }
        }
      }
      assert fates[..|fates|] == fates;
      return Lost;
    }

    /** Sends every recorded operation in order; rejected ones are dropped.  A lost connection
        abandons the replay and keeps the journal. */
    method Replay(net: nat -> seq<Fate>) returns (done: bool)
      modifies `tree, `journal
      ensures done <==> forall i: nat :: i < |old(journal)| ==> !NoAnswer(net(i))
      ensures done ==> journal == [] && tree == Fold(old(tree), old(journal))
      ensures !done ==> journal == old(journal)
      ensures !done ==> exists n: nat :: n <= |journal| && tree == Fold(old(tree), journal[..n])
    {
      var i := 0;
      while i < |journal|
        invariant i <= |journal| && journal == old(journal)
        invariant forall j: nat :: j < i ==> !NoAnswer(net(j))
        invariant tree == Fold(old(tree), journal[..i])
      {
        FoldSnoc(old(tree), journal[..i], journal[i]);
        assert journal[..i + 1] == journal[..i] + [journal[i]];
        var reply := Send(journal[i], net(i));
        if reply.Lost? {
          if Arrives(net(i)) {
            assert tree == Fold(old(tree), journal[..i + 1]);
          } else {
            assert tree == Fold(old(tree), journal[..i]);
          }
          return false;
        }
        i := i + 1;
      }
      assert journal[..i] == journal;
      journal := [];
      return true;
    }

    /** Replaying the journal; at most one recorded operation is performed exactly once in effect. */
    method Recover(fates: seq<Fate>) returns (done: bool)
      modifies `tree, `journal
      ensures done <==> old(journal) == [] || !NoAnswer(fates)
      ensures journal == if done then [] else old(journal)
      ensures old(Valid()) ==> if done then tree == Fold(initial, Ops(settled) + old(journal)) else Valid()
    {
      hide Perform, Fold, Ops;
      ghost var entry, was := journal, tree;
      var net := (i: nat) => fates;
      done := Replay(net);
      assert done && entry != [] ==> !NoAnswer(net(0));
      if old(Valid()) {
        ghost var n: nat := if done then |entry| else var n: nat :| n <= |journal| &&
          tree == Fold(was, journal[..n]); n;
        assert entry[..|entry|] == entry;
        Replayed(initial, Ops(settled), entry, was, n);
      }
    }

    ghost method Settle(op: Op, acknowledged: bool)
      requires journal == [] && tree == Fold(initial, Ops(settled) + [op])
      modifies `settled
      ensures Valid() && settled == old(settled) + [Settled(op, acknowledged)]
    {
      settled := settled + [Settled(op, acknowledged)];
      assert Ops(settled) == Ops(old(settled)) + [op];
    }

    /** Mounting again after a crash. */
    method Restart(fates: seq<Fate>) returns (mounted: bool)
      requires Valid()
      modifies this
      ensures Valid()
      ensures mounted <==> old(journal) == [] || !NoAnswer(fates)
      ensures mounted ==> journal == []
      ensures mounted ==>
        settled == old(settled) + if old(journal) == [] then [] else [Settled(old(journal)[0], false)]
      ensures !mounted ==> journal == old(journal) && settled == old(settled)
    {
      ghost var entry := journal;
      assert entry != [] ==> entry == [entry[0]];
      mounted := Recover(fates);
      if mounted {
        if entry != [] {
          Settle(entry[0], false);
        } else {
          assert Ops(settled) + [] == Ops(settled);
        }
      }
    }

    /** A leftover entry is settled with the operation recorded behind it, if it was performed. */
    ghost method SettleBehind(leftover: seq<Op>, was: Tree, op: Op, acknowledged: bool)
      requires journal == [] && tree == Perform(was, op).tree && |leftover| <= 1
      requires was == Fold(initial, Ops(settled)) || (leftover != [] && was == Fold(initial, Ops(settled) + leftover))
      modifies `settled
      ensures Valid()
      ensures || settled == old(settled) + [Settled(op, acknowledged)]
              || (leftover != [] &&
                settled == old(settled) + [Settled(leftover[0], false)] + [Settled(op, acknowledged)])
    {
      hide Perform;
      if was != Fold(initial, Ops(settled)) {
        settled := settled + [Settled(leftover[0], false)];
        assert leftover == [leftover[0]];
        assert Ops(settled) == Ops(old(settled)) + leftover;
      }
      FoldSnoc(initial, Ops(settled), op);
      Settle(op, acknowledged);
    }

    /** One mutation.  The process may die at any point; a lost reply leads to replays, and an
        entry that could not be replayed stays in the journal.  Behind such an entry the
        invariant is kept if the request itself is answered.  An acknowledgement that rests on a
        replay does not tell a rejection from success. */
    method Mutate(op: Op, e: Events) returns (r: Result)
      requires Valid()
      modifies this
      ensures old(journal) == [] || e.dies == 0 || Heard(e) ==> Valid()
      ensures r == ResultOf(old(tree), op, e)
      ensures r == Acknowledged || r == Rejected ==> journal == []
      ensures r == Failed ==> journal == old(journal) + [op]
      ensures r == Crashed ==>
        journal == if e.dies == 0 then old(journal) else if e.dies <= 2 then old(journal) + [op] else []
      ensures old(journal) == [] ==>
        settled == old(settled) + if r == Failed || e.dies <= 2 then [] else [Settled(op, r == Acknowledged)]
      ensures old(journal) != [] && Heard(e) ==>
        || settled == old(settled) + [Settled(op, r == Acknowledged)]
        || settled == old(settled) + [Settled(old(journal)[0], false)] + [Settled(op, r == Acknowledged)]
    {
      hide Perform, Fold, Ops, Unrecovered;
      ghost var leftover, was := journal, tree;
      FoldSnoc(initial, Ops(settled), op);
      assert [] + [op] == [op];
      if e.dies == 0 {
        return Crashed;
      }
      journal := journal + [op];
      if e.dies == 1 {
        return Crashed;
      }
      var reply := Send(op, e.send);
      if e.dies == 2 {
        return Crashed;
      }
      if reply.Lost? {
        var recovered := RecoverRepeatedly(e);
        if !recovered {
          return Failed;
        }
      }
      journal := [];
      if e.dies == 3 {
        if leftover == [] || reply.Reply? {
          SettleBehind(leftover, was, op, false);
        }
        return Crashed;
      }
      if reply.Reply? && !reply.ok {
        SettleBehind(leftover, was, op, false);
        return Rejected;
      }
      if leftover == [] || reply.Reply? {
        SettleBehind(leftover, was, op, true);
      }
      return Acknowledged;
    }

    method RecoverRepeatedly(e: Events) returns (done: bool)
      requires journal != []
      modifies `tree, `journal
      ensures done <==> !Unrecovered(e)
      ensures journal == if done then [] else old(journal)
      ensures old(Valid()) ==> if done then tree == Fold(initial, Ops(settled) + old(journal)) else Valid()
    {
      hide Fold, Ops;
      var attempt := 0;
      while attempt < DEFAULT_OP_RETRIES
        invariant journal == old(journal) && (old(Valid()) ==> Valid())
        invariant attempt <= DEFAULT_OP_RETRIES && forall k: nat :: k < attempt ==> NoAnswer(e.recovery(k))
      {
        done := Recover(e.recovery(attempt));
        if done {
          return true;
        }
        attempt := attempt + 1;
      }
      return false;
    }

    /** Any sequence of mutations, one at a time, with crashes and failures: the mount is
        started again after each.  `before` tells how many operations were settled when each was
        asked for.  The acknowledged operations are settled, in order, as such; nothing but the
        operations asked for is settled; and the tree is what the settled operations, each
        performed once, made of it, plus the one still recorded if it was performed.  As long as
        the process lives and every request is answered, every operation is settled, and
        acknowledged exactly if it succeeds. */
    method Run(ops: seq<Op>, events: nat -> Events) returns (results: seq<Result>, ghost before: seq<nat>)
      requires Valid() && journal == [] && settled == []
      modifies this
      ensures Valid()
      ensures |before| == |results| <= |ops| && forall i: nat :: i < |results| ==> before[i] <= |settled|
      ensures |results| < |ops| ==> journal != [] && NoAnswer(events(|results|).restart)
      ensures forall i: nat ::
        i < |results| ==> results[i] == ResultOf(Fold(initial, Ops(settled[..before[i]])), ops[i], events(i))
      ensures AckedOps(settled) == AckedBy(ops, results)
      ensures Subsequence(Ops(settled) + journal, ops)
      ensures forall n: nat | n <= |ops| && AllCalm(events, n) ::
        n <= |results| && n <= |settled| && Ops(settled[..n]) == ops[..n]
      ensures forall n: nat | n < |ops| && AllCalm(events, n + 1) ::
        results[n] == if Perform(Fold(initial, ops[..n]), ops[n]).ok then Acknowledged else Rejected
    {
      hide *;
      results, before := [], [];
      NothingSettled(initial, settled, ops, events);
      for i := 0 to |ops|
        invariant Valid() && Reported(initial, settled, ops[..i], results, before, events)
        invariant Subsequence(Ops(settled) + journal, ops[..i])
        invariant AllCalm(events, i) ==> journal == [] && |settled| == i
      {
        var mounted := Remount(events(i).restart, ops[..i], results, before, events);
        if !mounted {
          SubsequenceOfMore(Ops(settled) + journal, ops, i);
          RunReported(initial, settled, ops, i, results, before, events);
          CalmReported(initial, settled, ops, i, results, before, events);
          return;
        }
        Shape();
        ghost var s := settled;
        var r := Mutate(ops[i], events(i));
        OneMore(s, settled, journal, ops, i, r, events(i));
        ReportMore(initial, s, settled, ops[..i], ops[i], results, r, before, events);
        results, before := results + [r], before + [|s|];
      }
      assert ops[..|ops|] == ops;
      RunReported(initial, settled, ops, |ops|, results, before, events);
      CalmReported(initial, settled, ops, |ops|, results, before, events);
    }

    /** Starts the mount again if something is recorded. */
    method Remount(fates: seq<Fate>, ghost ops: seq<Op>, ghost results: seq<Result>, ghost before: seq<nat>,
        ghost events: nat -> Events) returns (mounted: bool)
      requires Valid() && Reported(initial, settled, ops, results, before, events) &&
        Subsequence(Ops(settled) + journal, ops)
      modifies this
      ensures Valid() && Reported(initial, settled, ops, results, before, events) &&
        Subsequence(Ops(settled) + journal, ops)
      ensures mounted <==> old(journal) == [] || !NoAnswer(fates)
      ensures mounted ==> journal == [] && Subsequence(Ops(settled), ops)
      ensures !mounted ==> journal != []
      ensures old(journal) == [] ==> settled == old(settled)
    {
      hide *;
      assert Ops(settled) + [] == Ops(settled);
      if journal == [] {
        return true;
      }
      Shape();
      ghost var earlier, entry := settled, journal;
      mounted := Restart(fates);
      if mounted {
        SettledByRestart(earlier, entry, settled);
        ReportedStill(initial, earlier, settled, ops, results, before, events);
        assert Ops(settled) + [] == Ops(settled);
      }
    }

    lemma Shape()
      requires Valid()
      ensures |journal| <= 1
      ensures journal == [] ==> tree == Fold(initial, Ops(settled))
    {
    }
  }

  /** A caller is told of success although the operation failed if and only if the process lived,
      no attempt was answered, and a replay got through. */
  lemma RejectedYetAcknowledgedExactly(t: Tree, op: Op, e: Events)
    requires !Perform(t, op).ok
    ensures ResultOf(t, op, e) == Acknowledged <==> 3 < e.dies && NoAnswer(e.send) && !Unrecovered(e)
  {
  }

  /** Metadata is set on a path that is not there; all that is lost is the reply. */
  method RejectedYetAcknowledged() returns (mount: Mount, op: Op, r: Result)
    ensures fresh(mount) && r == Acknowledged && mount.settled == [Settled(op, true)]
    ensures !Perform(mount.initial, op).ok && mount.tree == mount.initial
  {
    mount := new Mount(map[]);
    op := SetMetadata(["a"], Wrappers.Some(0), Wrappers.None);
    var e := Events(4, [ReplyLost], (k: nat) => [Answered], []);
    RecoversAtOnce(e);
    r := mount.Mutate(op, e);
    FoldSnoc(map[], [], op);
    assert Ops([Settled(op, true)]) == [] + [op];
  }

  lemma RecoversAtOnce(e: Events)
    requires e.recovery(0) == [Answered]
    ensures !Unrecovered(e)
  {
    assert !NoAnswer(e.recovery(0));
  }

  /** Replaying again what may have been performed already. */
  lemma Replayed(t: Tree, ops: seq<Op>, entry: seq<Op>, was: Tree, n: nat)
    requires |entry| <= 1 && n <= |entry|
    requires was == Fold(t, ops) || (entry != [] && was == Fold(t, ops + entry))
    ensures n == |entry| ==> Fold(was, entry[..n]) == Fold(t, ops + entry)
    ensures n < |entry| ==> Fold(was, entry[..n]) == was
  {
    hide Perform;
    assert ops + [] == ops;
    if n == 1 {
      FoldSnoc(t, ops, entry[0]);
      FoldSnoc(was, [], entry[0]);
      assert [] + [entry[0]] == entry == entry[..1];
      Idempotent(Fold(t, ops), entry[0]);
    }
  }

  // ------------------------------------------------------------------ what a run reports

  function AckedBy(ops: seq<Op>, results: seq<Result>): seq<Op>
    requires |results| <= |ops|
  {
    if results == [] then
      []
    else
      var n := |results| - 1;
      AckedBy(ops, results[..n]) + if results[n] == Acknowledged then [ops[n]] else []
  }

  predicate AllCalm(events: nat -> Events, n: nat) {
    forall i: nat :: i < n ==> Calm(events(i))
  }

  /** Do the results follow from the trees the operations met? */
  predicate ResultsFit(t: Tree, settled: seq<Settled>, ops: seq<Op>, results: seq<Result>, before: seq<nat>,
      events: nat -> Events) {
    && |results| == |before| <= |ops|
    && forall i: nat :: i < |results| ==>
         before[i] <= |settled| && results[i] == ResultOf(Fold(t, Ops(settled[..before[i]])), ops[i], events(i))
  }

  /** Is a calm beginning settled as it came? */
  predicate CalmSettled(settled: seq<Settled>, ops: seq<Op>, before: seq<nat>, events: nat -> Events) {
    && |before| == |ops|
    && forall n: nat :: n <= |ops| && AllCalm(events, n) ==>
         n <= |settled| && Ops(settled[..n]) == ops[..n] && (n < |ops| ==> before[n] == n)
  }

  predicate Reported(t: Tree, settled: seq<Settled>, ops: seq<Op>, results: seq<Result>, before: seq<nat>,
      events: nat -> Events) {
    && |results| == |ops|
    && ResultsFit(t, settled, ops, results, before, events)
    && CalmSettled(settled, ops, before, events)
    && AckedOps(settled) == AckedBy(ops, results)
  }

  lemma AckedSnoc(settled: seq<Settled>, x: Settled)
    ensures AckedOps(settled + [x]) == AckedOps(settled) + if x.acknowledged then [x.op] else []
    ensures Ops(settled + [x]) == Ops(settled) + [x.op]
  {
    assert (settled + [x])[..|settled|] == settled;
  }

  lemma {:induction false} AckedByMore(ops: seq<Op>, op: Op, results: seq<Result>)
    requires |results| <= |ops|
    ensures AckedBy(ops + [op], results) == AckedBy(ops, results)
  {
    if results != [] {
      AckedByMore(ops, op, results[..|results| - 1]);
    }
  }

  lemma ReportedStill(t: Tree, s: seq<Settled>, more: seq<Settled>, ops: seq<Op>, results: seq<Result>,
      before: seq<nat>, events: nat -> Events)
    requires Reported(t, s, ops, results, before, events) && s <= more && AckedOps(more) == AckedOps(s)
    ensures Reported(t, more, ops, results, before, events)
  {
    FitStill(t, s, more, ops, results, before, events);
    CalmStill(s, more, ops, before, events);
    hide ResultsFit, CalmSettled, AckedOps, AckedBy;
  }

  lemma FitStill(t: Tree, s: seq<Settled>, more: seq<Settled>, ops: seq<Op>, results: seq<Result>, before: seq<nat>,
      events: nat -> Events)
    requires ResultsFit(t, s, ops, results, before, events) && s <= more
    ensures ResultsFit(t, more, ops, results, before, events)
  {
    hide Fold, Ops, ResultOf;
    forall i: nat | i < |results|
      ensures more[..before[i]] == s[..before[i]]
    {
    }
  }

  lemma CalmStill(s: seq<Settled>, more: seq<Settled>, ops: seq<Op>, before: seq<nat>, events: nat -> Events)
    requires CalmSettled(s, ops, before, events) && s <= more
    ensures CalmSettled(more, ops, before, events)
  {
    hide Ops, AllCalm;
    forall n: nat | n <= |ops| && AllCalm(events, n)
      ensures more[..n] == s[..n]
    {
    }
  }

  lemma ReportMore(t: Tree, s: seq<Settled>, more: seq<Settled>, ops: seq<Op>, op: Op, results: seq<Result>, r: Result,
      before: seq<nat>, events: nat -> Events)
    requires Reported(t, s, ops, results, before, events) && (AllCalm(events, |ops|) ==> |s| == |ops|)
    requires r == ResultOf(Fold(t, Ops(s)), op, events(|ops|))
    requires more == s + if r == Failed || events(|ops|).dies <= 2 then [] else [Settled(op, r == Acknowledged)]
    ensures Reported(t, more, ops + [op], results + [r], before + [|s|], events)
    ensures AllCalm(events, |ops| + 1) ==> |more| == |ops| + 1 && r != Failed && r != Crashed
  {
    var e := events(|ops|);
    if e.dies <= 2 {
      EarlyDeath(Fold(t, Ops(s)), op, e);
    }
    if AllCalm(events, |ops| + 1) {
      MoreCalm(s, more, ops, op, r, events, Fold(t, Ops(s)));
    }
    hide Fold, Ops, ResultOf, AllCalm, AckedOps, AckedBy, ResultsFit, CalmSettled;
    assert |before| == |ops| by {
      SameLength(s, ops, before, events);
    }
    FitStill(t, s, more, ops, results, before, events);
    FitMore(t, s, more, ops, op, results, r, before, events);
    CalmStill(s, more, ops, before, events);
    CalmMore(s, more, ops, op, r, before, events);
    MoreAcked(s, more, ops, op, results, r);
  }

  lemma SameLength(s: seq<Settled>, ops: seq<Op>, before: seq<nat>, events: nat -> Events)
    requires CalmSettled(s, ops, before, events)
    ensures |before| == |ops|
  {
  }

  lemma EarlyDeath(t: Tree, op: Op, e: Events)
    requires e.dies <= 2
    ensures ResultOf(t, op, e) == Crashed
  {
  }

  lemma FitMore(t: Tree, s: seq<Settled>, more: seq<Settled>, ops: seq<Op>, op: Op, results: seq<Result>, r: Result,
      before: seq<nat>, events: nat -> Events)
    requires ResultsFit(t, more, ops, results, before, events) && s <= more && |results| == |ops|
    requires r == ResultOf(Fold(t, Ops(s)), op, events(|ops|))
    ensures ResultsFit(t, more, ops + [op], results + [r], before + [|s|], events)
  {
    hide Fold, Ops, ResultOf;
    assert more[..|s|] == s;
  }

  lemma CalmMore(s: seq<Settled>, more: seq<Settled>, ops: seq<Op>, op: Op, r: Result, before: seq<nat>,
      events: nat -> Events)
    requires CalmSettled(more, ops, before, events) && CalmSettled(s, ops, before, events) && s <= more
    requires AllCalm(events, |ops|) ==> |s| == |ops|
    requires AllCalm(events, |ops| + 1) ==> more == s + [Settled(op, r == Acknowledged)] && |s| == |ops|
    ensures CalmSettled(more, ops + [op], before + [|s|], events)
  {
    hide AllCalm, Ops;
    forall n: nat | n <= |ops| + 1 && AllCalm(events, n)
      ensures n <= |more| && Ops(more[..n]) == (ops + [op])[..n] && (n < |ops| + 1 ==> (before + [|s|])[n] == n)
    {
      if n <= |ops| {
        assert (ops + [op])[..n] == ops[..n];
      } else {
        assert AllCalm(events, |ops|) by {
          CalmPrefix(events, |ops|, n);
        }
        assert more[..n] == more && (ops + [op])[..n] == ops + [op];
        assert ops[..|ops|] == ops && s[..|s|] == s;
        AckedSnoc(s, Settled(op, r == Acknowledged));
      }
    }
  }

  lemma MoreCalm(s: seq<Settled>, more: seq<Settled>, ops: seq<Op>, op: Op, r: Result, events: nat -> Events, t: Tree)
    requires AllCalm(events, |ops| + 1) && r == ResultOf(t, op, events(|ops|))
    requires more == s + if r == Failed || events(|ops|).dies <= 2 then [] else [Settled(op, r == Acknowledged)]
    ensures AllCalm(events, |ops|) && r != Failed && r != Crashed && more == s + [Settled(op, r == Acknowledged)]
  {
    CalmResult(t, op, events, |ops|);
    assert Calm(events(|ops|));
  }

  lemma MoreAcked(s: seq<Settled>, more: seq<Settled>, ops: seq<Op>, op: Op, results: seq<Result>, r: Result)
    requires |results| == |ops| && AckedOps(s) == AckedBy(ops, results)
    requires more == s + [Settled(op, r == Acknowledged)] || (more == s && r != Acknowledged)
    ensures AckedOps(more) == AckedBy(ops + [op], results + [r])
  {
    AckedBySnoc(ops, op, results, r);
    AckedSnoc(s, Settled(op, r == Acknowledged));
    hide AckedOps, AckedBy;
    assert AckedOps(s) + [] == AckedOps(s);
  }

  lemma AckedBySnoc(ops: seq<Op>, op: Op, results: seq<Result>, r: Result)
    requires |results| == |ops|
    ensures AckedBy(ops + [op], results + [r]) == AckedBy(ops, results) + if r == Acknowledged then [op] else []
  {
    var more, n := results + [r], |ops|;
    assert more[..n] == results && more[n] == r && (ops + [op])[n] == op;
    AckedByMore(ops, op, results);
  }

  /** The report so far, seen from all operations. */
  lemma RunReported(t: Tree, settled: seq<Settled>, ops: seq<Op>, k: nat, results: seq<Result>, before: seq<nat>,
      events: nat -> Events)
    requires k <= |ops| && Reported(t, settled, ops[..k], results, before, events)
    ensures |before| == |results| == k && forall i: nat :: i < k ==> before[i] <= |settled|
    ensures forall i: nat :: i < k ==> results[i] == ResultOf(Fold(t, Ops(settled[..before[i]])), ops[i], events(i))
    ensures AckedOps(settled) == AckedBy(ops, results)
  {
    AckedByPrefix(ops, k, results);
    hide Fold, AckedOps, AckedBy, Ops, ResultOf, AllCalm;
    forall i: nat | i < k
      ensures results[i] == ResultOf(Fold(t, Ops(settled[..before[i]])), ops[i], events(i))
    {
      assert ops[..k][i] == ops[i];
    }
  }

  /** A calm beginning, read off the report. */
  lemma CalmReported(t: Tree, settled: seq<Settled>, ops: seq<Op>, k: nat, results: seq<Result>, before: seq<nat>,
      events: nat -> Events)
    requires k <= |ops| && Reported(t, settled, ops[..k], results, before, events)
    requires k < |ops| ==> !AllCalm(events, k)
    ensures forall n: nat | n <= |ops| && AllCalm(events, n) ::
      n <= |results| && n <= |settled| && Ops(settled[..n]) == ops[..n]
    ensures forall n: nat | n < |ops| && AllCalm(events, n + 1) ::
      n < |results| && results[n] == if Perform(Fold(t, ops[..n]), ops[n]).ok then Acknowledged else Rejected
  {
    hide Fold, AckedOps, AckedBy, Perform, Ops, ResultOf, AllCalm;
    forall n: nat | n <= |ops| && AllCalm(events, n)
      ensures n <= k && n <= |settled| && Ops(settled[..n]) == ops[..n] && (n < k ==> before[n] == n)
    {
      CalmPrefix(events, if n < k then n else k, n);
      assert n <= |ops[..k]|;
      assert ops[..k][..n] == ops[..n];
    }
    forall n: nat | n < |ops| && AllCalm(events, n + 1)
      ensures n < k && results[n] == if Perform(Fold(t, ops[..n]), ops[n]).ok then Acknowledged else Rejected
    {
      CalmPrefix(events, n, n + 1);
      assert n + 1 <= k;
      assert before[n] == n && ops[..k][n] == ops[n];
      CalmResult(Fold(t, ops[..n]), ops[n], events, n);
    }
  }

  lemma CalmPrefix(events: nat -> Events, m: nat, n: nat)
    requires AllCalm(events, n) && m <= n
    ensures AllCalm(events, m)
  {
  }

  lemma CalmResult(t: Tree, op: Op, events: nat -> Events, n: nat)
    requires AllCalm(events, n + 1)
    ensures ResultOf(t, op, events(n)) == if Perform(t, op).ok then Acknowledged else Rejected
  {
    assert Calm(events(n));
  }

  lemma {:induction false} AckedByPrefix(ops: seq<Op>, k: nat, results: seq<Result>)
    requires |results| <= k <= |ops|
    ensures AckedBy(ops, results) == AckedBy(ops[..k], results)
  {
    if results != [] {
      AckedByPrefix(ops, k, results[..|results| - 1]);
    }
  }

  lemma NothingSettled(t: Tree, settled: seq<Settled>, ops: seq<Op>, events: nat -> Events)
    requires settled == []
    ensures Reported(t, settled, ops[..0], [], [], events) && Subsequence(Ops(settled) + [], ops[..0])
  {
    assert Ops(settled) == [];
  }

  lemma SettledByRestart(before: seq<Settled>, entry: seq<Op>, after: seq<Settled>)
    requires |entry| == 1 && after == before + [Settled(entry[0], false)]
    ensures Ops(after) + [] == Ops(before) + entry && AckedOps(after) == AckedOps(before)
  {
    assert after[..|before|] == before;
  }

  // ------------------------------------------------------------------ an entry left behind

  /** Operations that can change no tree: metadata requests that set nothing, and renames of a
      top-level path onto itself or between it and something beneath it. */
  predicate Inert(a: Op) {
    || (a.SetMetadata? && a.mode.None? && a.modified.None?)
    || (a.Rename? && (a.from <= a.to || a.to <= a.from) && |a.to| == 1)
  }

  /** A mount always names something below the root. */
  predicate BelowRoot(a: Op) {
    match a
    case Rename(from, to) => from != [] && to != []
    case Truncate(p, _) => p != []
    case SetMetadata(p, _, _) => p != []
    case Mkdir(p) => p != []
    case MakeSymlink(p, _) => p != []
    case Remove(p, _) => p != []
  }

  /** The mutation `a` failed and its entry was left behind; the next one, `b`, was performed and
      the process died before clearing the journal.  Does the replay leave what b left, or what
      b would have left after a? */
  predicate ReplayedInOrder(t: Tree, a: Op, b: Op) {
    var v := Fold(Perform(t, b).tree, [a, b]);
    v == Perform(t, b).tree || v == Fold(t, [a, b])
  }

  lemma FoldTwo(t: Tree, a: Op, b: Op)
    ensures Fold(t, [a, b]) == Perform(Perform(t, a).tree, b).tree
  {
    assert [a, b] == [a] + [b];
    FoldSnoc(t, [a], b);
    assert [a] == [] + [a];
    FoldSnoc(t, [], a);
  }

  /** A leftover entry is harmless in every tree and before every operation if and only if it is
      inert: recording a mutation is safe just when the journal is empty or holds nothing that
      could matter. */
  lemma LeftoverHarmlessExactly(a: Op)
    requires BelowRoot(a)
    ensures (forall t: Tree, b: Op :: ReplayedInOrder(t, a, b)) <==> Inert(a)
  {
    hide ReplayedInOrder;
    if Inert(a) {
      forall t: Tree, b: Op
        ensures ReplayedInOrder(t, a, b)
      {
        InertIsHarmless(t, a, b);
      }
    } else {
      var t, b := Harm(a);
      assert !ReplayedInOrder(t, a, b);
    }
  }

  lemma InertIsHarmless(t: Tree, a: Op, b: Op)
    requires Inert(a)
    ensures ReplayedInOrder(t, a, b)
  {
    var u := Perform(t, b).tree;
    FoldTwo(u, a, b);
    Idempotent(t, b);
    assert Perform(u, a).tree == u;
  }

  /** The directories from the top down to p. */
  function Chain(p: Rel): Tree {
    if p == [] then map[] else Chain(Parent(p))[p := Directory(0, 0)]
  }

  lemma {:induction false} ChainHas(p: Rel)
    ensures forall k: Rel :: k in Chain(p) <==> k <= p && k != []
    ensures forall k <- Chain(p) :: Chain(p)[k] == Directory(0, 0)
    decreases |p|
  {
    if p != [] {
      ChainHas(Parent(p));
      forall k: Rel
        ensures k in Chain(p) <==> k <= p && k != []
      {
        PrefixOfParent(k, p);
      }
    }
  }

  lemma ChainPlus(p: Rel, q: Rel, node: Node)
    requires !(q <= p)
    ensures DirectoryChain(Chain(p)[q := node], p)
  {
    ChainHas(p);
    forall i: nat | i <= |p|
      ensures IsDirectory(Chain(p)[q := node], p[..i])
    {
      assert p[..i] <= p;
    }
  }

  lemma {:induction false} MakeDirsOk(t: Tree, p: Rel)
    requires forall k <- t :: k <= p ==> t[k].Directory?
    ensures MakeDirs(t, p).ok
    decreases |p|
  {
    if p != [] {
      assert forall k <- t :: k <= Parent(p) ==> k <= p;
      MakeDirsOk(t, Parent(p));
      MakeDirsTwice(t, Parent(p));
    }
  }

  /** Moving a node onto a free path, or over a childless node of its kind. */
  lemma MovesOnto(s: Tree, y: Rel, p: Rel)
    requires y in s && !(y <= p) && !(p <= y) && DirectoryChain(s, Parent(p))
    requires p !in s || (s[p].Directory? == s[y].Directory? && !HasChild(s, p))
    ensures Perform(s, Rename(y, p)) == Outcome(Move(s, y, p), true)
    ensures p in Move(s, y, p) && Move(s, y, p)[p] == s[y] && y !in Move(s, y, p)
    ensures forall k: Rel | !(y <= k) && !(p <= k) :: k in Move(s, y, p) <==> k in s
    ensures forall k <- s | !(y <= k) && !(p <= k) :: Move(s, y, p)[k] == s[k]
  {
    MakeDirsNoop(s, Parent(p));
    assert Relabel(y, p, y) == p && Relabel(p, y, p) == y;
  }

  /** A name that no given path starts with. */
  function Aside(p: Rel, o: Rel): (y: Rel)
    requires p != [] && o != []
    ensures !(y <= p) && !(p <= y) && !(y <= o) && !(o <= y)
  {
    var name := p[0] + o[0] + "x";
    assert name != p[0] && name != o[0];
    [name]
  }

  /** Does the operation take a node like this away from p, or alter it?  o is p or the target of
      the rename. */
  predicate Hits(a: Op, p: Rel, o: Rel, node: Node) {
    match a
    case SetMetadata(q, mode, modified) =>
      q == p == o && node.Regular? &&
      ((mode.Some? && mode.value != node.mode) || (modified.Some? && modified.value != node.modified))
    case MakeSymlink(q, _) => q == p == o && node.Regular?
    case Remove(q, _) => q == p == o && node.Regular?
    case Rename(from, to) => from == p && to == o && !(p <= o) && !(o <= p) && node.Regular?
    case _ => false
  }

  /** What was moved onto the path of the leftover entry is hit by its replay. */
  lemma HarmOnto(a: Op, p: Rel, o: Rel, node: Node) returns (t: Tree, b: Op)
    requires p != [] && o != [] && Hits(a, p, o, node)
    ensures !ReplayedInOrder(t, a, b)
  {
    hide Perform, Move, Chain, MakeDirs, HasChild, Fold, DirectoryChain, Hits;
    var y := Aside(p, o);
    t, b := Chain(Parent(p))[y := node], Rename(y, p);
    var u := MovedThere(t, y, p, node);
    HitBefore(t, a, p, o, y, node);
    HitAfter(u, a, p, o, y, node);
    MovesNothing(Perform(u, a).tree, y, p);
    FoldTwo(u, a, b);
    FoldTwo(t, a, b);
  }

  lemma MovedThere(t: Tree, y: Rel, p: Rel, node: Node) returns (u: Tree)
    requires p != [] && !(y <= p) && !(p <= y) && t == Chain(Parent(p))[y := node]
    ensures u == Perform(t, Rename(y, p)).tree
    ensures y !in u && p in u && u[p] == node && DirectoryChain(u, Parent(p))
    ensures forall k <- u :: k == p || (k <= Parent(p) && u[k].Directory?)
  {
    hide Move, Chain, MakeDirs, Perform, HasChild, Relabel;
    ChainPlus(Parent(p), y, node);
    ChainHas(Parent(p));
    MovesOnto(t, y, p);
    u := Move(t, y, p);
    MoveExact(t, y, p);
    RelabelBack(p, y);
    forall k <- u
      ensures k == p || (k <= Parent(p) && u[k].Directory?)
    {
      PrefixOfParent(y, p);
      if p <= k {
        assert Relabel(p, y, k) == y;
        RelabelTop(y, p);
      }
    }
    ChainKept(t, u, Parent(p));
  }

  lemma RelabelTop(from: Rel, to: Rel)
    ensures Relabel(from, to, from) == to
  {
  }

  lemma MovesNothing(w: Tree, y: Rel, p: Rel)
    requires p != [] && y !in w && !(y <= p)
    ensures var v := Perform(w, Rename(y, p)).tree; p in v <==> p in w
    ensures var v := Perform(w, Rename(y, p)).tree; p in w ==> v[p] == w[p]
  {
    MakeDirsTwice(w, Parent(p));
  }

  /** Performed before the move, the entry spares the moved node. */
  lemma HitBefore(t: Tree, a: Op, p: Rel, o: Rel, y: Rel, node: Node)
    requires p != [] && o != [] && y == Aside(p, o) && t == Chain(Parent(p))[y := node] && Hits(a, p, o, node)
    ensures var v := Perform(Perform(t, a).tree, Rename(y, p)).tree; p in v && v[p] == node
  {
    ChainHas(Parent(p));
    ChainPlus(Parent(p), y, node);
    if a.MakeSymlink? {
      MakeDirsNoop(t, Parent(p));
    } else if a.Rename? {
      MakeDirsTwice(t, Parent(o));
    }
    var s := Perform(t, a).tree;
    ChainKept(t, s, Parent(p));
    MovesOnto(s, y, p);
  }

  /** Performed after it, the entry takes the moved node away or alters it. */
  lemma HitAfter(u: Tree, a: Op, p: Rel, o: Rel, y: Rel, node: Node)
    requires p != [] && o != [] && y == Aside(p, o) && Hits(a, p, o, node)
    requires y !in u && p in u && u[p] == node && DirectoryChain(u, Parent(p))
    requires forall k <- u :: k == p || (k <= Parent(p) && u[k].Directory?)
    ensures var w := Perform(u, a).tree; y !in w && (p !in w || w[p] != node)
  {
    if a.MakeSymlink? {
      MakeDirsNoop(u, Parent(p));
    } else if a.Rename? {
      HitByRename(u, p, o, y);
    }
  }

  lemma HitByRename(u: Tree, p: Rel, o: Rel, y: Rel)
    requires o != [] && p in u && y !in u && !(p <= o) && !(o <= p) && !(y <= o) && !(o <= y)
    requires forall k <- u :: k == p || (k <= Parent(p) && u[k].Directory?)
    ensures var w := Perform(u, Rename(p, o)).tree; y !in w && p !in w
  {
    var above := MakeDirs(u, Parent(o));
    PrefixOfParent(p, o);
    PrefixOfParent(y, o);
    PrefixOfParent(o, p);
    MakeDirsOk(u, Parent(o));
    MakeDirsTwice(u, Parent(o));
    assert !(o <= Parent(o));
    assert o !in above.tree;
    assert OsRename(above.tree, p, o) == Outcome(Move(above.tree, p, o), true);
    forall k <- u | p <= k
      ensures Relabel(p, o, k) != y
    {
    }
  }

  /** What the replay creates anew at d is moved over what was moved from there before. */
  lemma HarmAgain(a: Op, d: Rel, first: Node, again: Node) returns (t: Tree, b: Op)
    requires d != []
    requires Recreates(a, d, first, again)
    ensures !ReplayedInOrder(t, a, b)
  {
    hide Perform, Move, Chain, MakeDirs, Fold, DirectoryChain, Recreates;
    var y := Aside(d, d);
    t, b := Chain(Parent(d))[d := first], Rename(d, y);
    var u := MovedFirst(t, d, y, first);
    AgainAfter(u, a, d, first, again);
    SameSort(a, d, first, again);
    MoveAside(u[d := again], d, y);
    FoldTwo(u, a, b);
    AgainBefore(t, a, d, first, again);
    MoveAside(Perform(t, a).tree, d, y);
    FoldTwo(t, a, b);
  }

  lemma SameSort(a: Op, d: Rel, first: Node, again: Node)
    requires Recreates(a, d, first, again)
    ensures first.Directory? == again.Directory? && first != again
  {
  }

  lemma MovedFirst(t: Tree, d: Rel, y: Rel, first: Node) returns (u: Tree)
    requires d != [] && y == Aside(d, d) && t == Chain(Parent(d))[d := first]
    ensures u == Perform(t, Rename(d, y)).tree
    ensures DirectoryChain(u, Parent(d)) && y in u && u[y] == first
    ensures forall k <- u :: !(d <= k) && !(y < k)
  {
    ChainHas(Parent(d));
    ChainPlus(Parent(d), d, first);
    MoveAside(t, d, y);
    u := Move(t, d, y);
    ChainKept(t, u, Parent(d));
  }

  /** a makes a node `again` at the free path d, where it would have spared the mode of `first`. */
  predicate Recreates(a: Op, d: Rel, first: Node, again: Node) {
    || (a.Truncate? && a.path == d && first == Regular([], 0, 0) && again == NEW_FILE.(data := Resize([], a.size)))
    || (first == Directory(0, 0) && again == NEW_DIRECTORY &&
      (a == Mkdir(d) || (a.Rename? && (a.from <= a.to || a.to <= a.from) && a.to != [] && d == Parent(a.to))))
  }

  lemma MoveAside(s: Tree, d: Rel, y: Rel)
    requires d in s && d != [] && y == Aside(d, d)
    requires y in s ==> s[y].Directory? == s[d].Directory? && !HasChild(s, y)
    ensures Perform(s, Rename(d, y)) == Outcome(Move(s, d, y), true)
    ensures y in Move(s, d, y) && Move(s, d, y)[y] == s[d] && d !in Move(s, d, y)
    ensures forall k: Rel | !(d <= k) && !(y <= k) :: k in Move(s, d, y) <==> k in s
    ensures forall k <- s | !(d <= k) && !(y <= k) :: Move(s, d, y)[k] == s[k]
  {
    assert DirectoryChain(s, Parent(y));
    MovesOnto(s, d, y);
  }

  lemma AgainAfter(u: Tree, a: Op, d: Rel, first: Node, again: Node)
    requires d != [] && DirectoryChain(u, Parent(d)) && Recreates(a, d, first, again)
    requires forall k <- u :: !(d <= k)
    ensures Perform(u, a).tree == u[d := again]
  {
    MakeDirsNoop(u, Parent(d));
  }

  lemma AgainBefore(t: Tree, a: Op, d: Rel, first: Node, again: Node)
    requires d != [] && t == Chain(Parent(d))[d := first] && Recreates(a, d, first, again)
    ensures var s := Perform(t, a).tree;
      d in s && s[d].Directory? == first.Directory? && s[d] != again && Aside(d, d) !in s
  {
    ChainHas(Parent(d));
    ChainPlus(Parent(d), d, first);
    MakeDirsNoop(t, Parent(d));
  }

  lemma Harm(a: Op) returns (t: Tree, b: Op)
    requires BelowRoot(a) && !Inert(a)
    ensures !ReplayedInOrder(t, a, b)
  {
    match a
    case Truncate(p, size) =>
      t, b := HarmAgain(a, p, Regular([], 0, 0), NEW_FILE.(data := Resize([], size)));
    case Mkdir(p) =>
      t, b := HarmAgain(a, p, Directory(0, 0), NEW_DIRECTORY);
    case SetMetadata(p, mode, modified) =>
      t, b := HarmOnto(a, p, p,
        Regular([], if mode.Some? then mode.value + 1 else 0, if modified.Some? then modified.value + 1 else 0));
    case MakeSymlink(p, _) =>
      t, b := HarmOnto(a, p, p, Regular([], 0, 0));
    case Remove(p, _) =>
      t, b := HarmOnto(a, p, p, Regular([], 0, 0));
    case Rename(from, to) =>
      if from <= to || to <= from {
        t, b := HarmAgain(a, Parent(to), Directory(0, 0), NEW_DIRECTORY);
      } else {
        t, b := HarmOnto(a, from, to, Regular([], 0, 0));
      }
  }
}
