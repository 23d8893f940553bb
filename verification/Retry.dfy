/** Requests that are retried under one operation id: the daemon's completion markers, the
    streamed write with its announcements, and the client's retry loop over a connection that
    loses requests and replies and cuts streams anywhere. */
module Retry {
  import opened Bytes
  import opened Network
  import opened Trees
  import opened Streams
  import opened RequestLog
  import CutWrites
  import Ranges

  // ------------------------------------------------------------------ the daemon

  /** What a stream that finds no marker leaves in the log. */
  function Handled(t: Tree, id: OpId, p: Rel, offset: nat, len: nat, frames: seq<File>): Entry {
    var bytes := if OpenFile(t, p).ok then Written(frames, len) else [];
    Entry(id, Stream(p, offset, len), bytes, OpenFile(t, p).ok && |bytes| == len)
  }

  class Daemon {
    var tree: Tree
    var done: set<OpId>
    ghost const initial: Tree
    ghost var log: seq<Entry>

    /** The tree is what the logged entries made of it; the markers are those of the completed
        operations; nothing follows an operation's completion under the same id. */
    ghost predicate Valid()
      reads this
    {
      && tree == Play(initial, log) && Rooted(initial) && Truthful(initial, log)
      && done == Completed(log) && OnceOnly(log)
    }

    constructor (tree: Tree)
      requires Rooted(tree)
      ensures Valid() && this.tree == initial == tree && log == [] && done == {}
    {
      this.tree, done, initial, log := tree, {}, tree, [];
    }

    /** Adds the entry of an attempt that found no marker. */
    ghost method Log(e: Entry)
      requires done == Completed(log) + (if e.complete then {e.id} else {}) && OnceOnly(log) && e.id !in Completed(log)
      requires Rooted(initial) && Truthful(initial, log) && Honest(Play(initial, log), e)
      requires tree == Effect(Play(initial, log), e)
      modifies `log
      ensures Valid() && log == old(log) + [e]
    {
      PlaySnoc(initial, log, e);
      OnceSnoc(log, e);
      log := log + [e];
    }

    /** A request that is performed in one go, unless its marker exists. */
    method Once(id: OpId, op: Op) returns (ok: bool)
      requires Valid()
      modifies this
      ensures Valid()
      ensures id in old(done) ==> ok && tree == old(tree) && log == old(log)
      ensures id !in old(done) ==> ok == Perform(old(tree), op).ok && log == old(log) + [Entry(id, Mutate(op), [], ok)]
      ensures id !in old(done) ==> tree == Perform(old(tree), op).tree
      ensures done == old(done) + (if ok then {id} else {})
    {
      hide Perform, Play, Truthful, OnceOnly, Completed, Rooted;
      if id in done {
        return true;
      }
      var outcome := Perform(tree, op);
      tree := outcome.tree;
      if outcome.ok {
        done := done + {id};
      }
      Log(Entry(id, Mutate(op), [], outcome.ok));
      return outcome.ok;
    }

    /** A streamed write; `frames` is what arrives before the connection breaks.  An attempt that
        finds the marker changes nothing.  Otherwise it writes the frames one by one and, if they
        make up the length, sets the marker. */
    method HandleStream(id: OpId, p: Rel, offset: nat, len: nat, frames: seq<File>)
        returns (ok: bool, events: seq<Tile>)
      requires Valid()
      modifies this
      ensures Valid()
      ensures id in old(done) ==>
        tree == old(tree) && log == old(log) && events == [] && ok == (|Written(frames, len)| == len)
      ensures id !in old(done) ==>
        var e := Handled(old(tree), id, p, offset, len, frames); log == old(log) + [e] && ok == e.complete
      ensures id !in old(done) ==>
        events == if OpenFile(old(tree), p).ok then Announcements(offset, len, frames[..Taken(frames, len)]) else []
      ensures id !in old(done) ==> done == old(done) + (if ok then {id} else {})
      ensures id !in old(done) && !OpenFile(old(tree), p).ok ==> tree == old(tree)
      ensures id in old(done) ==> done == old(done)
    {
      PlayRooted(initial, log);
      OpenRooted(tree, p);
      hide Play, Truthful, OnceOnly, Completed, Rooted, WriteFile, OpenFile, Written, Announcements;
      ok, events := false, [];
      if id in done {
        ok := Drain(len, frames);
        return;
      }
      var file := OpenFile(tree, p);
      if !file.ok {
        tree := file.tree;
        Log(Entry(id, Stream(p, offset, len), [], false));
        return;
      }
      Opens(tree, p);
      tree := file.tree;
      ok, events := WriteFrames(p, offset, len, frames);
      if ok {
        done := done + {id};
      }
      Log(Entry(id, Stream(p, offset, len), Written(frames, len), ok));
    }

    /** The loop over the frames of an open file, announcing as it goes. */
    method WriteFrames(p: Rel, offset: nat, len: nat, frames: seq<File>) returns (ok: bool, events: seq<Tile>)
      requires p in tree && tree[p].Regular?
      modifies `tree
      ensures tree == WriteFile(old(tree), p, offset, Written(frames, len))
      ensures ok == (|Written(frames, len)| == len)
      ensures events == Announcements(offset, len, frames[..Taken(frames, len)])
    {
      var k, written, announced := 0, 0, 0;
      events := [];
      NothingWritten(tree, p, offset, len, frames);
      hide *;
      while written < len
        invariant k <= |frames| && written == |Ranges.Concat(frames[..k])| <= len
        invariant Taken(frames, len) == k + Taken(frames[k..], len - written)
        invariant tree == WriteFile(old(tree), p, offset, Ranges.Concat(frames[..k]))
        invariant announced == Told(frames[..k]) && events == Tiles(offset, frames[..k])
        decreases |frames| - k
      {
        NextTaken(frames, len, k);
        if k == |frames| || written + |frames[k]| > len {
          StreamEnds(offset, len, frames);
          return false, events;
        }
        FrameWritten(old(tree), p, offset, frames, k);
        FrameAnnounced(offset, frames, k);
        tree := WriteFile(tree, p, offset + written, frames[k]);
        written := written + |frames[k]|;
        k := k + 1;
        if written - announced >= STREAM_ANNOUNCE_BYTES {
          events := events + [Tile(offset + announced, written - announced)];
          announced := written;
        }
      }
      NextTaken(frames, len, k);
      StreamEnds(offset, len, frames);
      if written > announced || len == 0 {
        events := events + [Tile(offset + announced, written - announced)];
      }
      ok := true;
    }

    /** Reads the rest of a stream that is not needed any more. */
    method Drain(len: nat, frames: seq<File>) returns (ok: bool)
      ensures ok == (|Written(frames, len)| == len)
    {
      NothingWritten(map[], [], 0, len, frames);
      StreamEnds(0, len, frames);
      hide *;
      var k, read := 0, 0;
      while read < len
        invariant k <= |frames| && read == |Ranges.Concat(frames[..k])| <= len
        invariant Taken(frames, len) == k + Taken(frames[k..], len - read)
        decreases |frames| - k
      {
        NextTaken(frames, len, k);
        if k == |frames| || read + |frames[k]| > len {
          return false;
        }
        read := read + |frames[k]|;
        k := k + 1;
      }
      NextTaken(frames, len, k);
      return true;
    }
  }

  lemma NothingWritten(t: Tree, p: Rel, offset: nat, len: nat, frames: seq<File>)
    ensures Ranges.Concat(frames[..0]) == [] && WriteFile(t, p, offset, []) == t
    ensures Told(frames[..0]) == 0 && Tiles(offset, frames[..0]) == []
    ensures frames[0..] == frames
  {
  }

  lemma Opens(t: Tree, p: Rel)
    requires OpenFile(t, p).ok
    ensures p in OpenFile(t, p).tree && OpenFile(t, p).tree[p].Regular?
  {
  }

  /** Writing the next frame behind the others writes their concatenation. */
  lemma FrameWritten(t: Tree, p: Rel, offset: nat, frames: seq<File>, k: nat)
    requires k < |frames|
    ensures WriteFile(WriteFile(t, p, offset, Ranges.Concat(frames[..k])), p, offset + |Ranges.Concat(frames[..k])|,
      frames[k])
         == WriteFile(t, p, offset, Ranges.Concat(frames[..k + 1]))
  {
    hide WriteAt, Ranges.Concat;
    if p in t && t[p].Regular? {
      FrameContent(t[p].data, offset, frames, k);
    }
  }

  lemma FrameAnnounced(offset: nat, frames: seq<File>, k: nat)
    requires k < |frames|
    ensures var written, told := |Ranges.Concat(frames[..k + 1])|, Told(frames[..k]);
      && Told(frames[..k + 1]) == (if written - told >= STREAM_ANNOUNCE_BYTES then written else told)
      && Tiles(offset, frames[..k + 1])
         == Tiles(offset, frames[..k]) + if written - told >= STREAM_ANNOUNCE_BYTES then
           [Tile(offset + told, written - told)] else []
  {
    assert frames[..k + 1][..k] == frames[..k];
  }

  lemma StreamEnds(offset: nat, len: nat, frames: seq<File>)
    ensures var sent := frames[..Taken(frames, len)];
      && Written(frames, len) == Ranges.Concat(sent)
      && Announcements(offset, len, sent)
         == Tiles(offset, sent) + (if |Ranges.Concat(sent)| == len &&
           (len > Told(sent) || len == 0) then [Tile(offset + Told(sent), len - Told(sent))] else [])
  {
    assert Tiles(offset, frames[..Taken(frames, len)]) + [] == Tiles(offset, frames[..Taken(frames, len)]);
  }

  // ------------------------------------------------------------------ the client

  datatype Answer = Reply(ok: bool) | Broken

  datatype OpResult = Done | ServerError | GaveUp

  /** What happens to one attempt: its fate, how many frames of a stream arrive if the whole does
      not, and whether the client can connect again afterwards. */
  datatype Events = Events(fate: Fate, frames: nat, reconnects: bool)

  /** Another client's request that reaches the daemon. */
  type Foreign = (OpId, Request, Events)

  /** Do the attempts end without an answer: at a failed reconnection or with the last retry? */
  ghost predicate GivesUp(events: nat -> Events, retries: nat) {
    exists n: nat :: 0 < n <= retries + 1 && Unanswered(events, n) && (n == retries + 1 || !events(n - 1).reconnects)
  }

  predicate Unanswered(events: nat -> Events, n: nat) {
    forall k: nat :: k < n ==> events(k).fate != Answered
  }

  /** The bytes written of a stream: all if it is answered, whole frames of the size it is sent in if
      it is not, and none without a file. */
  function Arriving(req: Request, e: Events, opens: bool): File {
    if !req.Write? || !opens then []
    else if e.fate == Answered then req.data
    else req.data[..Min(|req.data|, e.frames * STREAM_WRITE_CHUNK_SIZE)]
  }

  /** One attempt: the request may be lost, the stream cut after any frame, the reply lost. */
  method Attempt(d: Daemon, id: OpId, req: Request, e: Events) returns (r: Answer, ghost added: seq<Entry>)
    requires d.Valid()
    modifies d
    ensures d.Valid() && old(d.done) <= d.done
    ensures d.log == old(d.log) + added
    ensures forall x <- added :: x.id == id && Attempts(x, req)
    ensures forall x <- added :: x.bytes == Arriving(req, e, Succeeds(old(d.tree), ActionOf(req)))
    ensures forall x <- added ::
      x.complete <==> Succeeds(old(d.tree), ActionOf(req)) && (req.Write? ==> x.bytes == req.data)
    ensures id in old(d.done) ==> d.tree == old(d.tree) && added == []
    ensures id !in old(d.done) && e.fate != RequestLost ==> |added| == 1
    ensures e.fate == RequestLost ==> d.tree == old(d.tree) && d.done == old(d.done) && added == []
    ensures r == if e.fate != Answered then Broken else Reply(id in old(d.done) || Succeeds(old(d.tree), ActionOf(req)))
    ensures r.Reply? ==> (r.ok <==> id in d.done)
    ensures r.Reply? && !r.ok ==> !Succeeds(d.tree, ActionOf(req))
  {
    hide Play, Effect, Perform, OpenFile, OnceOnly, Completed, Truthful, Rooted, Written, Ranges.Chunks, Announcements;
    added := [];
    if e.fate == RequestLost {
      assert d.log == old(d.log) + [];
      return Broken, added;
    }
    match req
    case Call(op) =>
      Idempotent(d.tree, op);
      var ok := d.Once(id, op);
      added := if id in old(d.done) then [] else [Entry(id, Mutate(op), [], ok)];
      return if e.fate == Answered then Reply(ok) else Broken, added;
    case Write(p, offset, data) =>
      var sent := Ranges.Chunks(data, STREAM_WRITE_CHUNK_SIZE);
      var m := if e.fate == Answered then |sent| else Min(e.frames, |sent|);
      SentWritten(data, sent, m);
      var ok, _ := d.HandleStream(id, p, offset, |data|, sent[..m]);
      added := if id in old(d.done) then [] else [Handled(old(d.tree), id, p, offset, |data|, sent[..m])];
      return if e.fate == Answered then Reply(ok) else Broken, added;
  }

  lemma SentWritten(data: File, all: seq<File>, m: nat)
    requires all == Ranges.Chunks(data, STREAM_WRITE_CHUNK_SIZE) && m <= |all|
    ensures Written(all[..m], |data|) <= data
    ensures m == |all| ==> Written(all[..m], |data|) == data
    ensures |Written(all[..m], |data|)| == |data| ==> Written(all[..m], |data|) == data
    ensures Written(all[..m], |data|) == data[..Min(|data|, m * STREAM_WRITE_CHUNK_SIZE)]
    ensures |data| <= |all| * STREAM_WRITE_CHUNK_SIZE
  {
    SentBytes(data, all, m);
    hide Ranges.Chunks, Taken, Ranges.Concat;
    SentTaken(data, all, m);
    SentPrefix(data, all, m);
    assert all[..m][..m] == all[..m];
  }

  /** Does this entry come from the operation, or from one of the other requests that were sent? */
  ghost predicate Asked(e: Entry, id: OpId, req: Request, others: nat -> seq<Foreign>) {
    if e.id == id then Attempts(e, req) else exists k: nat, o :: o in others(k) && e.id == o.0 && Attempts(e, o.1)
  }

  /** Has an arriving request left a trace: its marker, or an entry among those added? */
  ghost predicate Heard(done: set<OpId>, added: seq<Entry>, id: OpId) {
    id in done || exists e <- added :: e.id == id
  }

  /** Have the requests of the k-th batch, and the k-th attempt, been handled unless they were lost? */
  ghost predicate Arrived(done: set<OpId>, added: seq<Entry>, id: OpId, k: nat, events: nat -> Events,
      others: nat -> seq<Foreign>) {
    && (events(k).fate != RequestLost ==> Heard(done, added, id))
    && forall o <- others(k) :: o.2.fate != RequestLost ==> Heard(done, added, o.0)
  }

  /** Does the retry loop get to attempt k? */
  predicate Reached(events: nat -> Events, k: nat) {
    Unanswered(events, k) && forall j: nat :: j < k ==> events(j).reconnects
  }

  lemma StillArrived(done: set<OpId>, added: seq<Entry>, done': set<OpId>, added': seq<Entry>, id: OpId, k: nat,
      events: nat -> Events, others: nat -> seq<Foreign>)
    requires Arrived(done, added, id, k, events, others) && done <= done' && added <= added'
    ensures Arrived(done', added', id, k, events, others)
  {
    StillHeard(done, added, done', added');
    hide Heard;
  }

  lemma StillHeard(done: set<OpId>, added: seq<Entry>, done': set<OpId>, added': seq<Entry>)
    requires done <= done' && added <= added'
    ensures forall id :: Heard(done, added, id) ==> Heard(done', added', id)
  {
    forall id | Heard(done, added, id)
      ensures Heard(done', added', id)
    {
      if id !in done {
        var e :| e in added && e.id == id;
        assert e in added';
      }
    }
  }

  /** Do all other requests come beside a write to p? */
  ghost predicate AllBeside(others: nat -> seq<Foreign>, p: Rel, stays: bool) {
    forall k: nat, o | o in others(k) :: CutWrites.Beside(ActionOf(o.1), p, stays)
  }

  /** What an operation amounts to, given what was added to the log while it was retried. */
  lemma CallInEffect(t: Tree, log: seq<Entry>, id: OpId, req: Request, others: nat -> seq<Foreign>)
    requires Rooted(t) && Truthful(t, log) && forall e <- log :: Asked(e, id, req, others)
    requires req.Call? && (id in Completed(log) || !IntoItself(req.op))
    ensures Play(t, log) == Play(t, OnceInEffect(log, id))
  {
    RetriedCallIsOneCall(t, log, id, req.op);
  }

  lemma WriteInEffect(t: Tree, log: seq<Entry>, id: OpId, req: Request, others: nat -> seq<Foreign>, stays: bool)
    requires Rooted(t) && Truthful(t, log) && OnceOnly(log) && forall e <- log :: Asked(e, id, req, others)
    requires req.Write? && (stays ==> req.path in t) && AllBeside(others, req.path, stays)
    ensures id in Completed(log) ==> Play(t, log) == Play(t, OnceInEffect(log, id))
    ensures id !in Completed(log) ==>
      CutWrites.Alike(Play(t, log), Play(t, OnceInEffect(log, id)), req.path, req.offset, |req.data|)
  {
    hide Truthful, OnceOnly, Completed, Play, Rooted, CutWrites.Beside, CutWrites.Alike;
    CutWrites.RetriedWriteIsOneWrite(t, log, id, req.path, req.offset, req.data, stays);
  }

  lemma AloneInEffect(t: Tree, log: seq<Entry>, id: OpId, req: Request, others: nat -> seq<Foreign>)
    requires Rooted(t) && Truthful(t, log) && OnceOnly(log) && forall e <- log :: Asked(e, id, req, others)
    requires id in Completed(log) && forall k: nat :: others(k) == []
    ensures Play(t, log) == Effect(t, Whole(id, req))
  {
    hide Truthful, OnceOnly, Completed, Play, Rooted, CutWrites.Beside, CutWrites.Alike, Effect;
    Alone(t, log, id, req);
    if req.Call? {
      CallInEffect(t, log, id, req, others);
    } else {
      WriteInEffect(t, log, id, req, others, false);
    }
  }

  /** What was added to the daemon's log, seen from the tree that was there before. */
  lemma Since(d: Daemon, before: seq<Entry>)
    requires d.Valid() && before <= d.log
    ensures var t, log := Play(d.initial, before), d.log[|before|..];
      && Rooted(t) && Truthful(t, log) && OnceOnly(log) && d.tree == Play(t, log)
      && d.done == Completed(before) + Completed(log)
  {
    var log := d.log[|before|..];
    assert d.log == before + log;
    PlayAppend(d.initial, before, log);
    PlayRooted(d.initial, before);
    OnceSuffix(before, log);
  }

  /** The retry loop.  Before each attempt other clients' requests reach the daemon, whole or
      cut.  Whatever is lost, an Ok means that the operation is complete, and it gives up exactly
      when the attempts end without an answer.  Among whatever else is sent, a call amounts to one
      performance where it is completed, or to none; so does a write among whatever is sent beside
      it. */
  method PerformOp(d: Daemon, id: OpId, req: Request, retries: nat, events: nat -> Events, others: nat -> seq<Foreign>)
    returns (r: OpResult)
    requires d.Valid() && id !in d.done && forall k: nat, o | o in others(k) :: o.0 != id
    modifies d
    ensures d.Valid() && old(d.log) <= d.log
    ensures r == Done ==> id in d.done
    ensures r == ServerError ==> id !in d.done && !Succeeds(d.tree, ActionOf(req))
    ensures r == GaveUp <==> GivesUp(events, retries)
    ensures forall e <- d.log[|old(d.log)|..] :: Asked(e, id, req, others)
    ensures forall k: nat ::
      k <= retries && Reached(events, k) ==> Arrived(d.done, d.log[|old(d.log)|..], id, k, events, others)
    ensures d.tree == Play(old(d.tree), d.log[|old(d.log)|..]) &&
      d.done == old(d.done) + Completed(d.log[|old(d.log)|..])
    ensures req.Call? && (id in d.done || !IntoItself(req.op)) ==>
      d.tree == Play(old(d.tree), OnceInEffect(d.log[|old(d.log)|..], id))
    ensures req.Write? && id in d.done ==>
      forall stays: bool | (stays ==> req.path in old(d.tree)) && AllBeside(others, req.path, stays) ::
        d.tree == Play(old(d.tree), OnceInEffect(d.log[|old(d.log)|..], id))
    ensures req.Write? && id !in d.done ==>
      forall stays: bool | (stays ==> req.path in old(d.tree)) && AllBeside(others, req.path, stays) ::
        CutWrites.Alike(d.tree, Play(old(d.tree), OnceInEffect(d.log[|old(d.log)|..], id)), req.path, req.offset,
          |req.data|)
    ensures id in d.done && (forall k: nat :: others(k) == []) ==> d.tree == Effect(old(d.tree), Whole(id, req))
  {
    ghost var t := d.tree;
    assert t == Play(d.initial, d.log) && d.done == Completed(d.log);
    r := Repeat(d, id, req, retries, events, others);
    Since(d, old(d.log));
    hide *;
    ghost var log := d.log[|old(d.log)|..];
    if req.Call? && (id in d.done || !IntoItself(req.op)) {
      CallInEffect(t, log, id, req, others);
    }
    if req.Write? {
      forall stays: bool | (stays ==> req.path in t) && AllBeside(others, req.path, stays)
        ensures id in d.done ==> d.tree == Play(t, OnceInEffect(log, id))
        ensures id !in d.done ==>
          CutWrites.Alike(d.tree, Play(t, OnceInEffect(log, id)), req.path, req.offset, |req.data|)
      {
        WriteInEffect(t, log, id, req, others, stays);
      }
    }
    if id in d.done && forall k: nat :: others(k) == [] {
      AloneInEffect(t, log, id, req, others);
    }
  }

  method Repeat(d: Daemon, id: OpId, req: Request, retries: nat, events: nat -> Events, others: nat -> seq<Foreign>)
    returns (r: OpResult)
    requires d.Valid() && id !in d.done && forall k: nat, o | o in others(k) :: o.0 != id
    modifies d
    ensures d.Valid() && old(d.log) <= d.log
    ensures r == Done ==> id in d.done
    ensures r == ServerError ==> id !in d.done && !Succeeds(d.tree, ActionOf(req))
    ensures r == GaveUp <==> GivesUp(events, retries)
    ensures forall e <- d.log[|old(d.log)|..] :: Asked(e, id, req, others)
    ensures forall k: nat ::
      k <= retries && Reached(events, k) ==> Arrived(d.done, d.log[|old(d.log)|..], id, k, events, others)
  {
    hide *;
    var attempt := 0;
    NoneYet(events);
    while true
      invariant d.Valid() && old(d.log) <= d.log && attempt <= retries
      invariant Unanswered(events, attempt) && forall k: nat :: k < attempt ==> events(k).reconnects
      invariant forall e <- d.log[|old(d.log)|..] :: Asked(e, id, req, others)
      invariant forall k: nat :: k < attempt ==> Arrived(d.done, d.log[|old(d.log)|..], id, k, events, others)
      decreases retries - attempt
    {
      ghost var done, log := d.done, d.log[|old(d.log)|..];
      var answer := Try(d, id, req, attempt, events, others, |old(d.log)|);
      forall k: nat | k < attempt
        ensures Arrived(d.done, d.log[|old(d.log)|..], id, k, events, others)
      {
        StillArrived(done, log, d.done, d.log[|old(d.log)|..], id, k, events, others);
      }
      LastReached(events, retries, attempt);
      match answer {
        case Reply(ok) =>
          AnsweredInTime(events, retries, attempt);
          return if ok then Done else ServerError;
        case Broken =>
          UnansweredToo(events, attempt);
          if attempt >= retries || !events(attempt).reconnects {
            NeverAnswered(events, retries, attempt);
            return GaveUp;
          }
          attempt := attempt + 1;
      }
    }
  }

  /** Others, and then one attempt. */
  method Try(d: Daemon, id: OpId, req: Request, attempt: nat, events: nat -> Events, others: nat -> seq<Foreign>,
      ghost start: nat) returns (r: Answer)
    requires d.Valid() && forall k: nat, o | o in others(k) :: o.0 != id
    requires start <= |d.log| && forall e <- d.log[start..] :: Asked(e, id, req, others)
    modifies d
    ensures d.Valid() && old(d.log) <= d.log && old(d.done) <= d.done
    ensures forall e <- d.log[start..] :: Asked(e, id, req, others)
    ensures Arrived(d.done, d.log[start..], id, attempt, events, others)
    ensures r.Reply? <==> events(attempt).fate == Answered
    ensures r.Reply? ==> (r.ok <==> id in d.done)
    ensures r.Reply? && !r.ok ==> !Succeeds(d.tree, ActionOf(req))
  {
    hide *;
    Interleave(d, id, req, others, attempt, start);
    ghost var before, done := d.log, d.done;
    ghost var added: seq<Entry>;
    r, added := Attempt(d, id, req, events(attempt));
    Added(before, added, start, id, req, req, others, attempt);
    assert d.log[start..] == before[start..] + added;
    NowArrived(done, before[start..], d.done, added, id, attempt, events, others);
  }

  lemma NowArrived(done: set<OpId>, before: seq<Entry>, now: set<OpId>, added: seq<Entry>, id: OpId, k: nat,
      events: nat -> Events, others: nat -> seq<Foreign>)
    requires forall o <- others(k) :: o.2.fate != RequestLost ==> Heard(done, before, o.0)
    requires done <= now && (forall e <- added :: e.id == id) &&
      (id !in done && events(k).fate != RequestLost ==> |added| == 1)
    ensures Arrived(now, before + added, id, k, events, others)
  {
    StillHeard(done, before, now, before + added);
    if id !in done && events(k).fate != RequestLost {
      assert added[0] in before + added;
    }
  }

  /** An answer, the last retry or a failed reconnection ends the loop. */
  lemma LastReached(events: nat -> Events, retries: nat, attempt: nat)
    requires attempt <= retries
    ensures events(attempt).fate == Answered || attempt == retries || !events(attempt).reconnects ==>
      forall k: nat :: k <= retries && Reached(events, k) ==> k <= attempt
  {
  }

  lemma AnsweredInTime(events: nat -> Events, retries: nat, attempt: nat)
    requires attempt <= retries && events(attempt).fate == Answered && forall k: nat ::
      k < attempt ==> events(k).reconnects
    ensures !GivesUp(events, retries)
  {
  }

  lemma UnansweredToo(events: nat -> Events, n: nat)
    requires Unanswered(events, n) && events(n).fate != Answered
    ensures Unanswered(events, n + 1)
  {
  }

  lemma NoneYet(events: nat -> Events)
    ensures Unanswered(events, 0)
  {
  }

  lemma NeverAnswered(events: nat -> Events, retries: nat, attempt: nat)
    requires attempt <= retries && (attempt == retries || !events(attempt).reconnects)
    requires Unanswered(events, attempt) && events(attempt).fate != Answered
    ensures GivesUp(events, retries)
  {
    assert Unanswered(events, attempt + 1);
  }

  /** Entries of the operation's own attempts, or of a request of the k-th batch of others. */
  lemma Added(log: seq<Entry>, added: seq<Entry>, start: nat, id: OpId, req: Request, from: Request,
      others: nat -> seq<Foreign>, k: nat)
    requires start <= |log| && forall e <- log[start..] :: Asked(e, id, req, others)
    requires forall e <- added ::
      Attempts(e, from) &&
      ((e.id == id && from == req) || (e.id != id && exists o <- others(k) :: o.0 == e.id && o.1 == from))
    ensures forall e <- (log + added)[start..] :: Asked(e, id, req, others)
  {
    assert (log + added)[start..] == log[start..] + added;
  }

  /** Requests of other clients in between. */
  method Interleave(d: Daemon, ghost id: OpId, ghost req: Request, others: nat -> seq<Foreign>, k: nat,
      ghost start: nat)
    requires d.Valid() && forall o <- others(k) :: o.0 != id
    requires start <= |d.log| && forall e <- d.log[start..] :: Asked(e, id, req, others)
    modifies d
    ensures d.Valid() && old(d.log) <= d.log && old(d.done) <= d.done
    ensures forall e <- d.log[start..] :: Asked(e, id, req, others)
    ensures forall o <- others(k) :: o.2.fate != RequestLost ==> Heard(d.done, d.log[start..], o.0)
  {
    hide *;
    var batch := others(k);
    for i := 0 to |batch|
      invariant d.Valid() && old(d.log) <= d.log && old(d.done) <= d.done
      invariant forall e <- d.log[start..] :: Asked(e, id, req, others)
      invariant forall j: nat :: j < i && batch[j].2.fate != RequestLost ==> Heard(d.done, d.log[start..], batch[j].0)
    {
      ghost var before, done := d.log, d.done;
      var o := batch[i];
      assert o in others(k);
      var _, added := Attempt(d, o.0, o.1, o.2);
      Added(before, added, start, id, req, o.1, others, k);
      assert d.log[start..] == before[start..] + added;
      StillHeard(done, before[start..], d.done, d.log[start..]);
      NowHeard(done, before[start..], d.done, added, o.0, o.2.fate);
    }
  }

  lemma NowHeard(done: set<OpId>, before: seq<Entry>, now: set<OpId>, added: seq<Entry>, id: OpId, fate: Fate)
    requires done <= now && (forall e <- added :: e.id == id) && (id !in done && fate != RequestLost ==> |added| == 1)
    ensures fate != RequestLost ==> Heard(now, before + added, id)
  {
    if id !in done && fate != RequestLost {
      assert added[0] in before + added;
    }
  }

  class Client {
    const nonce: nat
    var counter: nat

    constructor (nonce: nat)
      ensures this.nonce == nonce && counter == 0
    {
      this.nonce, counter := nonce, 0;
    }

    /** Has this client used no id beyond its count? */
    ghost predicate Fresh(d: Daemon)
      reads this, d
    {
      forall id <- d.done :: id.0 == nonce ==> id.1 <= counter
    }

    method NextOpId() returns (id: OpId)
      modifies this
      ensures counter == old(counter) + 1 && id == (nonce, counter)
    {
      counter := counter + 1;
      return (nonce, counter);
    }

    /** A streamed write, from the id to the last retry.  Ok means: performed once in effect, in
        one piece, whatever other clients do beside it; and if nobody else is active, performed. */
    method WriteFileAt(d: Daemon, p: Rel, offset: nat, data: File, retries: nat, events: nat -> Events,
        others: nat -> seq<Foreign>)
      returns (r: OpResult, ghost id: OpId)
      requires d.Valid() && Fresh(d)
      requires forall k: nat, o | o in others(k) :: o.0.0 != nonce
      modifies this, d
      ensures d.Valid() && Fresh(d) && old(d.log) <= d.log
      ensures id.0 == nonce && id !in old(d.done) && (r == Done ==> id in d.done)
      ensures r == ServerError ==> id !in d.done && !Succeeds(d.tree, ActionOf(Write(p, offset, data)))
      ensures r == GaveUp <==> GivesUp(events, retries)
      ensures forall e <- d.log[|old(d.log)|..] :: Asked(e, id, Write(p, offset, data), others)
      ensures forall k: nat ::
        k <= retries && Reached(events, k) ==> Arrived(d.done, d.log[|old(d.log)|..], id, k, events, others)
      ensures r == Done ==>
        forall stays: bool | (stays ==> p in old(d.tree)) && AllBeside(others, p, stays) ::
          d.tree == Play(old(d.tree), OnceInEffect(d.log[|old(d.log)|..], id))
      ensures r == Done && (forall k: nat :: others(k) == []) ==>
        d.tree == Effect(old(d.tree), Whole(id, Write(p, offset, data)))
    {
      var op := NextOpId();
      id := op;
      r := PerformOp(d, op, Write(p, offset, data), retries, events, others);
      StaysFresh(old(d.done), d.log[|old(d.log)|..], id, Write(p, offset, data), others, nonce, counter);
      hide *;
    }
  }

  lemma StaysFresh(done: set<OpId>, log: seq<Entry>, id: OpId, req: Request, others: nat -> seq<Foreign>, nonce: nat,
      counter: nat)
    requires forall x <- done :: x.0 == nonce ==> x.1 < counter
    requires id == (nonce, counter) && forall k: nat, o | o in others(k) :: o.0.0 != nonce
    requires forall e <- log :: Asked(e, id, req, others)
    ensures forall x <- done + Completed(log) :: x.0 == nonce ==> x.1 <= counter
  {
  }

  // ------------------------------------------------------------------ attempts that overlap

  /** Handlers of one streamed write that found no marker, with the bytes each has written, next
      to writes of other clients to the same file. */
  datatype Race = Race(file: File, marked: bool, running: map<nat, nat>)

  datatype RaceStep =
    | Start(h: nat)
    | Chunk(h: nat, k: nat)
    | Mark(h: nat)
    | Drop(h: nat)
    | ForeignWrite(at: nat, bytes: File)

  predicate CanStep(s: Race, l: RaceStep, data: File) {
    match l
    case Start(h) => h !in s.running
    case Chunk(h, k) => h in s.running && k > 0 && s.running[h] + k <= |data|
    case Mark(h) => h in s.running && s.running[h] == |data|
    case Drop(h) => true
    case ForeignWrite(_, _) => true
  }

  function Step(s: Race, l: RaceStep, offset: nat, data: File): Race
    requires CanStep(s, l, data)
  {
    match l
    case Start(h) => if s.marked then s else s.(running := s.running[h := 0])
    case Chunk(h, k) =>
      var w := s.running[h];
      s.(file := WriteAt(s.file, offset + w, data[w..w + k]), running := s.running[h := w + k])
    case Mark(h) => s.(marked := true, running := s.running - {h})
    case Drop(h) => s.(running := s.running - {h})
    case ForeignWrite(at, bytes) => s.(file := WriteAt(s.file, at, bytes))
  }

  predicate RaceRuns(s: Race, steps: seq<RaceStep>, offset: nat, data: File)
    decreases |steps|
  {
    steps == [] || (CanStep(s, steps[0], data) && RaceRuns(Step(s, steps[0], offset, data), steps[1..], offset, data))
  }

  /** Does some step of the operation itself change the file along this run? */
  predicate Disturbs(s: Race, steps: seq<RaceStep>, offset: nat, data: File)
    requires RaceRuns(s, steps, offset, data)
    decreases |steps|
  {
    steps != [] &&
    var t := Step(s, steps[0], offset, data);
    (!steps[0].ForeignWrite? && t.file != s.file) || Disturbs(t, steps[1..], offset, data)
  }

  predicate Disturbing(s: Race, steps: seq<RaceStep>, offset: nat, data: File) {
    RaceRuns(s, steps, offset, data) && Disturbs(s, steps, offset, data)
  }

  predicate AllWritten(s: Race, data: File) {
    forall h <- s.running :: s.running[h] >= |data|
  }

  /** Once the marker exists the operation can still change the file if and only if a handler
      that had found no marker has bytes left to write: an attempt that was given up by the
      client but is still being served.  Attempts that do not overlap never disturb. */
  lemma StragglerExactly(s: Race, offset: nat, data: File)
    requires s.marked
    ensures (exists steps :: Disturbing(s, steps, offset, data)) <==> !AllWritten(s, data)
  {
    if AllWritten(s, data) {
      forall steps | RaceRuns(s, steps, offset, data)
        ensures !Disturbing(s, steps, offset, data)
      {
        QuietRun(s, steps, offset, data);
      }
    } else {
      var steps := Straggler(s, offset, data);
      assert Disturbing(s, steps, offset, data);
    }
  }

  function Raced(s: Race, steps: seq<RaceStep>, offset: nat, data: File): Race
    requires RaceRuns(s, steps, offset, data)
    decreases |steps|
  {
    if steps == [] then s else Raced(Step(s, steps[0], offset, data), steps[1..], offset, data)
  }

  /** It comes to that from the start for any data: of two attempts that both find no marker, one is
      served to its end before the other writes anything. */
  lemma StragglerReached(file: File, offset: nat, data: File) returns (steps: seq<RaceStep>)
    requires data != []
    ensures RaceRuns(Race(file, false, map[]), steps, offset, data)
    ensures var t := Raced(Race(file, false, map[]), steps, offset, data);
      t.marked && t.file == WriteAt(file, offset, data) && !AllWritten(t, data)
  {
    hide WriteAt;
    steps := [Start(0), Start(1), Chunk(0, |data|), Mark(0)];
    var s := Race(file, false, map[]);
    var t := Step(s, Start(0), offset, data);
    var u := Step(t, Start(1), offset, data);
    var v := Step(u, Chunk(0, |data|), offset, data);
    var w := Step(v, Mark(0), offset, data);
    assert data[0..0 + |data|] == data && w == Race(WriteAt(file, offset, data), true, map[1 := 0]);
    assert RaceRuns(w, [], offset, data) && Raced(w, [], offset, data) == w;
    RaceCons(v, Mark(0), [], offset, data);
    RaceCons(u, Chunk(0, |data|), [Mark(0)], offset, data);
    RaceCons(t, Start(1), [Chunk(0, |data|), Mark(0)], offset, data);
    RaceCons(s, Start(0), [Start(1), Chunk(0, |data|), Mark(0)], offset, data);
    assert [Chunk(0, |data|)] + [Mark(0)] == [Chunk(0, |data|), Mark(0)];
    assert [Start(1)] + [Chunk(0, |data|), Mark(0)] == [Start(1), Chunk(0, |data|), Mark(0)];
    assert [Start(0)] + [Start(1), Chunk(0, |data|), Mark(0)] == steps;
  }

  lemma RaceCons(s: Race, l: RaceStep, rest: seq<RaceStep>, offset: nat, data: File)
    requires CanStep(s, l, data) && RaceRuns(Step(s, l, offset, data), rest, offset, data)
    ensures RaceRuns(s, [l] + rest, offset, data)
    ensures Raced(s, [l] + rest, offset, data) == Raced(Step(s, l, offset, data), rest, offset, data)
  {
    hide Step, CanStep;
    assert ([l] + rest)[1..] == rest;
  }

  /** After the marker no attempt begins to write. */
  lemma {:induction false} MarkedStartsNothing(s: Race, steps: seq<RaceStep>, offset: nat, data: File)
    requires s.marked && RaceRuns(s, steps, offset, data)
    ensures Raced(s, steps, offset, data).running.Keys <= s.running.Keys
    decreases |steps|
  {
    if steps != [] {
      MarkedStartsNothing(Step(s, steps[0], offset, data), steps[1..], offset, data);
    }
  }

  /** Another client's write of a different byte, then the straggler's next byte over it. */
  lemma Straggler(s: Race, offset: nat, data: File) returns (steps: seq<RaceStep>)
    requires !AllWritten(s, data)
    ensures Disturbing(s, steps, offset, data)
  {
    var h :| h in s.running && s.running[h] < |data|;
    var w := s.running[h];
    var other: byte := if data[w] == 0 then 1 else 0;
    steps := [ForeignWrite(offset + w, [other]), Chunk(h, 1)];
    var t := Step(s, steps[0], offset, data);
    var u := Step(t, Chunk(h, 1), offset, data);
    assert steps[1..] == [Chunk(h, 1)] && steps[1..][1..] == [];
    assert t.file[offset + w] == other && u.file[offset + w] == data[w];
    assert RaceRuns(t, steps[1..], offset, data) && Disturbs(t, steps[1..], offset, data);
  }

  lemma {:induction false} QuietRun(s: Race, steps: seq<RaceStep>, offset: nat, data: File)
    requires s.marked && AllWritten(s, data) && RaceRuns(s, steps, offset, data)
    ensures !Disturbs(s, steps, offset, data)
    decreases |steps|
  {
    if steps != [] {
      var t := Step(s, steps[0], offset, data);
      QuietRun(t, steps[1..], offset, data);
    }
  }
}
