/** The daemon's change feed: a bounded log of numbered events, the long poll that pages
    through it from a cursor, and the client that follows the returned cursors. */
module Feed {

  type Origin = nat

  datatype Kind = Write(offset: nat, len: nat) | Metadata | Replaced

  datatype Event = Event(path: string, kind: Kind)

  datatype Recorded = Recorded(seqno: nat, origin: Origin, event: Event)

  /** Events retained, and events per reply. */
  const MAX_EVENTS: nat := 50000
  const MAX_EVENTS_PER_REPLY: nat := 4096

  /** Everything ever recorded, in order. */
  type Log = seq<Recorded>

  /** Sequence numbers are contiguous from 1. */
  predicate Numbered(log: Log) {
    forall i: nat :: i < |log| ==> log[i].seqno == i + 1
  }

  /** How many events the bound has pushed out of a log of n events. */
  function Overflow(n: nat): nat {
    if n <= MAX_EVENTS then 0 else n - MAX_EVENTS
  }

  function Evicted(log: Log): nat {
    Overflow(|log|)
  }

  /** Is this event news to the client?  Client 0 filters nothing. */
  predicate IsForeign(r: Recorded, client: Origin) {
    client == 0 || r.origin != client
  }

  /** The events of other origins, in order. */
  function Foreign(log: Log, client: Origin): seq<Event> {
    if log == [] then
      []
    else
      var rest := Foreign(log[..|log| - 1], client);
      if IsForeign(log[|log| - 1], client) then rest + [log[|log| - 1].event] else rest
  }

  /** These are the events of just the entries that are not the client's own, in the log's order. */
  lemma {:induction false} ForeignExactly(log: Log, client: Origin) returns (chosen: seq<nat>)
    ensures |chosen| == |Foreign(log, client)|
    ensures forall i: nat :: i < |chosen| ==>
      && chosen[i] < |log| && (client == 0 || log[chosen[i]].origin != client)
      && Foreign(log, client)[i] == log[chosen[i]].event
    ensures forall i: nat, j: nat :: i < j < |chosen| ==> chosen[i] < chosen[j]
    ensures forall k: nat :: k < |log| && (client == 0 || log[k].origin != client) ==> k in chosen
  {
    if log == [] {
      chosen := [];
    } else {
      var n := |log| - 1;
      chosen := ForeignExactly(log[..n], client);
      var rest, all := Foreign(log[..n], client), Foreign(log, client);
      assert all == if client == 0 || log[n].origin != client then rest + [log[n].event] else rest;
      hide Foreign;
      if client == 0 || log[n].origin != client {
        chosen := chosen + [n];
      }
    }
  }

  lemma {:induction false} ForeignAppend(a: Log, b: Log, client: Origin)
    ensures Foreign(a + b, client) == Foreign(a, client) + Foreign(b, client)
  {
    if b == [] {
      assert a + b == a;
    } else {
      assert (a + b)[..|a + b| - 1] == a + b[..|b| - 1];
      ForeignAppend(a, b[..|b| - 1], client);
    }
  }

  lemma ForeignNone(log: Log, a: nat, client: Origin)
    requires a <= |log|
    ensures Foreign(log[a..a], client) == []
  {
  }

  lemma ForeignNext(log: Log, a: nat, b: nat, client: Origin)
    requires a <= b < |log|
    ensures Foreign(log[a..b + 1], client)
      == Foreign(log[a..b], client) + (if IsForeign(log[b], client) then [log[b].event] else [])
  {
    assert log[a..b + 1][..b - a] == log[a..b];
  }

  lemma ForeignSplit(log: Log, i: nat, j: nat, k: nat, client: Origin)
    requires i <= j <= k <= |log|
    ensures Foreign(log[i..k], client) == Foreign(log[i..j], client) + Foreign(log[j..k], client)
  {
    assert log[i..k] == log[i..j] + log[j..k];
    ForeignAppend(log[i..j], log[j..k], client);
  }

  datatype WaitResult = WaitResult(epoch: nat, cursor: nat, events: seq<Event>, reset: bool)

  /** Where a page ends that starts at i and has room for `room` more foreign events: right behind
      the one that fills it, or at the end of the log. */
  function PageEnd(log: Log, client: Origin, i: nat, room: nat): (end: nat)
    requires i <= |log|
    ensures i <= end <= |log|
    decreases |log| - i
  {
    if i == |log| || room == 0 then i
    else PageEnd(log, client, i + 1, if IsForeign(log[i], client) then room - 1 else room)
  }

  /** Where a poll from `since` starts: behind its cursor, or at the oldest retained event should
      the bound have overtaken the cursor meanwhile. */
  function PageStart(log: Log, since: nat): nat {
    if since < Evicted(log) then Evicted(log) else since
  }

  /** The answer to a poll from `since` at a moment when the log is `log`: the foreign events from
      its start to the end of the log or of a full page. */
  predicate IsPage(log: Log, client: Origin, since: nat, cursor: nat, events: seq<Event>) {
    && since <= |log|
    && cursor == PageEnd(log, client, PageStart(log, since), MAX_EVENTS_PER_REPLY)
    && events == Foreign(log[PageStart(log, since)..cursor], client)
  }

  lemma PageNext(log: Log, client: Origin, i: nat, room: nat)
    requires i < |log| && room > 0
    ensures PageEnd(log, client, i, room)
      == PageEnd(log, client, i + 1, if IsForeign(log[i], client) then room - 1 else room)
  {
  }

  lemma PageStops(log: Log, client: Origin, i: nat, room: nat)
    requires i <= |log| && (i == |log| || room == 0)
    ensures PageEnd(log, client, i, room) == i
  {
  }

  /** A page is full or reaches the end of the log. */
  lemma {:induction false} PageFull(log: Log, client: Origin, i: nat, room: nat)
    requires i <= |log|
    ensures var end := PageEnd(log, client, i, room);
      |Foreign(log[i..end], client)| <= room && (end == |log| || |Foreign(log[i..end], client)| == room)
    decreases |log| - i
  {
    var end := PageEnd(log, client, i, room);
    if i < |log| && room > 0 {
      PageFull(log, client, i + 1, if IsForeign(log[i], client) then room - 1 else room);
      ForeignSplit(log, i, i + 1, end, client);
      ForeignNext(log, i, i, client);
      ForeignNone(log, i, client);
    } else {
      ForeignNone(log, i, client);
    }
  }

  /** What other threads record, numbered on. */
  function Extended(log: Log, arrivals: seq<(Origin, Event)>): (r: Log)
    ensures log <= r && |r| == |log| + |arrivals|
    ensures Numbered(log) ==> Numbered(r)
    ensures forall k: nat :: k < |arrivals| ==>
      r[|log| + k] == Recorded(|log| + k + 1, arrivals[k].0, arrivals[k].1)
  {
    if arrivals == [] then
      log
    else
      var last := arrivals[|arrivals| - 1];
      var before := Extended(log, arrivals[..|arrivals| - 1]);
      before + [Recorded(|before| + 1, last.0, last.1)]
  }

  /** The log at the moment a poll is answered: the poll waits, through one batch of arrivals after
      the other, until there is something foreign or its deadline passes. */
  function AnsweredAt(log: Log, client: Origin, since: nat, arrivals: seq<seq<(Origin, Event)>>): (r: Log)
    requires since <= |log|
    ensures log <= r && (Numbered(log) ==> Numbered(r))
    decreases |arrivals|
  {
    var start := PageStart(log, since);
    if arrivals == [] || Foreign(log[start..PageEnd(log, client, start, MAX_EVENTS_PER_REPLY)], client) != [] then
      log
    else
      AnsweredAt(Extended(log, arrivals[0]), client, since, arrivals[1..])
  }

  /** Nothing retained behind the cursor is from another origin. */
  predicate NoNews(log: Log, client: Origin, since: nat) {
    forall k: nat :: since <= k < |log| && |log| <= k + MAX_EVENTS ==> client != 0 && log[k].origin == client
  }

  /** A poll waits through just the batches before which there is no news for it. */
  lemma {:induction false} AnsweredExactly(log: Log, client: Origin, since: nat, arrivals: seq<seq<(Origin, Event)>>)
    returns (seen: seq<Log>)
    requires since <= |log|
    ensures 0 < |seen| <= |arrivals| + 1 && seen[0] == log
    ensures forall i: nat :: i < |seen| - 1 ==>
      NoNews(seen[i], client, since) && seen[i + 1] == Extended(seen[i], arrivals[i])
    ensures |seen| <= |arrivals| ==> !NoNews(seen[|seen| - 1], client, since)
    ensures AnsweredAt(log, client, since, arrivals) == seen[|seen| - 1]
    decreases |arrivals|
  {
    hide Foreign, PageEnd, NoNews, Extended;
    NewsExactly(log, client, since);
    if arrivals == [] || !NoNews(log, client, since) {
      seen := [log];
    } else {
      var later := AnsweredExactly(Extended(log, arrivals[0]), client, since, arrivals[1..]);
      seen := [log] + later;
    }
  }

  /** A page is empty if and only if there is no news. */
  lemma NewsExactly(log: Log, client: Origin, since: nat)
    requires since <= |log|
    ensures var start := PageStart(log, since);
      var page := log[start..PageEnd(log, client, start, MAX_EVENTS_PER_REPLY)];
      NoNews(log, client, since) <==> Foreign(page, client) == []
  {
    var start := PageStart(log, since);
    PageFull(log, client, start, MAX_EVENTS_PER_REPLY);
    var end := PageEnd(log, client, start, MAX_EVENTS_PER_REPLY);
    var chosen := ForeignExactly(log[start..end], client);
    if chosen == [] {
      assert forall k: nat :: start <= k < end ==> log[start..end][k - start] == log[k];
    } else {
      assert chosen[0] in chosen;
      var k := start + chosen[0];
      assert log[start..end][chosen[0]] == log[k] && since <= k && |log| <= k + MAX_EVENTS;
    }
  }

  class RootFeed {
    const epoch: nat
    var nextSeq: nat
    var events: seq<Recorded>
    ghost var log: Log

    ghost predicate Valid()
      reads this
    {
      && nextSeq == |log| + 1
      && Numbered(log)
      && events == log[Evicted(log)..]
    }

    constructor (epoch: nat)
      ensures Valid() && log == [] && this.epoch == epoch
    {
      this.epoch := epoch;
      nextSeq, events, log := 1, [], [];
    }

    method Push(origin: Origin, event: Event)
      requires Valid()
      modifies this
      ensures Valid() && log == old(log) + [Recorded(|old(log)| + 1, origin, event)]
    {
      var recorded := Recorded(nextSeq, origin, event);
      nextSeq := nextSeq + 1;
      events := events + [recorded];
      log := log + [recorded];
      assert events == log[Evicted(old(log))..];
      while |events| > MAX_EVENTS
        invariant |events| <= |log| && events == log[|log| - |events|..]
        invariant |log| - |events| <= Evicted(log)
        invariant log == old(log) + [recorded] && nextSeq == |log| + 1
        decreases |events|
      {
        events := events[1..];
      }
    }

    method PushAll(arrivals: seq<(Origin, Event)>)
      requires Valid()
      modifies this
      ensures Valid() && log == Extended(old(log), arrivals)
    {
      for i := 0 to |arrivals|
        invariant Valid() && log == Extended(old(log), arrivals[..i])
      {
        assert arrivals[..i + 1][..i] == arrivals[..i];
        Push(arrivals[i].0, arrivals[i].1);
      }
      assert arrivals[..|arrivals|] == arrivals;
    }

    function Oldest(): nat
      reads this
    {
      if events == [] then nextSeq else events[0].seqno
    }

    /** One pass over the retained events after `since`. */
    method Scan(client: Origin, since: nat) returns (found: seq<Event>, cursor: nat)
      requires Valid() && since < nextSeq
      ensures IsPage(log, client, since, cursor, found)
    {
      hide Foreign, PageEnd;
      found, cursor := [], nextSeq - 1;
      var skip := if since + 1 < Oldest() then 0 else since + 1 - Oldest();
      var i := skip;
      ghost var base := Evicted(log);
      ghost var start := base + skip;
      assert start == PageStart(log, since);
      ForeignNone(log, start, client);
      while i < |events|
        invariant skip <= i <= |events|
        invariant found == Foreign(log[start..base + i], client) && |found| <= MAX_EVENTS_PER_REPLY && cursor == |log|
        invariant PageEnd(log, client, start, MAX_EVENTS_PER_REPLY)
          == PageEnd(log, client, base + i, MAX_EVENTS_PER_REPLY - |found|)
      {
        var recorded := events[i];
        if |found| >= MAX_EVENTS_PER_REPLY {
          cursor := recorded.seqno - 1;
          PageStops(log, client, base + i, 0);
          return;
        }
        ForeignNext(log, start, base + i, client);
        PageNext(log, client, base + i, MAX_EVENTS_PER_REPLY - |found|);
        if client == 0 || recorded.origin != client {
          found := found + [recorded.event];
        }
        i := i + 1;
      }
      PageStops(log, client, base + i, MAX_EVENTS_PER_REPLY - |found|);
    }

    /** The long poll.  `arrivals[k]` is what other threads record before the k-th wake-up; the
        deadline passes after the last one. */
    method Wait(client: Origin, clientEpoch: nat, since: nat, arrivals: seq<seq<(Origin, Event)>>)
        returns (r: WaitResult)
      requires Valid()
      modifies this
      ensures Valid() && r.epoch == epoch
      ensures r.reset <==> clientEpoch != epoch || |old(log)| < since || since < Evicted(old(log))
      ensures r.reset ==> log == old(log) && r.cursor == |log| && r.events == []
      ensures !r.reset ==>
        log == AnsweredAt(old(log), client, since, arrivals) && IsPage(log, client, since, r.cursor, r.events)
    {
      if clientEpoch != epoch || since >= nextSeq || since + 1 < Oldest() {
        return WaitResult(epoch, nextSeq - 1, [], true);
      }
      var wakeups := 0;
      while true
        invariant Valid() && since <= |log| && wakeups <= |arrivals|
        invariant AnsweredAt(old(log), client, since, arrivals) == AnsweredAt(log, client, since, arrivals[wakeups..])
        decreases |arrivals| - wakeups
      {
        var found, cursor := Scan(client, since);
        if found != [] || wakeups == |arrivals| {
          return WaitResult(epoch, cursor, found, false);
        }
        assert arrivals[wakeups..][1..] == arrivals[wakeups + 1..];
        PushAll(arrivals[wakeups]);
        wakeups := wakeups + 1;
      }
    }

    /** The opening poll, without a cursor: it returns the current end of the log. */
    method Open() returns (r: WaitResult)
      requires Valid()
      ensures r == WaitResult(epoch, |log|, [], false)
    {
      return WaitResult(epoch, nextSeq - 1, [], false);
    }
  }

  /** Was no foreign event evicted past the cursor? */
  predicate NothingLost(log: Log, client: Origin, since: nat) {
    since < Evicted(log) ==> Foreign(log[since..Evicted(log)], client) == []
  }

  /** A reply carries everything foreign between its cursors if and only if no foreign event
      was evicted past the cursor while the poll was blocked; otherwise it carries less. */
  lemma ReplyComplete(log: Log, client: Origin, since: nat, cursor: nat, events: seq<Event>)
    requires IsPage(log, client, since, cursor, events)
    ensures events == Foreign(log[since..cursor], client) <==> NothingLost(log, client, since)
    ensures !NothingLost(log, client, since) ==> |events| < |Foreign(log[since..cursor], client)|
  {
    if since < Evicted(log) {
      ForeignSplit(log, since, Evicted(log), cursor, client);
      var lost := Foreign(log[since..Evicted(log)], client);
      assert |Foreign(log[since..cursor], client)| == |lost| + |events|;
    }
  }

  /** `skip` arithmetic: over contiguous numbers, skipping entries is comparing numbers. */
  lemma SkipIsFilter(log: Log, since: nat, i: nat)
    requires Numbered(log) && Evicted(log) <= since <= |log|
    requires i < |log| - Evicted(log)
    ensures log[Evicted(log)..][i].seqno > since <==> since + 1 - (Evicted(log) + 1) <= i
  {
  }

  // ------------------------------------------------------------------ following the feed

  /** One long poll: what others record before it is made and before each of its wake-ups, and
      whether the reply arrives. */
  datatype Poll = Poll(between: seq<(Origin, Event)>, arrivals: seq<seq<(Origin, Event)>>, arrives: bool)

  /** The log and the cursor after a poll that is not answered by a reset. */
  function LogAfter(log: Log, client: Origin, cursor: nat, p: Poll): (r: Log)
    requires cursor <= |log|
    ensures log <= r
  {
    var called := Extended(log, p.between);
    if cursor < Evicted(called) then called else AnsweredAt(called, client, cursor, p.arrivals)
  }

  function CursorAfter(log: Log, client: Origin, cursor: nat, p: Poll): (r: nat)
    requires cursor <= |log|
    ensures cursor <= r <= |LogAfter(log, client, cursor, p)|
  {
    var l := LogAfter(log, client, cursor, p);
    if p.arrives then PageEnd(l, client, PageStart(l, cursor), MAX_EVENTS_PER_REPLY) else cursor
  }

  /** Does an arriving poll find its cursor overtaken at the time of the call? */
  predicate Resets(log: Log, client: Origin, cursor: nat, polls: seq<Poll>)
    requires cursor <= |log|
    decreases |polls|
  {
    polls != [] &&
    ((polls[0].arrives && cursor < Evicted(Extended(log, polls[0].between))) ||
     Resets(LogAfter(log, client, cursor, polls[0]), client, CursorAfter(log, client, cursor, polls[0]), polls[1..]))
  }

  /** Is every reply that arrives made while nothing foreign has been evicted past its cursor? */
  predicate Lossless(log: Log, client: Origin, cursor: nat, polls: seq<Poll>)
    requires cursor <= |log|
    decreases |polls|
  {
    polls == [] ||
    ((polls[0].arrives ==> NothingLost(LogAfter(log, client, cursor, polls[0]), client, cursor)) &&
     Lossless(LogAfter(log, client, cursor, polls[0]), client, CursorAfter(log, client, cursor, polls[0]), polls[1..]))
  }

  /** The log and the cursor after all polls, none of which is answered by a reset that arrives. */
  function Final(log: Log, client: Origin, cursor: nat, polls: seq<Poll>): (r: (Log, nat))
    requires cursor <= |log|
    ensures log <= r.0 && cursor <= r.1 <= |r.0|
    decreases |polls|
  {
    if polls == [] then (log, cursor)
    else Final(LogAfter(log, client, cursor, polls[0]), client, CursorAfter(log, client, cursor, polls[0]), polls[1..])
  }

  /** The specifications of the polls from the k-th on, one poll later. */
  lemma OnePoll(log: Log, client: Origin, cursor: nat, polls: seq<Poll>, k: nat)
    requires k < |polls| && cursor <= |log|
    ensures var l := LogAfter(log, client, cursor, polls[k]);
      var c := CursorAfter(log, client, cursor, polls[k]);
      && Resets(log, client, cursor, polls[k..])
        == ((polls[k].arrives && cursor < Evicted(Extended(log, polls[k].between))) ||
        Resets(l, client, c, polls[k + 1..]))
      && Lossless(log, client, cursor, polls[k..])
        == ((polls[k].arrives ==> NothingLost(l, client, cursor)) && Lossless(l, client, c, polls[k + 1..]))
      && Final(log, client, cursor, polls[k..]) == Final(l, client, c, polls[k + 1..])
      && ((exists p <- polls[..k + 1] :: p.arrives) <==> (exists p <- polls[..k] :: p.arrives) || polls[k].arrives)
  {
    assert polls[k..][1..] == polls[k + 1..] && polls[k..][0] == polls[k];
    assert polls[..k + 1] == polls[..k] + [polls[k]];
  }

  /** What has been applied, against everything foreign between the cursors. */
  predicate Delivered(applied: seq<Event>, all: seq<Event>, complete: bool) {
    if complete then applied == all else |applied| < |all|
  }

  /** One more reply. */
  lemma DeliverMore(log: Log, client: Origin, start: nat, since: nat, cursor: nat, applied: seq<Event>,
      events: seq<Event>, complete: bool)
    requires start <= since && IsPage(log, client, since, cursor, events)
    requires Delivered(applied, Foreign(log[start..since], client), complete)
    ensures Delivered(applied + events, Foreign(log[start..cursor], client), complete &&
      NothingLost(log, client, since))
  {
    ReplyComplete(log, client, since, cursor, events);
    ForeignSplit(log, start, since, cursor, client);
  }

  /** A mount's feed thread: its cursor and the events it has applied. */
  class Follower {
    const client: Origin
    var epoch: nat
    var cursor: nat
    var applied: seq<Event>

    constructor (client: Origin, opening: WaitResult)
      ensures epoch == opening.epoch && cursor == opening.cursor && applied == [] && this.client == client
    {
      this.client := client;
      epoch, cursor, applied := opening.epoch, opening.cursor, [];
    }

    /** One poll: a reply that is lost changes nothing, and a reset abandons what was collected. */
    method PollOnce(feed: RootFeed, p: Poll) returns (reset: bool)
      requires feed.Valid() && epoch == feed.epoch && cursor <= |feed.log|
      modifies this, feed
      ensures feed.Valid() && epoch == feed.epoch && cursor <= |feed.log|
      ensures feed.log == LogAfter(old(feed.log), client, old(cursor), p)
      ensures reset <==> p.arrives && old(cursor) < Evicted(Extended(old(feed.log), p.between))
      ensures !reset ==> cursor == CursorAfter(old(feed.log), client, old(cursor), p)
      ensures reset ==> cursor == |feed.log| && applied == []
      ensures !p.arrives ==> applied == old(applied)
      ensures p.arrives && !reset ==> exists events ::
        IsPage(feed.log, client, old(cursor), cursor, events) && applied == old(applied) + events
    {
      hide Foreign, Numbered;
      feed.PushAll(p.between);
      var r := feed.Wait(client, epoch, cursor, p.arrivals);
      if !p.arrives {
        return false;
      }
      applied := if r.reset then [] else applied + r.events;
      epoch, cursor := r.epoch, r.cursor;
      return r.reset;
    }

    /** Polls again and again, while others record events at any time: a reply that is lost changes
        nothing, and a reset abandons what was collected and starts again from the end of the log.
        Until then exactly the foreign events recorded since the start have been applied, in
        order, none twice, whatever the page limits and timeouts, if and only if no arriving reply
        was made after a foreign event had been evicted past its cursor; in particular when the
        log never outgrew the bound since the start.  A reset comes exactly to a cursor that the
        bound had overtaken before the poll; and one reply that arrives brings the cursor past all
        that was there at the start, or a full page. */
    method Run(feed: RootFeed, polls: seq<Poll>) returns (reset: bool)
      requires feed.Valid() && epoch == feed.epoch && cursor <= |feed.log| && applied == []
      modifies this, feed
      ensures feed.Valid() && old(feed.log) <= feed.log && cursor <= |feed.log|
      ensures epoch == feed.epoch && (reset ==> cursor == |feed.log| && applied == [])
      ensures reset <==> Resets(old(feed.log), client, old(cursor), polls)
      ensures !reset ==> (feed.log, cursor) == Final(old(feed.log), client, old(cursor), polls) && old(cursor) <= cursor
      ensures !reset ==> (applied == Foreign(feed.log[old(cursor)..cursor], client) <==>
        Lossless(old(feed.log), client, old(cursor), polls))
      ensures |feed.log| <= MAX_EVENTS + old(cursor) ==>
        !reset && applied == Foreign(feed.log[old(cursor)..cursor], client)
      ensures !reset && (exists p <- polls :: p.arrives) ==>
        |old(feed.log)| <= cursor || MAX_EVENTS_PER_REPLY <= |applied|
    {
      hide Foreign, IsPage, NothingLost, Resets, Lossless, Final, Delivered, Numbered;
      reset := false;
      ghost var complete := true;
      Nothing(feed.log, client, cursor, polls);
      for k := 0 to |polls|
        invariant feed.Valid() && old(feed.log) <= feed.log && epoch == feed.epoch
        invariant old(cursor) <= cursor <= |feed.log|
        invariant Resets(old(feed.log), client, old(cursor), polls) == Resets(feed.log, client, cursor, polls[k..])
        invariant Final(old(feed.log), client, old(cursor), polls) == Final(feed.log, client, cursor, polls[k..])
        invariant Lossless(old(feed.log), client, old(cursor), polls)
          == (complete && Lossless(feed.log, client, cursor, polls[k..]))
        invariant Delivered(applied, Foreign(feed.log[old(cursor)..cursor], client), complete)
        invariant |feed.log| <= MAX_EVENTS + old(cursor) ==> complete
        invariant (exists p <- polls[..k] :: p.arrives) ==>
          |old(feed.log)| <= cursor || MAX_EVENTS_PER_REPLY <= |applied|
      {
        OnePoll(feed.log, client, cursor, polls, k);
        ghost var log, since, was := feed.log, cursor, applied;
        reset := PollOnce(feed, polls[k]);
        if reset {
          return;
        }
        Deliver(log, feed.log, client, old(cursor), since, cursor, polls[k], was, applied, complete);
        complete := complete && (polls[k].arrives ==> NothingLost(feed.log, client, since));
      }
      Everything(feed.log, client, cursor, polls);
      assert complete ==> applied == Foreign(feed.log[old(cursor)..cursor], client);
    }
  }

  /** What one poll that is not reset adds. */
  lemma Deliver(before: Log, log: Log, client: Origin, start: nat, since: nat, cursor: nat, p: Poll, was: seq<Event>,
      applied: seq<Event>, complete: bool)
    requires start <= since <= |before| && log == LogAfter(before, client, since, p) &&
      cursor == CursorAfter(before, client, since, p)
    requires if p.arrives then exists events ::
      IsPage(log, client, since, cursor, events) && applied == was + events else applied == was
    requires Delivered(was, Foreign(before[start..since], client), complete)
    ensures Delivered(applied, Foreign(log[start..cursor], client), complete &&
      (p.arrives ==> NothingLost(log, client, since)))
    ensures |log| <= MAX_EVENTS + start ==> NothingLost(log, client, since)
    ensures |was| <= |applied| && (p.arrives ==> |before| <= cursor || MAX_EVENTS_PER_REPLY <= |applied|)
  {
    hide Delivered, Foreign, LogAfter;
    assert log[start..since] == before[start..since];
    if p.arrives {
      var events :| IsPage(log, client, since, cursor, events) && applied == was + events;
      PageBrings(log, client, since, cursor, events);
      DeliverMore(log, client, start, since, cursor, was, events, complete);
    }
    LostOnlyEvicted(log, client, since);
  }

  lemma Nothing(log: Log, client: Origin, cursor: nat, polls: seq<Poll>)
    requires cursor <= |log|
    ensures polls[0..] == polls && Delivered([], Foreign(log[cursor..cursor], client), true)
    ensures !exists p <- polls[..0] :: p.arrives
  {
  }

  lemma Everything(log: Log, client: Origin, cursor: nat, polls: seq<Poll>)
    requires cursor <= |log|
    ensures polls[..|polls|] == polls && !Resets(log, client, cursor, polls[|polls|..])
    ensures Lossless(log, client, cursor, polls[|polls|..]) &&
      Final(log, client, cursor, polls[|polls|..]) == (log, cursor)
    ensures forall applied: seq<Event>, all: seq<Event>, complete: bool | Delivered(applied, all, complete) ::
      applied == all <==> complete
  {
  }

  lemma LostOnlyEvicted(log: Log, client: Origin, since: nat)
    ensures Evicted(log) <= since ==> NothingLost(log, client, since)
  {
  }

  lemma PageBrings(log: Log, client: Origin, since: nat, cursor: nat, events: seq<Event>)
    requires IsPage(log, client, since, cursor, events)
    ensures since <= cursor == PageEnd(log, client, PageStart(log, since), MAX_EVENTS_PER_REPLY) <= |log|
    ensures cursor == |log| || |events| == MAX_EVENTS_PER_REPLY
  {
    PageFull(log, client, PageStart(log, since), MAX_EVENTS_PER_REPLY);
  }

  /** The blocked re-scan does not look for eviction: a client that follows an empty log from its
      opening and is overtaken in one blocked poll, by one event more than the log holds, gets no
      reset and loses the first event. */
  method OvertakenPollLosesEvent(event: Event) returns (feed: RootFeed, follower: Follower, reset: bool)
    ensures fresh(feed) && fresh(follower) && !reset
    ensures feed.log != [] && feed.log[0].event == event && IsForeign(feed.log[0], follower.client)
    ensures 0 < follower.cursor <= |feed.log|
    ensures follower.applied != Foreign(feed.log[0..follower.cursor], follower.client)
  {
    feed := new RootFeed(7);
    var opening := feed.Open();
    follower := new Follower(1, opening);
    var burst: seq<(Origin, Event)> := seq(MAX_EVENTS + 1, _ => (2, event));
    var polls := [Poll([], [burst], true)];
    BurstOvertakes(event, burst, polls);
    hide Foreign, Resets, Lossless, Final, Numbered;
    reset := follower.Run(feed, polls);
  }

  lemma {:induction false} ExtendedAt(log: Log, arrivals: seq<(Origin, Event)>, i: nat)
    requires i < |arrivals|
    ensures Extended(log, arrivals)[|log| + i] == Recorded(|log| + i + 1, arrivals[i].0, arrivals[i].1)
  {
    if i < |arrivals| - 1 {
      ExtendedAt(log, arrivals[..|arrivals| - 1], i);
    }
  }

  lemma BurstOvertakes(event: Event, burst: seq<(Origin, Event)>, polls: seq<Poll>)
    requires |burst| == MAX_EVENTS + 1 && (forall b <- burst :: b == (2, event)) && polls == [Poll([], [burst], true)]
    ensures !Resets([], 1, 0, polls) && !Lossless([], 1, 0, polls)
    ensures var f := Final([], 1, 0, polls); 0 < f.1 && f.0 != [] && f.0[0] == Recorded(1, 2, event)
  {
    hide Extended;
    var log := Extended([], burst);
    ExtendedAt([], burst, 0);
    assert burst[0] in burst && log[0] == Recorded(1, 2, event);
    assert [burst][1..] == [] && polls[1..] == [];
    assert AnsweredAt([], 1, 0, [burst]) == AnsweredAt(log, 1, 0, []) == log by {
      ForeignNone([], 0, 1);
    }
    assert LogAfter([], 1, 0, polls[0]) == log && Evicted(log) == 1;
    ForeignNext(log, 0, 0, 1);
    ForeignNone(log, 0, 1);
    assert !NothingLost(log, 1, 0);
  }
}
