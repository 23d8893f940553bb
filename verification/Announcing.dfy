/** A streamed write as other mounts see it: its frames are changes of the daemon's file, and its
    announcements are what the change feed says of them, whatever happens in between. */
module Announcing {
  import opened Bytes
  import opened Paths
  import opened Ranges
  import opened Streams
  import Coherence
  import Feed

  type State = Coherence.State
  type Step = Coherence.Step
  type Change = Coherence.Change

  /** A stream to be handled; frame i becomes the change with the number base + i. */
  datatype Job = Job(origin: Feed.Origin, path: Path, offset: nat, len: nat, frames: seq<File>, base: nat)

  /** How far its handler is: frames written, how many of these are announced and up to which byte,
      where the effect of the others begins, the announcements, and whether the last was made. */
  datatype Handler = Handler(count: nat, first: nat, told: nat, low: nat, tiles: seq<Tile>, closed: bool)

  function Begin(j: Job): Handler {
    Handler(0, 0, 0, j.offset, [], false)
  }

  /** The bytes of the first k frames. */
  function Size(j: Job, k: nat): nat
    requires k <= |j.frames|
  {
    |Concat(j.frames[..k])|
  }

  /** Is an announcement due because enough has been written, or because all has? */
  predicate Due(j: Job, h: Handler)
    requires h.count <= |j.frames|
  {
    Size(j, h.count) >= h.told + STREAM_ANNOUNCE_BYTES
  }

  predicate LastDue(j: Job, h: Handler)
    requires h.count <= |j.frames|
  {
    h.count == |j.frames| && Size(j, h.count) == j.len && (j.len > h.told || j.len == 0)
  }

  predicate Ended(j: Job, h: Handler)
    requires h.count <= |j.frames|
  {
    h.closed || (!Due(j, h) && h.count == |j.frames| && !LastDue(j, h))
  }

  /** The numbers of the changes written and not announced. */
  function Pending(j: Job, s: State, h: Handler): set<nat> {
    set n <- s.unrecorded | j.base + h.first <= n < j.base + h.count
  }

  function NextTile(j: Job, h: Handler): Tile
    requires h.count <= |j.frames|
  {
    Tile(j.offset + h.told, Size(j, h.count) - h.told)
  }

  /** What the handler does next. */
  function OwnStep(j: Job, s: State, h: Handler): Step
    requires h.count <= |j.frames| && h.told <= Size(j, h.count) && !Ended(j, h)
  {
    if Due(j, h) || LastDue(j, h) then
      var tile := NextTile(j, h);
      Coherence.Record(Pending(j, s, h),
        Coherence.Change(j.origin, Feed.Event(j.path, Feed.Write(tile.offset, tile.len)), h.low))
    else
      Coherence.ServerWrite(j.base + h.count, j.origin, j.path, j.offset + Size(j, h.count), j.frames[h.count])
  }

  /** Where it is afterwards, given the state in which it does so. */
  function Advanced(j: Job, s: State, h: Handler): Handler
    requires h.count <= |j.frames| && h.told <= Size(j, h.count) && !Ended(j, h)
  {
    var size := Size(j, h.count);
    if Due(j, h) || LastDue(j, h) then
      Handler(h.count, h.count, size, j.offset + size, h.tiles + [NextTile(j, h)], LastDue(j, h))
    else
      var c := Coherence.WriteChange(j.origin, j.path, Content(s.files, j.path), j.offset + size, j.frames[h.count]);
      h.(count := h.count + 1, low := Min(h.low, c.low))
  }

  /** The handler's turn, or a step of anything else: other clients, this or another mount, the
      daemon on behalf of either. */
  datatype Turn = Mine | Other(step: Step)

  /** Steps of others neither use the stream's numbers nor announce its changes. */
  predicate Apart(j: Job, l: Step) {
    match l
    case ServerWrite(id, _, _, _, _) => !(j.base <= id < j.base + |j.frames|)
    case ServerReplace(id, _, _, _) => !(j.base <= id < j.base + |j.frames|)
    case Record(ids, _) => forall id <- ids :: !(j.base <= id < j.base + |j.frames|)
    case _ => true
  }

  function StepOf(j: Job, s: State, h: Handler, turn: Turn): Step
    requires h.count <= |j.frames| && h.told <= Size(j, h.count) && (turn.Mine? ==> !Ended(j, h))
  {
    if turn.Mine? then OwnStep(j, s, h) else turn.step
  }

  /** Can this turn be taken? */
  ghost predicate Takes(j: Job, s: State, h: Handler, turn: Turn) {
    && h.count <= |j.frames| && h.told <= Size(j, h.count)
    && (if turn.Mine? then !Ended(j, h) else Apart(j, turn.step))
    && Coherence.Enabled(s, StepOf(j, s, h, turn))
  }

  function HandlerAfter(j: Job, s: State, h: Handler, turn: Turn): Handler
    requires h.count <= |j.frames| && h.told <= Size(j, h.count) && (turn.Mine? ==> !Ended(j, h))
  {
    if turn.Mine? then Advanced(j, s, h) else h
  }

  ghost predicate Goes(j: Job, s: State, h: Handler, turns: seq<Turn>)
    decreases |turns|
  {
    turns != [] ==>
      && Takes(j, s, h, turns[0])
      && Goes(j, Coherence.Apply(s, StepOf(j, s, h, turns[0])), HandlerAfter(j, s, h, turns[0]), turns[1..])
  }

  /** The steps taken, and where they lead. */
  ghost function Steps(j: Job, s: State, h: Handler, turns: seq<Turn>): seq<Step>
    requires Goes(j, s, h, turns)
    decreases |turns|
  {
    if turns == [] then
      []
    else
      var l := StepOf(j, s, h, turns[0]);
      [l] + Steps(j, Coherence.Apply(s, l), HandlerAfter(j, s, h, turns[0]), turns[1..])
  }

  ghost function End(j: Job, s: State, h: Handler, turns: seq<Turn>): (State, Handler)
    requires Goes(j, s, h, turns)
    decreases |turns|
  {
    if turns == [] then
      (s, h)
    else
      End(j, Coherence.Apply(s, StepOf(j, s, h, turns[0])), HandlerAfter(j, s, h, turns[0]), turns[1..])
  }

  // ------------------------------------------------------------------ what every turn keeps

  /** A change of the stream that is not announced yet. */
  predicate Untold(c: Change, j: Job, told: nat, low: nat, size: nat) {
    && c.origin == j.origin && c.event.path == j.path && c.event.kind.Write?
    && low <= c.low && j.offset + told <= c.event.kind.offset
    && c.event.kind.len > 0 && c.event.kind.offset + c.event.kind.len <= j.offset + size
  }

  /** The announcements made are those of the frames written, but for one that is due. */
  predicate Telling(j: Job, h: Handler) {
    && h.first <= h.count <= |j.frames| && h.told == Size(j, h.first) <= Size(j, h.count)
    && (h.closed ==>
          h.count == h.first == |j.frames| && h.tiles == Announcements(j.offset, j.len, j.frames) && h.told == j.len)
    && (!h.closed && Due(j, h) ==>
          h.count > 0 && h.told == Told(j.frames[..h.count - 1]) && h.tiles == Tiles(j.offset, j.frames[..h.count - 1]))
    && (!h.closed && !Due(j, h) ==>
      h.told == Told(j.frames[..h.count]) && h.tiles == Tiles(j.offset, j.frames[..h.count]))
  }

  /** Exactly the changes written and not announced are to be announced, and the next announcement
      will cover them. */
  ghost predicate Owing(j: Job, s: State, h: Handler) {
    && h.first <= h.count <= |j.frames|
    && h.low <= j.offset + h.told && h.low / BLOCK_SIZE == (j.offset + h.told) / BLOCK_SIZE
    && (forall n: nat ::
      j.base <= n < j.base + |j.frames| ==> (n in s.unrecorded <==> j.base + h.first <= n < j.base + h.count))
    && (forall n: nat :: j.base + h.count <= n < j.base + |j.frames| ==> n !in s.own)
    && (forall n <- s.unrecorded :: j.base <= n < j.base + |j.frames| ==>
          Untold(s.unrecorded[n], j, h.told, h.low, Size(j, h.count)))
  }

  predicate Solid(j: Job) {
    forall frame <- j.frames :: frame != []
  }

  /** The stream's numbers are free. */
  predicate Unused(j: Job, s: State) {
    forall n: nat :: j.base <= n < j.base + |j.frames| ==> n !in s.unrecorded && n !in s.own
  }

  lemma BeginKeeps(j: Job, s: State)
    requires Unused(j, s)
    ensures Telling(j, Begin(j)) && Owing(j, s, Begin(j))
  {
    assert j.frames[..0] == [];
  }

  lemma SizeGrows(j: Job, k: nat)
    requires Solid(j) && k < |j.frames|
    ensures Size(j, k + 1) == Size(j, k) + |j.frames[k]| && |j.frames[k]| > 0
  {
    ConcatSnoc(j.frames, k);
    assert j.frames[k] in j.frames;
  }

  lemma FrameTelling(j: Job, s: State, h: Handler)
    requires Solid(j) && Telling(j, h) && !Ended(j, h) && !Due(j, h) && !LastDue(j, h)
    ensures Telling(j, Advanced(j, s, h))
  {
    SizeGrows(j, h.count);
    var frames := j.frames[..h.count + 1];
    assert frames[..h.count] == j.frames[..h.count];
    hide Concat, Coherence.WriteChange, LeavesGap, Announcements;
  }

  lemma TileTelling(j: Job, s: State, h: Handler)
    requires Solid(j) && Telling(j, h) && !Ended(j, h) && (Due(j, h) || LastDue(j, h))
    ensures Telling(j, Advanced(j, s, h))
  {
    var frames := j.frames[..h.count];
    if Due(j, h) {
      assert frames[..h.count - 1] == j.frames[..h.count - 1];
    }
    if LastDue(j, h) {
      assert frames == j.frames;
    }
    hide Concat;
  }

  lemma FrameOwing(j: Job, s: State, h: Handler)
    requires Solid(j) && Telling(j, h) && Owing(j, s, h) && !Ended(j, h) && !Due(j, h) && !LastDue(j, h)
    ensures Coherence.Enabled(s, OwnStep(j, s, h))
    ensures Owing(j, Coherence.Apply(s, OwnStep(j, s, h)), Advanced(j, s, h))
  {
    hide Concat, Coherence.WriteChange, LeavesGap, Coherence.Apply, Coherence.Enabled, Untold, Solid;
    SizeGrows(j, h.count);
    var l, g := OwnStep(j, s, h), Advanced(j, s, h);
    var c := FrameChange(s, l);
    FrameUntold(j, Content(s.files, j.path), Size(j, h.count), j.frames[h.count], h.told, h.low);
    OneMoreOwed(j, s, Coherence.Apply(s, l), h, g, c);
  }

  lemma OneMoreOwed(j: Job, s: State, u: State, h: Handler, g: Handler, c: Change)
    requires Owing(j, s, h) && h.count < |j.frames| && g == h.(count := h.count + 1, low := Min(h.low, c.low))
    requires u.unrecorded == s.unrecorded[j.base + h.count := c] && forall n <- u.own ::
      n in s.own || n == j.base + h.count
    requires g.low / BLOCK_SIZE == (j.offset + h.told) / BLOCK_SIZE
    requires Size(j, h.count) <= Size(j, g.count) && Untold(c, j, h.told, g.low, Size(j, g.count))
    ensures Owing(j, u, g)
  {
    hide Concat;
    forall n <- u.unrecorded | j.base <= n < j.base + |j.frames|
      ensures Untold(u.unrecorded[n], j, g.told, g.low, Size(j, g.count))
    {
      if n != j.base + h.count {
        assert n in s.unrecorded;
      }
    }
  }

  lemma FrameChange(s: State, l: Step) returns (c: Change)
    requires l.ServerWrite? && l.id !in s.unrecorded && l.id !in s.own && l.data != []
    ensures c == Coherence.WriteChange(l.origin, l.path, Content(s.files, l.path), l.offset, l.data)
    ensures Coherence.Enabled(s, l)
    ensures var u := Coherence.Apply(s, l);
      && u.files == s.files[l.path := WriteAt(Content(s.files, l.path), l.offset, l.data)]
      && u.unrecorded == s.unrecorded[l.id := c]
      && forall n <- u.own :: n in s.own || n == l.id
  {
    c := Coherence.WriteChange(l.origin, l.path, Content(s.files, l.path), l.offset, l.data);
    hide WriteAt, LeavesGap, Coherence.WriteChange;
  }

  /** Wherever the file ends by now, the effect of a frame begins in the frame's first block. */
  lemma FrameUntold(j: Job, f: File, size: nat, frame: File, told: nat, low: nat)
    requires frame != [] && told <= size && low <= j.offset + told && low / BLOCK_SIZE == (j.offset + told) / BLOCK_SIZE
    ensures var c := Coherence.WriteChange(j.origin, j.path, f, j.offset + size, frame);
      && Untold(c, j, told, Min(low, c.low), size + |frame|)
      && Min(low, c.low) / BLOCK_SIZE == (j.offset + told) / BLOCK_SIZE
  {
    var c := Coherence.WriteChange(j.origin, j.path, f, j.offset + size, frame);
    Coherence.WriteAnnounced(j.origin, j.path, f, j.offset + size, frame);
    assert c.low / BLOCK_SIZE == (j.offset + size) / BLOCK_SIZE;
    if c.low < low {
      assert c.low / BLOCK_SIZE <= low / BLOCK_SIZE <= (j.offset + size) / BLOCK_SIZE;
    }
  }

  lemma TileOwing(j: Job, s: State, h: Handler)
    requires Telling(j, h) && Owing(j, s, h) && !Ended(j, h) && (Due(j, h) || LastDue(j, h))
    ensures Coherence.Enabled(s, OwnStep(j, s, h))
    ensures Owing(j, Coherence.Apply(s, OwnStep(j, s, h)), Advanced(j, s, h))
  {
    var l := OwnStep(j, s, h);
    TileCovers(j, s, h, l);
    var u := Coherence.Apply(s, l);
    assert u == s.(unrecorded := s.unrecorded - l.ids, log := s.log + [l.change]);
    hide Concat, Coherence.Apply, Coherence.Enabled, Telling;
    forall n: nat | j.base <= n < j.base + |j.frames|
      ensures n !in u.unrecorded
    {
      if n in s.unrecorded {
        assert n in Pending(j, s, h);
      }
    }
  }

  lemma TileCovers(j: Job, s: State, h: Handler, l: Step)
    requires Telling(j, h) && Owing(j, s, h) && !Ended(j, h) && (Due(j, h) || LastDue(j, h)) && l == OwnStep(j, s, h)
    ensures Coherence.Enabled(s, l)
  {
    forall n <- l.ids
      ensures n in s.unrecorded && Coherence.Announces(l.change, s.unrecorded[n])
    {
      assert j.base + h.first <= n < j.base + h.count;
      assert Untold(s.unrecorded[n], j, h.told, h.low, Size(j, h.count));
    }
  }

  /** What others do leaves the stream's changes as they are. */
  lemma OthersKeep(j: Job, s: State, h: Handler, l: Step)
    requires Owing(j, s, h) && Coherence.Enabled(s, l) && Apart(j, l)
    ensures Owing(j, Coherence.Apply(s, l), h)
  {
    OthersLeave(j, s, l);
    hide Coherence.Apply, Coherence.Enabled, Untold, Concat;
  }

  lemma OthersLeave(j: Job, s: State, l: Step)
    requires Coherence.Enabled(s, l) && Apart(j, l)
    ensures var u := Coherence.Apply(s, l);
      forall n: nat :: j.base <= n < j.base + |j.frames| ==>
        && (n in u.unrecorded <==> n in s.unrecorded)
        && (n in s.unrecorded ==> u.unrecorded[n] == s.unrecorded[n])
        && (n in u.own ==> n in s.own)
  {
    hide Coherence.Clear, Coherence.InvalidateAll, Coherence.Dropped, Coherence.FetchesNotice, Coherence.WriteChange,
      LeavesGap, WriteAt, Block, Coherence.News, Coherence.Announced, Coherence.Announces;
    match l
    case ApplyFirst => Coherence.ClearOnlyCache(s, s.batch[0].event);
    case InvalidateOwn(id) => Coherence.ClearOnlyCache(s, s.own[id].event);
    case Reset(_) => Coherence.ResetOnlyCache(s);
    case ServerWrite(_, _, _, _, _) => DaemonLeaves(j, s, l);
    case ServerReplace(_, _, _, _) => DaemonLeaves(j, s, l);
    case Record(_, _) => DaemonLeaves(j, s, l);
    case _ =>
  }

  lemma DaemonLeaves(j: Job, s: State, l: Step)
    requires Coherence.Enabled(s, l) && Apart(j, l) && (l.ServerWrite? || l.ServerReplace? || l.Record?)
    ensures var u := Coherence.Apply(s, l);
      forall n: nat :: j.base <= n < j.base + |j.frames| ==>
        && (n in u.unrecorded <==> n in s.unrecorded)
        && (n in s.unrecorded ==> u.unrecorded[n] == s.unrecorded[n])
        && (n in u.own ==> n in s.own)
  {
    hide Coherence.WriteChange, LeavesGap, WriteAt, Coherence.Announced, Coherence.Announces;
  }

  /** Whatever has happened, the handler's next step can be taken: an announcement it is to make
      covers the changes it stands for. */
  lemma OwnStepEnabled(j: Job, s: State, h: Handler)
    requires Solid(j) && Telling(j, h) && Owing(j, s, h) && !Ended(j, h)
    ensures Coherence.Enabled(s, OwnStep(j, s, h))
  {
    hide Coherence.Enabled, Coherence.Apply, Owing, Advanced, Concat;
    if Due(j, h) || LastDue(j, h) {
      TileOwing(j, s, h);
    } else {
      FrameOwing(j, s, h);
    }
  }

  lemma TurnKeeps(j: Job, s: State, h: Handler, turn: Turn)
    requires Solid(j) && Telling(j, h) && Owing(j, s, h) && Takes(j, s, h, turn)
    ensures var t, g := Coherence.Apply(s, StepOf(j, s, h, turn)), HandlerAfter(j, s, h, turn);
      Telling(j, g) && Owing(j, t, g)
  {
    hide Coherence.Enabled, Coherence.Apply, Owing, Telling, Advanced, OwnStep, Solid, Apart;
    if turn.Other? {
      OthersKeep(j, s, h, turn.step);
    } else if Due(j, h) || LastDue(j, h) {
      TileTelling(j, s, h);
      TileOwing(j, s, h);
    } else {
      FrameTelling(j, s, h);
      FrameOwing(j, s, h);
    }
  }

  // ------------------------------------------------------------------ the whole stream

  lemma {:induction false} TurnsKeep(j: Job, s: State, h: Handler, turns: seq<Turn>)
    requires Solid(j) && Telling(j, h) && Owing(j, s, h) && Goes(j, s, h, turns)
    ensures var (t, g) := End(j, s, h, turns); Telling(j, g) && Owing(j, t, g)
    ensures Coherence.Runs(s, Steps(j, s, h, turns)) &&
      Coherence.Exec(s, Steps(j, s, h, turns)) == End(j, s, h, turns).0
    decreases |turns|
  {
    hide Coherence.Enabled, Coherence.Apply, Owing, Telling, Solid, StepOf, HandlerAfter;
    if turns != [] {
      TurnKeeps(j, s, h, turns[0]);
      var l, g := StepOf(j, s, h, turns[0]), HandlerAfter(j, s, h, turns[0]);
      TakesEnabled(j, s, h, turns[0]);
      var t := Coherence.Apply(s, l);
      TurnsKeep(j, t, g, turns[1..]);
      RunCons(s, l, Steps(j, t, g, turns[1..]));
    }
  }

  lemma TakesEnabled(j: Job, s: State, h: Handler, turn: Turn)
    requires Takes(j, s, h, turn)
    ensures Coherence.Enabled(s, StepOf(j, s, h, turn))
  {
  }

  lemma RunCons(s: State, l: Step, steps: seq<Step>)
    requires Coherence.Enabled(s, l) && Coherence.Runs(Coherence.Apply(s, l), steps)
    ensures Coherence.Runs(s, [l] + steps) &&
      Coherence.Exec(s, [l] + steps) == Coherence.Exec(Coherence.Apply(s, l), steps)
  {
    assert ([l] + steps)[0] == l && ([l] + steps)[1..] == steps;
    hide Coherence.Enabled, Coherence.Apply;
  }

  /** A streamed write, with anything else between its frames and announcements, is a run of the
      daemon and a mount.  Its next step can always be taken; what it still has to announce is what
      it wrote since its last announcement; and in the end it has made its announcements, and
      nothing is left to be announced if and only if they reach as far as the bytes. */
  lemma StreamIsRun(j: Job, s: State, turns: seq<Turn>)
    requires Solid(j) && Unused(j, s) && Goes(j, s, Begin(j), turns)
    ensures Coherence.Runs(s, Steps(j, s, Begin(j), turns))
    ensures var (t, h) := End(j, s, Begin(j), turns);
      && t == Coherence.Exec(s, Steps(j, s, Begin(j), turns))
      && h.count <= |j.frames| && h.told <= Size(j, h.count)
      && (!Ended(j, h) ==> Coherence.Enabled(t, OwnStep(j, t, h)))
      && (forall n: nat ::
        j.base <= n < j.base + |j.frames| ==> (n in t.unrecorded <==> j.base + h.first <= n < j.base + h.count))
      && (Ended(j, h) ==> h.tiles == Announcements(j.offset, j.len, j.frames) && h.told == Announced(j.len, j.frames))
      && (Ended(j, h) ==> (Unannounced(j, t) == {} <==> Announced(j.len, j.frames) == |Concat(j.frames)|))
  {
    BeginKeeps(j, s);
    TurnsKeep(j, s, Begin(j), turns);
    var (t, h) := End(j, s, Begin(j), turns);
    hide Coherence.Runs, Coherence.Exec, Coherence.Enabled, Coherence.Apply, Goes, Steps, End, Begin;
    if !Ended(j, h) {
      OwnStepEnabled(j, t, h);
    } else {
      EndTold(j, h);
      EndPending(j, t, h);
    }
  }

  /** The stream's changes that no announcement covers yet. */
  function Unannounced(j: Job, s: State): set<nat> {
    set n <- s.unrecorded | j.base <= n < j.base + |j.frames|
  }

  lemma EndTold(j: Job, h: Handler)
    requires Telling(j, h) && Ended(j, h)
    ensures h.count == |j.frames| && h.tiles == Announcements(j.offset, j.len, j.frames) &&
      h.told == Announced(j.len, j.frames)
    ensures h.told == Size(j, h.first) && Size(j, |j.frames|) == |Concat(j.frames)|
  {
    assert j.frames[..|j.frames|] == j.frames;
    hide Concat, Told, Tiles;
  }

  lemma EndPending(j: Job, s: State, h: Handler)
    requires Solid(j) && Owing(j, s, h) && h.count == |j.frames| && h.told == Size(j, h.first)
    ensures Unannounced(j, s) == {} <==> h.told == Size(j, |j.frames|)
  {
    if h.first < |j.frames| {
      SizeGrows(j, h.first);
      ConcatGrows(j.frames, h.first + 1, |j.frames|);
      assert j.base + h.first in Unannounced(j, s);
    }
  }

  // ------------------------------------------------------------------ the file

  /** Does nobody else change this file? */
  predicate Quiet(j: Job, turn: Turn) {
    turn.Other? ==>
      match turn.step
      case ServerWrite(_, _, path, _, _) => path != j.path
      case ServerReplace(_, _, path, _) => !Under(path, j.path)
      case _ => true
  }

  predicate Holds(j: Job, s: State, h: Handler, f: File) {
    h.count <= |j.frames| && Content(s.files, j.path) == WriteAt(f, j.offset, Concat(j.frames[..h.count]))
  }

  /** If nobody else changes the file, it holds what was written, in one piece. */
  lemma StreamWrites(j: Job, s: State, turns: seq<Turn>)
    requires Solid(j) && Goes(j, s, Begin(j), turns) && forall turn <- turns :: Quiet(j, turn)
    ensures var (t, h) := End(j, s, Begin(j), turns);
      h.count <= |j.frames| &&
        Content(t.files, j.path) == WriteAt(Content(s.files, j.path), j.offset, Concat(j.frames[..h.count]))
  {
    assert j.frames[..0] == [];
    TurnsHold(j, s, Begin(j), turns, Content(s.files, j.path));
    hide Goes, End;
  }

  lemma {:induction false} TurnsHold(j: Job, s: State, h: Handler, turns: seq<Turn>, f: File)
    requires Solid(j) && Goes(j, s, h, turns) && Holds(j, s, h, f) && forall turn <- turns :: Quiet(j, turn)
    ensures var (t, g) := End(j, s, h, turns); Holds(j, t, g, f)
    decreases |turns|
  {
    hide Coherence.Enabled, Coherence.Apply, Solid, StepOf, HandlerAfter, Holds, Quiet;
    if turns != [] {
      TurnHolds(j, s, h, turns[0], f);
      TurnsHold(j, Coherence.Apply(s, StepOf(j, s, h, turns[0])), HandlerAfter(j, s, h, turns[0]), turns[1..], f);
    }
  }

  lemma TurnHolds(j: Job, s: State, h: Handler, turn: Turn, f: File)
    requires Solid(j) && Takes(j, s, h, turn) && Holds(j, s, h, f) && Quiet(j, turn)
    ensures Holds(j, Coherence.Apply(s, StepOf(j, s, h, turn)), HandlerAfter(j, s, h, turn), f)
  {
    hide WriteAt, Concat, LeavesGap, Coherence.WriteChange, Coherence.Apply, Coherence.Enabled;
    if turn.Mine? && !Due(j, h) && !LastDue(j, h) {
      FrameHolds(j, s, h, f);
    } else {
      OthersLeaveFile(j, s, StepOf(j, s, h, turn));
    }
  }

  lemma FrameHolds(j: Job, s: State, h: Handler, f: File)
    requires Solid(j) && Takes(j, s, h, Mine) && Holds(j, s, h, f) && !Due(j, h) && !LastDue(j, h)
    ensures Holds(j, Coherence.Apply(s, OwnStep(j, s, h)), Advanced(j, s, h), f)
  {
    hide WriteAt, Concat, Coherence.WriteChange, Coherence.Apply, Coherence.Enabled, Solid;
    NextFrame(j, s, h);
    FrameContent(f, j.offset, j.frames, h.count);
  }

  lemma NextFrame(j: Job, s: State, h: Handler)
    requires Takes(j, s, h, Mine) && !Due(j, h) && !LastDue(j, h)
    ensures h.count < |j.frames|
    ensures Coherence.Apply(s, OwnStep(j, s, h)).files
         == s.files[j.path := WriteAt(Content(s.files, j.path), j.offset + Size(j, h.count), j.frames[h.count])]
  {
    hide WriteAt, Concat, Coherence.WriteChange, Coherence.Apply;
    var _ := FrameChange(s, OwnStep(j, s, h));
  }

  lemma OthersLeaveFile(j: Job, s: State, l: Step)
    requires Coherence.Enabled(s, l) && Quiet(j, Other(l))
    ensures Content(Coherence.Apply(s, l).files, j.path) == Content(s.files, j.path)
  {
    hide Coherence.Clear, Coherence.InvalidateAll, Coherence.Dropped, Coherence.FetchesNotice, Coherence.WriteChange,
      LeavesGap, WriteAt, Block,
      Coherence.News, Coherence.Announced, Coherence.Announces;
    match l
    case ApplyFirst => Coherence.ClearOnlyCache(s, s.batch[0].event);
    case InvalidateOwn(id) => Coherence.ClearOnlyCache(s, s.own[id].event);
    case Reset(_) => Coherence.ResetOnlyCache(s);
    case _ =>
  }
}
