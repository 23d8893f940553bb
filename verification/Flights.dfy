/** Single-flight fetches: the table of keys being fetched, the leaders that fetch them and the
    followers that wait.  A step is one lock hold: between taking a key out of the table and
    finishing its flight anything else may happen. */
module Flights {
  import opened Wrappers
  import opened Paths
  import Mount

  type Key = Mount.Key
  type Thread = nat
  type Flight = nat

  /** The keys path/first .. path/first + count - 1, claimed with the flights base, base + 1, ...
      `read` is the outcome of the range read once it is there; the keys before `removed` have
      left the table, the flights before `finished` are finished. */
  datatype Claim = Claim(path: Path, first: nat, base: Flight, count: nat, read: Option<bool>, removed: nat,
    finished: nat)

  datatype State = State(
    cached: set<Key>,
    inflight: map<Key, Flight>,
    finished: set<Flight>,
    next: Flight,
    leaders: map<Thread, Claim>,
    followers: map<Thread, Flight>,
    owner: map<Flight, Thread>) // history: who created a flight

  const EMPTY: State := State({}, map[], {}, 0, map[], map[], map[])

  predicate Idle(s: State, t: Thread) {
    t !in s.leaders && t !in s.followers
  }

  predicate Within(path: Path, first: nat, n: nat, k: Key) {
    k.0 == path && first <= k.1 < first + n
  }

  /** How many of the keys a run can claim: it stops at the first one cached or in flight. */
  function FreeRun(cached: set<Key>, inflight: map<Key, Flight>, path: Path, first: nat, count: nat): (n: nat)
    ensures n <= count
    ensures forall k: Key | Within(path, first, n, k) :: k !in cached && k !in inflight
    ensures n < count ==> (path, first + n) in cached || (path, first + n) in inflight
    decreases count
  {
    if count == 0 || (path, first) in cached || (path, first) in inflight then
      0
    else
      var n := FreeRun(cached, inflight, path, first + 1, count - 1) + 1;
      assert forall k: Key | Within(path, first, n, k) :: k == (path, first) || Within(path, first + 1, n - 1, k);
      n
  }

  function Claimed(inflight: map<Key, Flight>, path: Path, first: nat, n: nat, base: Flight): map<Key, Flight> {
    if n == 0 then inflight else Claimed(inflight, path, first, n - 1, base)[(path, first + n - 1) := base + n - 1]
  }

  function Owned(owner: map<Flight, Thread>, base: Flight, n: nat, t: Thread): map<Flight, Thread> {
    if n == 0 then owner else Owned(owner, base, n - 1, t)[base + n - 1 := t]
  }

  lemma {:induction false} ClaimedAt(inflight: map<Key, Flight>, path: Path, first: nat, n: nat, base: Flight)
    ensures forall k: Key :: k in Claimed(inflight, path, first, n, base) <==>
      k in inflight || Within(path, first, n, k)
    ensures forall k: Key | k in Claimed(inflight, path, first, n, base) ::
      Claimed(inflight, path, first, n, base)[k] == if Within(path, first, n, k) then base + (k.1 - first)
        else inflight[k]
  {
    if n > 0 {
      ClaimedAt(inflight, path, first, n - 1, base);
    }
  }

  lemma {:induction false} OwnedAt(owner: map<Flight, Thread>, base: Flight, n: nat, t: Thread)
    ensures forall f: Flight :: f in Owned(owner, base, n, t) <==> f in owner || base <= f < base + n
    ensures forall f: Flight | f in Owned(owner, base, n, t) ::
      Owned(owner, base, n, t)[f] == if base <= f < base + n then t else owner[f]
  {
    if n > 0 {
      OwnedAt(owner, base, n - 1, t);
    }
  }

  /** Thread t becomes the leader of n keys, if any. */
  function Lead(s: State, t: Thread, path: Path, first: nat, n: nat): State {
    if n == 0 then
      s
    else
      s.(inflight := Claimed(s.inflight, path, first, n, s.next),
         next := s.next + n,
         leaders := s.leaders[t := Claim(path, first, s.next, n, None, 0, 0)],
         owner := Owned(s.owner, s.next, n, t))
  }

  datatype Step =
    | Fetch(t: Thread, key: Key)
    | FetchRun(t: Thread, path: Path, first: nat, count: nat)
    | Read(t: Thread, ok: bool)
    | Cache(cached: set<Key>)
    | Remove(t: Thread)
    | Finish(t: Thread)
    | Wake(t: Thread)

  predicate Enabled(s: State, l: Step) {
    match l
    case Fetch(t, key) => Idle(s, t)
    case FetchRun(t, path, first, count) => Idle(s, t)
    case Read(t, ok) => t in s.leaders && s.leaders[t].read.None?
    case Cache(cached) => true
    case Remove(t) => t in s.leaders && s.leaders[t].read.Some? && s.leaders[t].removed == s.leaders[t].finished
    case Finish(t) => t in s.leaders && s.leaders[t].finished < s.leaders[t].removed
    case Wake(t) => t in s.followers && s.followers[t] in s.finished
  }

  /** A leader whose last flight is finished returns. */
  function Finished(s: State, t: Thread): State
    requires t in s.leaders
  {
    var c := s.leaders[t];
    s.(finished := s.finished + {c.base + c.finished},
       leaders := if c.finished + 1 < c.count then s.leaders[t := c.(finished := c.finished + 1)] else s.leaders - {t})
  }

  function Removed(s: State, t: Thread): State
    requires t in s.leaders
  {
    var c := s.leaders[t];
    s.(inflight := s.inflight - {(c.path, c.first + c.removed)},
      leaders := s.leaders[t := c.(removed := c.removed + 1)])
  }

  function Apply(s: State, l: Step): State
    requires Enabled(s, l)
  {
    match l
    case Fetch(t, key) =>
      if key in s.inflight then s.(followers := s.followers[t := s.inflight[key]]) else Lead(s, t, key.0, key.1, 1)
    case FetchRun(t, path, first, count) => Lead(s, t, path, first, FreeRun(s.cached, s.inflight, path, first, count))
    case Read(t, ok) => s.(leaders := s.leaders[t := s.leaders[t].(read := Some(ok))])
    case Cache(cached) => s.(cached := cached)
    case Remove(t) => Removed(s, t)
    case Finish(t) => Finished(s, t)
    case Wake(t) => s.(followers := s.followers - {t})
  }

  // ------------------------------------------------------------------ the invariant

  /** Does thread t lead a flight for this key that is still in the table? */
  predicate Leads(s: State, t: Thread, k: Key) {
    t in s.leaders &&
    var c := s.leaders[t];
    k.0 == c.path && c.first + c.removed <= k.1 < c.first + c.count
  }

  function FlightFor(c: Claim, k: Key): int {
    c.base + (k.1 - c.first)
  }

  /** Every key in the table is led, with the flight the table shows, which is unfinished. */
  predicate TableLed(s: State) {
    forall k <- s.inflight ::
      && s.inflight[k] in s.owner
      && Leads(s, s.owner[s.inflight[k]], k)
      && s.inflight[k] == FlightFor(s.leaders[s.owner[s.inflight[k]]], k)
  }

  /** Every key still led is in the table. */
  ghost predicate LedInTable(s: State) {
    forall t, k: Key | Leads(s, t, k) :: k in s.inflight && s.inflight[k] == FlightFor(s.leaders[t], k)
  }

  predicate Shaped(c: Claim) {
    c.finished <= c.removed <= c.finished + 1 && c.removed <= c.count && c.finished < c.count
  }

  predicate ClaimsShaped(s: State) {
    forall t <- s.leaders :: Shaped(s.leaders[t]) && s.leaders[t].base + s.leaders[t].count <= s.next
  }

  ghost predicate FlightsOwned(s: State) {
    forall t <- s.leaders, f: Flight | s.leaders[t].base <= f < s.leaders[t].base + s.leaders[t].count ::
      && f in s.owner && s.owner[f] == t
      && (f in s.finished <==> f < s.leaders[t].base + s.leaders[t].finished)
  }

  /** Is a live leader still going to finish this flight? */
  predicate Live(s: State, f: Flight) {
    f in s.owner && s.owner[f] in s.leaders &&
    var c := s.leaders[s.owner[f]];
    c.base + c.finished <= f < c.base + c.count
  }

  /** A flight ever created is finished or live. */
  ghost predicate NoneLost(s: State) {
    forall f: Flight | f < s.next :: f in s.finished || Live(s, f)
  }

  predicate Numbered(s: State) {
    && (forall t <- s.followers :: s.followers[t] < s.next)
    && (forall f <- s.finished :: f < s.next)
    && (forall f <- s.owner :: f < s.next)
  }

  ghost predicate Inv(s: State) {
    TableLed(s) && LedInTable(s) && ClaimsShaped(s) && FlightsOwned(s) && NoneLost(s) && Numbered(s)
  }

  // ------------------------------------------------------------------ every step keeps it

  lemma LeadKeepsInv(s: State, t: Thread, path: Path, first: nat, n: nat)
    requires Inv(s) && Idle(s, t)
    requires forall k: Key | Within(path, first, n, k) :: k !in s.inflight
    ensures Inv(Lead(s, t, path, first, n))
  {
    hide TableLed, LedInTable, ClaimsShaped, FlightsOwned, NoneLost;
    if n > 0 {
      LeadTable(s, t, path, first, n);
      LeadFlights(s, t, path, first, n);
      LeadLosesNone(s, t, path, first, n);
    }
  }

  lemma LeadTable(s: State, t: Thread, path: Path, first: nat, n: nat)
    requires TableLed(s) && LedInTable(s) && Idle(s, t) && n > 0 && Numbered(s)
    requires forall k: Key | Within(path, first, n, k) :: k !in s.inflight
    ensures TableLed(Lead(s, t, path, first, n)) && LedInTable(Lead(s, t, path, first, n))
  {
    var r := Lead(s, t, path, first, n);
    ClaimedAt(s.inflight, path, first, n, s.next);
    OwnedAt(s.owner, s.next, n, t);
    forall k <- r.inflight
      ensures r.inflight[k] in r.owner && Leads(r, r.owner[r.inflight[k]], k)
      ensures r.inflight[k] == FlightFor(r.leaders[r.owner[r.inflight[k]]], k)
    {
      if !Within(path, first, n, k) {
        assert Leads(s, s.owner[s.inflight[k]], k);
      }
    }
    forall u, k: Key | Leads(r, u, k)
      ensures k in r.inflight && r.inflight[k] == FlightFor(r.leaders[u], k)
    {
      if u != t {
        assert Leads(s, u, k);
      }
    }
  }

  lemma LeadFlights(s: State, t: Thread, path: Path, first: nat, n: nat)
    requires ClaimsShaped(s) && FlightsOwned(s) && Numbered(s) && Idle(s, t) && n > 0
    ensures var r := Lead(s, t, path, first, n); ClaimsShaped(r) && FlightsOwned(r) && Numbered(r)
  {
    OwnedAt(s.owner, s.next, n, t);
  }

  lemma LeadLosesNone(s: State, t: Thread, path: Path, first: nat, n: nat)
    requires NoneLost(s) && Numbered(s) && Idle(s, t) && n > 0
    ensures NoneLost(Lead(s, t, path, first, n))
  {
    var r := Lead(s, t, path, first, n);
    OwnedAt(s.owner, s.next, n, t);
    forall f: Flight | f < r.next
      ensures f in r.finished || Live(r, f)
    {
      if f < s.next && f !in s.finished {
        assert Live(s, f);
      }
    }
  }

  /** No key has two leaders. */
  lemma UniqueLeader(s: State, t: Thread, u: Thread, k: Key)
    requires LedInTable(s) && FlightsOwned(s) && ClaimsShaped(s)
    requires Leads(s, t, k)
    ensures Leads(s, u, k) ==> t == u
  {
    if Leads(s, u, k) {
      var f := s.inflight[k];
      assert s.owner[f] == t;
      assert s.owner[f] == u;
    }
  }

  lemma RemovedTable(s: State, t: Thread)
    requires TableLed(s) && ClaimsShaped(s) && Enabled(s, Remove(t))
    ensures TableLed(Removed(s, t))
  {
    var r := Removed(s, t);
    forall k <- r.inflight
      ensures Leads(r, r.owner[r.inflight[k]], k)
    {
      assert Leads(s, s.owner[s.inflight[k]], k);
    }
  }

  lemma RemovedLeads(s: State, t: Thread)
    requires LedInTable(s) && ClaimsShaped(s) && FlightsOwned(s) && Enabled(s, Remove(t))
    ensures LedInTable(Removed(s, t))
  {
    var r, c := Removed(s, t), s.leaders[t];
    var gone := (c.path, c.first + c.removed);
    assert Leads(s, t, gone);
    forall u, k: Key | Leads(r, u, k)
      ensures k in r.inflight && r.inflight[k] == FlightFor(r.leaders[u], k)
    {
      assert Leads(s, u, k);
      if k == gone {
        UniqueLeader(s, t, u, gone);
      }
    }
  }

  lemma RemovedFlights(s: State, t: Thread)
    requires ClaimsShaped(s) && FlightsOwned(s) && NoneLost(s) && Numbered(s) && Enabled(s, Remove(t))
    ensures var r := Removed(s, t); ClaimsShaped(r) && FlightsOwned(r) && NoneLost(r) && Numbered(r)
  {
    var r := Removed(s, t);
    forall f: Flight | f < r.next
      ensures f in r.finished || Live(r, f)
    {
      assert f in s.finished || Live(s, f);
    }
  }

  /** A flight is finished only when its key has left the table. */
  lemma FinishedTable(s: State, t: Thread)
    requires TableLed(s) && LedInTable(s) && ClaimsShaped(s) && Enabled(s, Finish(t))
    ensures TableLed(Finished(s, t)) && LedInTable(Finished(s, t))
  {
    var r := Finished(s, t);
    forall k <- r.inflight
      ensures Leads(r, r.owner[r.inflight[k]], k)
      ensures r.inflight[k] == FlightFor(r.leaders[r.owner[r.inflight[k]]], k)
    {
      assert Leads(s, s.owner[s.inflight[k]], k);
    }
    forall u, k: Key | Leads(r, u, k)
      ensures k in r.inflight && r.inflight[k] == FlightFor(r.leaders[u], k)
    {
      assert Leads(s, u, k);
    }
  }

  lemma FinishedFlights(s: State, t: Thread)
    requires ClaimsShaped(s) && FlightsOwned(s) && Enabled(s, Finish(t))
    ensures FlightsOwned(Finished(s, t))
  {
    var c, r := s.leaders[t], Finished(s, t);
    assert c.base <= c.base + c.finished < c.base + c.count;
    forall u <- r.leaders, f: Flight | r.leaders[u].base <= f < r.leaders[u].base + r.leaders[u].count
      ensures f in r.owner && r.owner[f] == u
      ensures f in r.finished <==> f < r.leaders[u].base + r.leaders[u].finished
    {
      assert s.owner[f] == u;
    }
  }

  lemma FinishedShape(s: State, t: Thread)
    requires ClaimsShaped(s) && Numbered(s) && Enabled(s, Finish(t))
    ensures ClaimsShaped(Finished(s, t)) && Numbered(Finished(s, t))
  {
  }

  lemma FinishedLosesNone(s: State, t: Thread)
    requires ClaimsShaped(s) && NoneLost(s) && Enabled(s, Finish(t))
    ensures NoneLost(Finished(s, t))
  {
    var r := Finished(s, t);
    forall f: Flight | f < r.next
      ensures f in r.finished || Live(r, f)
    {
      assert f in s.finished || Live(s, f);
    }
  }

  lemma StepKeepsInv(s: State, l: Step)
    requires Inv(s) && Enabled(s, l)
    ensures Inv(Apply(s, l))
  {
    hide LedInTable, ClaimsShaped, FlightsOwned, NoneLost, Lead, Finished, Removed;
    match l
    case Fetch(t, key) =>
      if key !in s.inflight {
        assert (key.0, key.1) == key;
        LeadKeepsInv(s, t, key.0, key.1, 1);
      } else {
        SameLeaders(s, Apply(s, l));
      }
    case FetchRun(t, path, first, count) => LeadKeepsInv(s, t, path, first,
      FreeRun(s.cached, s.inflight, path, first, count));
    case Read(t, ok) => SameLeaders(s, Apply(s, l));
    case Cache(cached) => SameLeaders(s, Apply(s, l));
    case Remove(t) => RemovedTable(s, t); RemovedLeads(s, t); RemovedFlights(s, t);
    case Finish(t) => FinishedTable(s, t); FinishedFlights(s, t); FinishedShape(s, t); FinishedLosesNone(s, t);
    case Wake(t) => SameLeaders(s, Apply(s, l));
  }

  /** Steps that change no claim and no flight. */
  lemma SameLeaders(s: State, r: State)
    requires Inv(s)
    requires s.inflight == r.inflight && s.finished == r.finished && s.next == r.next && s.owner == r.owner
    requires s.leaders.Keys == r.leaders.Keys
    requires forall t <- s.leaders :: s.leaders[t].(read := r.leaders[t].read) == r.leaders[t]
    requires forall t <- r.followers :: r.followers[t] < s.next
    ensures Inv(r)
  {
    forall t, k: Key | Leads(r, t, k)
      ensures Leads(s, t, k)
    {
    }
    forall f: Flight | f < r.next
      ensures f in r.finished || Live(r, f)
    {
      assert f in s.finished || Live(s, f);
    }
  }

  // ------------------------------------------------------------------ whole runs

  ghost predicate Runs(s: State, steps: seq<Step>)
    decreases |steps|
  {
    steps == [] || (Enabled(s, steps[0]) && Runs(Apply(s, steps[0]), steps[1..]))
  }

  function Exec(s: State, steps: seq<Step>): State
    requires Runs(s, steps)
    decreases |steps|
  {
    if steps == [] then s else Exec(Apply(s, steps[0]), steps[1..])
  }

  lemma {:induction false} RunKeepsInv(s: State, steps: seq<Step>)
    requires Inv(s) && Runs(s, steps)
    ensures Inv(Exec(s, steps))
    decreases |steps|
  {
    if steps != [] {
      StepKeepsInv(s, steps[0]);
      RunKeepsInv(Apply(s, steps[0]), steps[1..]);
    }
  }

  /** In every reachable state each key in flight has one live leader and an unfinished flight. */
  lemma OneLeader(steps: seq<Step>, k: Key) returns (leader: Thread)
    requires Runs(EMPTY, steps) && k in Exec(EMPTY, steps).inflight
    ensures Leads(Exec(EMPTY, steps), leader, k)
    ensures forall t :: Leads(Exec(EMPTY, steps), t, k) ==> t == leader
    ensures Exec(EMPTY, steps).inflight[k] !in Exec(EMPTY, steps).finished
  {
    RunKeepsInv(EMPTY, steps);
    var s := Exec(EMPTY, steps);
    var f := s.inflight[k];
    leader := s.owner[f];
    forall t | Leads(s, t, k)
      ensures t == leader
    {
      UniqueLeader(s, leader, t, k);
    }
    assert s.leaders[leader].base <= f < s.leaders[leader].base + s.leaders[leader].count;
  }

  // ------------------------------------------------------------------ releasing

  function ClaimKeys(path: Path, first: nat, n: nat): set<Key>
    decreases n
  {
    if n == 0 then {} else ClaimKeys(path, first + 1, n - 1) + {(path, first)}
  }

  function ClaimFlights(base: Flight, n: nat): set<Flight>
    decreases n
  {
    if n == 0 then {} else ClaimFlights(base + 1, n - 1) + {base}
  }

  lemma {:induction false} ClaimFlightsHas(base: Flight, n: nat, f: Flight)
    ensures f in ClaimFlights(base, n) <==> base <= f < base + n
    decreases n
  {
    if n > 0 {
      ClaimFlightsHas(base + 1, n - 1, f);
    }
  }

  /** All a leader still holds, let go at once. */
  function Released(s: State, t: Thread): State
    requires t in s.leaders && Shaped(s.leaders[t])
  {
    var c := s.leaders[t];
    s.(inflight := s.inflight - ClaimKeys(c.path, c.first + c.removed, c.count - c.removed),
       finished := s.finished + ClaimFlights(c.base + c.finished, c.count - c.finished),
       leaders := s.leaders - {t})
  }

  /** What a leader does on its own until it returns; `ok` is the outcome of its read if that
      is still to come. */
  function Drain(c: Claim, t: Thread, ok: bool): seq<Step>
    decreases c.read.None?, c.count - c.finished, c.count - c.removed
  {
    if c.read.None? then
      [Read(t, ok)] + Drain(c.(read := Some(ok)), t, ok)
    else if c.finished >= c.count then
      []
    else if c.removed == c.finished then
      [Remove(t)] + Drain(c.(removed := c.removed + 1), t, ok)
    else
      [Finish(t)] + Drain(c.(finished := c.finished + 1), t, ok)
  }

  /** Draining takes an enabled step and goes on draining until the leader has returned. */
  lemma DrainStep(s: State, t: Thread, ok: bool)
    requires ClaimsShaped(s) && t in s.leaders
    ensures Drain(s.leaders[t], t, ok) != [] && Enabled(s, Drain(s.leaders[t], t, ok)[0])
    ensures var steps := Drain(s.leaders[t], t, ok);
      var r := Apply(s, steps[0]);
      steps[1..] == if t in r.leaders then Drain(r.leaders[t], t, ok) else []
  {
    hide Released;
    var c := s.leaders[t];
    if c.read.Some? && c.removed != c.finished {
      assert Drain(c, t, ok)[1..] == Drain(c.(finished := c.finished + 1), t, ok);
    }
  }

  lemma RemovedReleases(s: State, t: Thread)
    requires t in s.leaders && Shaped(s.leaders[t]) && Shaped(Removed(s, t).leaders[t])
    ensures Released(Removed(s, t), t) == Released(s, t)
  {
    var c, r := s.leaders[t], Removed(s, t);
    assert r.inflight - ClaimKeys(c.path, c.first + c.removed + 1, c.count - c.removed - 1)
      == s.inflight - ClaimKeys(c.path, c.first + c.removed, c.count - c.removed);
    assert r.leaders - {t} == s.leaders - {t};
  }

  lemma FinishedReleases(s: State, t: Thread)
    requires t in s.leaders && Shaped(s.leaders[t]) && s.leaders[t].finished < s.leaders[t].removed
    ensures t !in Finished(s, t).leaders ==> Finished(s, t) == Released(s, t)
    ensures t in Finished(s, t).leaders && Shaped(Finished(s, t).leaders[t]) ==>
      Released(Finished(s, t), t) == Released(s, t)
  {
    var c, r := s.leaders[t], Finished(s, t);
    assert r.finished + ClaimFlights(c.base + c.finished + 1, c.count - c.finished - 1)
      == s.finished + ClaimFlights(c.base + c.finished, c.count - c.finished);
    assert r.leaders - {t} == s.leaders - {t};
  }

  /** Whatever its read returns, a leader takes exactly the keys it claimed out of the table,
      finishes exactly the flights it created, and returns. */
  lemma {:induction false} DrainReleases(s: State, t: Thread, ok: bool)
    requires Inv(s) && t in s.leaders
    ensures Runs(s, Drain(s.leaders[t], t, ok))
    ensures Exec(s, Drain(s.leaders[t], t, ok)) == Released(s, t)
    decreases s.leaders[t].read.None?, s.leaders[t].count - s.leaders[t].finished,
      s.leaders[t].count - s.leaders[t].removed
  {
    hide LedInTable, TableLed, FlightsOwned, NoneLost, Numbered, Released;
    var steps := Drain(s.leaders[t], t, ok);
    DrainStep(s, t, ok);
    StepKeepsInv(s, steps[0]);
    var r := Apply(s, steps[0]);
    match steps[0] {
      case Read(_, _) => ReadReleases(s, t, ok);
      case Remove(_) => RemovedReleases(s, t);
      case Finish(_) => FinishedReleases(s, t);
    }
    if t in r.leaders {
      DrainReleases(r, t, ok);
    }
  }

  lemma ReadReleases(s: State, t: Thread, ok: bool)
    requires ClaimsShaped(s) && Enabled(s, Read(t, ok))
    ensures Released(Apply(s, Read(t, ok)), t) == Released(s, t)
  {
    assert Apply(s, Read(t, ok)).leaders - {t} == s.leaders - {t};
  }

  /** No waiter is lost: in every reachable state the flight a follower waits on is finished,
      or a live leader finishes it by its own remaining steps, whatever its read returns. */
  lemma NoLostWaiters(steps: seq<Step>, t: Thread, ok: bool) returns (u: Thread)
    requires Runs(EMPTY, steps) && t in Exec(EMPTY, steps).followers
    ensures var s := Exec(EMPTY, steps);
      Enabled(s, Wake(t)) ||
        (u in s.leaders && Runs(s, Drain(s.leaders[u], u, ok)) && Enabled(Exec(s, Drain(s.leaders[u], u, ok)), Wake(t)))
  {
    RunKeepsInv(EMPTY, steps);
    u := LeaderFor(Exec(EMPTY, steps), t, ok);
  }

  lemma LeaderFor(s: State, t: Thread, ok: bool) returns (u: Thread)
    requires Inv(s) && t in s.followers
    ensures Enabled(s, Wake(t)) ||
      (u in s.leaders && Runs(s, Drain(s.leaders[u], u, ok)) && Enabled(Exec(s, Drain(s.leaders[u], u, ok)), Wake(t)))
  {
    hide Drain, Runs, Exec, LedInTable, TableLed, FlightsOwned;
    var f := s.followers[t];
    u := 0;
    if f !in s.finished {
      assert Live(s, f);
      u := s.owner[f];
      var c := s.leaders[u];
      DrainReleases(s, u, ok);
      ClaimFlightsHas(c.base + c.finished, c.count - c.finished, f);
    }
  }

  // ------------------------------------------------------------------ the table

  class FlightTable {
    var inflight: map<Key, Flight>
    var finished: set<Flight>
    var next: Flight

    constructor ()
      ensures inflight == EMPTY.inflight && finished == EMPTY.finished && next == EMPTY.next
    {
      inflight, finished, next := map[], {}, 0;
    }

    /** The claiming loop of a run, under the lock. */
    method ClaimRun(cached: set<Key>, path: Path, first: nat, count: nat) returns (base: Flight, n: nat)
      modifies `inflight, `next
      ensures n == FreeRun(cached, old(inflight), path, first, count)
      ensures base == old(next) && next == base + n
      ensures inflight == Claimed(old(inflight), path, first, n, base)
    {
      base, n := next, 0;
      while n < count
        invariant n <= count && base == old(next) && next == base + n
        invariant inflight == Claimed(old(inflight), path, first, n, base)
        invariant forall k: Key | Within(path, first, n, k) :: k !in cached && k !in old(inflight)
      {
        var key := (path, first + n);
        ClaimedAt(old(inflight), path, first, n, base);
        if key in cached || key in inflight {
          break;
        }
        inflight := inflight[key := next];
        next, n := next + 1, n + 1;
      }
      ClaimedAt(old(inflight), path, first, n, base);
      FreeRunUnique(cached, old(inflight), path, first, count, n);
    }

    /** The leader of one block, or the flight to wait on. */
    method Claim(key: Key) returns (flight: Flight, leader: bool)
      modifies `inflight, `next
      ensures leader <==> key !in old(inflight)
      ensures !leader ==> flight == old(inflight)[key] && inflight == old(inflight) && next == old(next)
      ensures leader ==> flight == old(next) && next == flight + 1
      ensures leader ==> inflight == Claimed(old(inflight), key.0, key.1, 1, flight)
    {
      if key in inflight {
        return inflight[key], false;
      }
      flight, leader := next, true;
      next := next + 1;
      inflight := inflight[key := flight];
      assert Claimed(old(inflight), key.0, key.1, 1, flight)
        == Claimed(old(inflight), key.0, key.1, 0, flight)[(key.0, key.1) := flight];
      assert (key.0, key.1) == key;
    }

    /** The releasing loop: every claimed key leaves the table and every flight is finished,
        whether the read failed or not. */
    method Release(path: Path, first: nat, base: Flight, n: nat)
      modifies `inflight, `finished
      ensures inflight == old(inflight) - ClaimKeys(path, first, n)
      ensures finished == old(finished) + ClaimFlights(base, n)
    {
      var position := 0;
      while position < n
        invariant position <= n
        invariant inflight - ClaimKeys(path, first + position, n - position)
          == old(inflight) - ClaimKeys(path, first, n)
        invariant finished + ClaimFlights(base + position, n - position) == old(finished) + ClaimFlights(base, n)
      {
        inflight := inflight - {(path, first + position)};
        finished := finished + {base + position};
        position := position + 1;
      }
    }
  }

  lemma {:induction false} FreeRunUnique(cached: set<Key>, inflight: map<Key, Flight>, path: Path, first: nat,
      count: nat, n: nat)
    requires n <= count
    requires forall k: Key | Within(path, first, n, k) :: k !in cached && k !in inflight
    requires n < count ==> (path, first + n) in cached || (path, first + n) in inflight
    ensures n == FreeRun(cached, inflight, path, first, count)
  {
    var m := FreeRun(cached, inflight, path, first, count);
    var j: Key, k: Key := (path, first + m), (path, first + n);
    assert m < n ==> Within(path, first, n, j);
    assert n < m ==> Within(path, first, m, k);
  }
}
