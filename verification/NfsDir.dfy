/** Reading a directory over NFS page by page, with inode numbers as cookies (READDIR, section
    3.3.16 of RFC 1813). */
module NfsDir {
  import opened Paths
  import opened Namespace

  datatype Item = Item(ino: nat, name: string)

  predicate Ascending(s: seq<Item>) {
    forall i: nat, j: nat :: i < j < |s| ==> s[i].ino < s[j].ino
  }

  predicate DistinctInos(s: seq<Item>) {
    forall i: nat, j: nat :: i < j < |s| ==> s[i].ino != s[j].ino
  }

  method Insert(s: seq<Item>, x: Item) returns (r: seq<Item>)
    requires Ascending(s) && forall y <- s :: y.ino != x.ino
    ensures Ascending(r) && forall y :: y in r <==> y in s || y == x
  {
    var i := 0;
    while i < |s| && s[i].ino < x.ino
      invariant i <= |s| && forall j: nat :: j < i ==> s[j].ino < x.ino
    {
      i := i + 1;
    }
    r := s[..i] + [x] + s[i..];
    Inserted(s, x, i);
  }

  lemma Inserted(s: seq<Item>, x: Item, i: nat)
    requires Ascending(s) && i <= |s| && forall y <- s :: y.ino != x.ino
    requires forall j: nat :: j < i ==> s[j].ino < x.ino
    requires i < |s| ==> s[i].ino >= x.ino
    ensures var r := s[..i] + [x] + s[i..];
      Ascending(r) && forall y :: y in r <==> y in s || y == x
  {
    var r := s[..i] + [x] + s[i..];
    InsertedHas(s, x, i);
    hide *;
    assert Ascending(r) by {
      InsertedAscends(s, x, i);
    }
  }

  lemma InsertedHas(s: seq<Item>, x: Item, i: nat)
    requires i <= |s|
    ensures forall y :: y in s[..i] + [x] + s[i..] <==> y in s || y == x
  {
    assert s == s[..i] + s[i..];
  }

  lemma InsertedAscends(s: seq<Item>, x: Item, i: nat)
    requires Ascending(s) && i <= |s| && (forall y <- s :: y.ino != x.ino) && forall j: nat ::
      j < i ==> s[j].ino < x.ino
    requires i < |s| ==> s[i].ino >= x.ino
    ensures Ascending(s[..i] + [x] + s[i..])
  {
    assert i < |s| ==> s[i] in s;
  }

  method SortByIno(items: seq<Item>) returns (sorted: seq<Item>)
    requires DistinctInos(items)
    ensures Ascending(sorted) && forall y :: y in sorted <==> y in items
  {
    sorted := [];
    for k := 0 to |items|
      invariant Ascending(sorted) && forall y :: y in sorted <==> y in items[..k]
    {
      sorted := Insert(sorted, items[k]);
    }
    assert items[..|items|] == items;
  }

  /** One page: the entries after the cookie in the order of their numbers, at most `maxEntries`;
      whatever is left out comes after all of them. */
  method ReadDir(items: seq<Item>, startAfter: nat, maxEntries: nat) returns (entries: seq<Item>, end: bool)
    requires DistinctInos(items)
    ensures Ascending(entries) && |entries| <= maxEntries
    ensures forall y <- entries :: y in items && y.ino > startAfter
    ensures forall y <- items | y.ino > startAfter && y !in entries ::
      |entries| == maxEntries && forall e <- entries :: e.ino < y.ino
    ensures end <==> forall y <- items | y.ino > startAfter :: y in entries
  {
    var sorted := SortByIno(items);
    var at := 0;
    while at < |sorted| && sorted[at].ino <= startAfter
      invariant at <= |sorted| && forall j: nat :: j < at ==> sorted[j].ino <= startAfter
    {
      at := at + 1;
    }
    ghost var from := at;
    entries := [];
    while |entries| < maxEntries
      invariant from <= at <= |sorted| && entries == sorted[from..at] && |entries| <= maxEntries
      decreases |sorted| - at
    {
      if at == |sorted| {
        break;
      }
      entries := entries + [sorted[at]];
      at := at + 1;
    }
    end := at == |sorted|;
    PageExact(sorted, startAfter, from, at);
    PageAscending(sorted, from, at);
    hide Ascending, DistinctInos;
    assert !end ==> sorted[at] in items;
  }

  lemma PageAscending(sorted: seq<Item>, from: nat, at: nat)
    requires Ascending(sorted) && from <= at <= |sorted|
    ensures Ascending(sorted[from..at]) && forall y <- sorted[from..at] :: y in sorted
  {
  }

  lemma PageExact(sorted: seq<Item>, startAfter: nat, from: nat, at: nat)
    requires Ascending(sorted) && from <= at <= |sorted|
    requires forall j: nat :: j < from ==> sorted[j].ino <= startAfter
    requires from < |sorted| ==> sorted[from].ino > startAfter
    ensures forall y <- sorted[from..at] :: y.ino > startAfter
    ensures forall y <- sorted | y.ino > startAfter && y !in sorted[from..at] ::
      at < |sorted| && forall e <- sorted[from..at] :: e.ino < y.ino
    ensures at < |sorted| ==> sorted[at].ino > startAfter && sorted[at] !in sorted[from..at]
  {
    forall j: nat | from <= j < at
      ensures sorted[j] in sorted[from..at]
    {
      assert sorted[from..at][j - from] == sorted[j];
    }
    forall y <- sorted | y.ino > startAfter && y !in sorted[from..at]
      ensures at < |sorted| && forall e <- sorted[from..at] :: e.ino < y.ino
    {
      var j: nat :| j < |sorted| && sorted[j] == y;
    }
  }

  /** An empty page that is not the last happens only for a page size of zero. */
  lemma ProgressExactly(items: seq<Item>, startAfter: nat, maxEntries: nat, entries: seq<Item>, end: bool)
    requires |entries| <= maxEntries
    requires forall y <- items | y.ino > startAfter && y !in entries ::
      |entries| == maxEntries && forall e <- entries :: e.ino < y.ino
    requires end <==> forall y <- items | y.ino > startAfter :: y in entries
    ensures entries == [] && !end <==> maxEntries == 0 && exists y <- items :: y.ino > startAfter
  {
  }

  // ------------------------------------------------------------------ the numbers of a listing

  lemma JoinApart(dir: Path, a: string, b: string)
    requires '/' !in a && '/' !in b && a != b && a != "" && b != ""
    ensures JoinRel(dir, a) != JoinRel(dir, b)
  {
    SplitJoin(dir, a);
    SplitJoin(dir, b);
    hide JoinRel, SplitParent;
  }

  predicate Names(names: seq<string>) {
    && (forall n <- names :: n != "" && '/' !in n)
    && (forall i: nat, j: nat :: i < j < |names| ==> names[i] != names[j])
  }

  function Looks(dir: Path, names: seq<string>): (ops: seq<InodeOp>)
    ensures |ops| == |names|
  {
    seq(|names|, i requires 0 <= i < |names| => Look(JoinRel(dir, names[i])))
  }

  /** Looks up, or hands out, the number of every name: known paths keep theirs and no two names
      share one. */
  method BuildListing(inodes: Inodes, dir: Path, names: seq<string>) returns (items: seq<Item>)
    requires inodes.Valid() && Names(names)
    modifies inodes
    ensures inodes.Valid() && DistinctInos(items) && |items| == |names|
    ensures inodes.View() == AfterOps(old(inodes.View()), Looks(dir, names))
    ensures forall p <- old(inodes.byPath) :: p in inodes.byPath && inodes.byPath[p] == old(inodes.byPath)[p]
    ensures forall y <- items ::
      y.name in names && JoinRel(dir, y.name) in inodes.byPath && y.ino == inodes.byPath[JoinRel(dir, y.name)] &&
      y.ino > 0
    ensures forall n <- names :: JoinRel(dir, n) in inodes.byPath && Item(inodes.byPath[JoinRel(dir, n)], n) in items
  {
    hide Pruned, Relabel, AfterOps, JoinRel;
    items := [];
    AfterNone(inodes.View(), Looks(dir, names));
    for k := 0 to |names|
      invariant inodes.Valid() && DistinctInos(items) && |items| == k
      invariant inodes.View() == AfterOps(old(inodes.View()), Looks(dir, names)[..k])
      invariant forall p <- old(inodes.byPath) :: p in inodes.byPath && inodes.byPath[p] == old(inodes.byPath)[p]
      invariant forall i: nat :: i < k ==>
        && items[i].name == names[i] && JoinRel(dir, names[i]) in inodes.byPath
        && items[i].ino == inodes.byPath[JoinRel(dir, names[i])] && items[i].ino > 0
    {
      forall i: nat | i < k
        ensures JoinRel(dir, names[i]) != JoinRel(dir, names[k])
      {
        JoinApart(dir, names[i], names[k]);
      }
      AfterNext(old(inodes.View()), Looks(dir, names), k);
      var ino := inodes.Ino(JoinRel(dir, names[k]));
      items := items + [Item(ino, names[k])];
    }
    forall n <- names
      ensures Item(inodes.byPath[JoinRel(dir, n)], n) in items
    {
      var i: nat :| i < |names| && names[i] == n;
      assert items[i] in items;
    }
  }

  // ------------------------------------------------------------------ a whole enumeration

  /** What happens before a page is read: lookups, removals and renames anywhere in the tree, and
      then the listing. */
  datatype Round = Round(ops: seq<InodeOp>, names: seq<string>)

  /** Does this operation leave the number of p alone? */
  predicate Spares(op: InodeOp, p: Path) {
    match op
    case Look(_) => true
    case Forget(q) => !Under(q, p)
    case Relabelled(from, to) => !Under(from, p) && !Under(to, p)
  }

  predicate SparesAll(ops: seq<InodeOp>, p: Path) {
    forall op <- ops :: Spares(op, p)
  }

  /** Is the entry listed for every page and never removed or renamed? */
  predicate Throughout(rounds: seq<Round>, dir: Path, n: string) {
    forall r <- rounds :: n in r.names && SparesAll(r.ops, JoinRel(dir, n))
  }

  /** Is the name listed for some page? */
  predicate Listed(rounds: seq<Round>, n: string) {
    exists r <- rounds :: n in r.names
  }

  /** A tracked entry has been returned under its number, or comes after the cookie. */
  predicate Tracked(byPath: map<Path, nat>, dir: Path, n: string, all: seq<Item>, cookie: nat) {
    && JoinRel(dir, n) in byPath
    && (Item(byPath[JoinRel(dir, n)], n) in all || cookie < byPath[JoinRel(dir, n)])
    && Only(all, n, byPath[JoinRel(dir, n)])
  }

  /** The name has been returned under no other number. */
  predicate Only(all: seq<Item>, n: string, ino: nat) {
    forall y <- all :: y.name == n ==> y.ino == ino
  }

  /** Whatever other threads do to the numbers, those of paths that are spared stay. */
  lemma {:induction false} SparedStay(s: Numbers, ops: seq<InodeOp>, p: Path)
    requires SparesAll(ops, p) && p in s.byPath
    ensures p in AfterOps(s, ops).byPath && AfterOps(s, ops).byPath[p] == s.byPath[p]
  {
    hide Under;
    if ops != [] {
      SparedStay(s, ops[..|ops| - 1], p);
      assert Spares(ops[|ops| - 1], p);
    }
  }

  /** What happens in between, the listing and the page of one round. */
  method NextPage(inodes: Inodes, dir: Path, round: Round, cookie: nat, maxEntries: nat)
      returns (entries: seq<Item>, end: bool)
    requires inodes.Valid() && maxEntries > 0
    requires Names(round.names)
    modifies inodes
    ensures inodes.Valid() && Ascending(entries) && forall e <- entries :: e.ino > cookie
    ensures inodes.View() == AfterOps(AfterOps(old(inodes.View()), round.ops), Looks(dir, round.names))
    ensures !end ==> |entries| == maxEntries
    ensures forall e <- entries :: e.name in round.names
    ensures forall e <- entries :: JoinRel(dir, e.name) in inodes.byPath && e.ino == inodes.byPath[JoinRel(dir, e.name)]
    ensures forall n <- round.names :: PageHas(inodes.byPath, dir, n, entries, cookie, end)
    ensures forall n <- round.names | SparesAll(round.ops, JoinRel(dir, n)) && JoinRel(dir, n) in old(inodes.byPath) ::
      JoinRel(dir, n) in inodes.byPath && inodes.byPath[JoinRel(dir, n)] == old(inodes.byPath)[JoinRel(dir, n)]
  {
    hide Inverse;
    var _ := RunInodes(inodes, round.ops);
    forall p <- old(inodes.byPath) | SparesAll(round.ops, p)
      ensures p in inodes.byPath && inodes.byPath[p] == old(inodes.byPath)[p]
    {
      SparedStay(old(inodes.View()), round.ops, p);
    }
    var items := BuildListing(inodes, dir, round.names);
    entries, end := ReadDir(items, cookie, maxEntries);
    forall n <- round.names
      ensures PageHas(inodes.byPath, dir, n, entries, cookie, end)
    {
      assert Item(inodes.byPath[JoinRel(dir, n)], n) in items;
    }
  }

  /** The page has the listed name if its number comes after the cookie, or ends before it. */
  predicate PageHas(byPath: map<Path, nat>, dir: Path, n: string, entries: seq<Item>, cookie: nat, end: bool) {
    JoinRel(dir, n) in byPath &&
    var y := Item(byPath[JoinRel(dir, n)], n);
    y.ino > 0 && (y.ino > cookie && y !in entries ==> entries != [] && entries[|entries| - 1].ino < y.ino && !end)
  }

  lemma PageTracks(byPath: map<Path, nat>, dir: Path, n: string, before: seq<Item>, was: nat, entries: seq<Item>,
      cookie: nat, end: bool)
    requires PageHas(byPath, dir, n, entries, was, end)
    requires (was == 0 && before == []) || Tracked(byPath, dir, n, before, was)
    requires forall e <- entries :: JoinRel(dir, e.name) in byPath && e.ino == byPath[JoinRel(dir, e.name)]
    requires cookie == if entries == [] then was else entries[|entries| - 1].ino
    ensures Tracked(byPath, dir, n, before + entries, cookie)
    ensures end ==>
      Item(byPath[JoinRel(dir, n)], n) in before + entries && Only(before + entries, n, byPath[JoinRel(dir, n)])
    ensures JoinRel(dir, n) in byPath
  {
  }

  lemma StillTracked(was: map<Path, nat>, byPath: map<Path, nat>, dir: Path, n: string, all: seq<Item>, cookie: nat)
    requires Tracked(was, dir, n, all, cookie)
    requires JoinRel(dir, n) in was ==> JoinRel(dir, n) in byPath && byPath[JoinRel(dir, n)] == was[JoinRel(dir, n)]
    ensures Tracked(byPath, dir, n, all, cookie)
  {
  }

  lemma NothingAscends()
    ensures Ascending([])
  {
  }

  lemma AppendAscends(all: seq<Item>, entries: seq<Item>, cookie: nat)
    requires Ascending(all) && Ascending(entries) && (forall y <- all :: y.ino <= cookie) && forall e <- entries ::
      e.ino > cookie
    ensures Ascending(all + entries)
    ensures forall y <- all + entries :: y.ino <= if entries == [] then cookie else entries[|entries| - 1].ino
  {
    forall y <- all + entries
      ensures y.ino <= if entries == [] then cookie else entries[|entries| - 1].ino
    {
      if y !in all {
        var i: nat :| i < |entries| && entries[i] == y;
      } else if entries != [] {
        assert entries[|entries| - 1] in entries;
      }
    }
  }

  /** A client that takes the last entry's number as the next cookie.  Whatever is created, removed
      or renamed between the pages, here or elsewhere: cookies strictly increase, so no number is returned twice; every
      page but the last brings something new; only what was listed is returned; and once a page is the last,
        every entry present
      throughout has been returned, exactly once. */
  method Enumerate(inodes: Inodes, dir: Path, rounds: seq<Round>, maxEntries: nat)
      returns (all: seq<Item>, finished: bool)
    requires inodes.Valid() && maxEntries > 0
    requires forall r <- rounds :: Names(r.names)
    modifies inodes
    ensures inodes.Valid() && Ascending(all)
    ensures !finished ==> |rounds| <= |all|
    ensures forall y <- all :: Listed(rounds, y.name)
    ensures finished ==> forall n | Throughout(rounds, dir, n) ::
      JoinRel(dir, n) in inodes.byPath && Item(inodes.byPath[JoinRel(dir, n)], n) in all &&
      Only(all, n, inodes.byPath[JoinRel(dir, n)])
  {
    hide Only, Names, Inverse, Ascending, PageHas, Tracked, JoinRel;
    all, finished := [], false;
    assert Ascending(all) by {
      NothingAscends();
    }
    var cookie := 0;
    for k := 0 to |rounds|
      invariant inodes.Valid()
      invariant Ascending(all) && forall y <- all :: y.ino <= cookie
      invariant forall n | Throughout(rounds, dir, n) :: Tracked(inodes.byPath, dir, n, all, cookie) || k == 0
      invariant k == 0 ==> cookie == 0 && all == []
      invariant k <= |all|
      invariant forall y <- all :: Listed(rounds, y.name)
    {
      ghost var known, before, was := inodes.byPath, all, cookie;
      var entries, end := NextPage(inodes, dir, rounds[k], cookie, maxEntries);
      AppendAscends(all, entries, cookie);
      assert forall e <- entries :: Listed(rounds, e.name);
      all := all + entries;
      if entries != [] {
        cookie := entries[|entries| - 1].ino;
      }
      forall n | Throughout(rounds, dir, n)
        ensures Tracked(inodes.byPath, dir, n, all, cookie) && JoinRel(dir, n) in inodes.byPath
        ensures end ==> Item(inodes.byPath[JoinRel(dir, n)], n) in all && Only(all, n, inodes.byPath[JoinRel(dir, n)])
      {
        assert n in rounds[k].names && SparesAll(rounds[k].ops, JoinRel(dir, n));
        if k > 0 {
          StillTracked(known, inodes.byPath, dir, n, before, was);
        }
        PageTracks(inodes.byPath, dir, n, before, was, entries, cookie, end);
      }
      if end {
        return all, true;
      }
    }
  }
}
