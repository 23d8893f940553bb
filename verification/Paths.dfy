/** Slash-separated paths, the files at them, and the subtree relation. */
module Paths {
  import opened Bytes

  type Path = string

  /** What is at a path; a missing file is empty. */
  function Content(files: map<Path, File>, p: Path): File {
    if p in files then files[p] else []
  }

  /** Is p the path `root` or a path beneath it? */
  predicate Under(root: Path, p: Path) {
    p == root || (|root| < |p| && p[..|root|] == root && p[|root|] == '/')
  }

  lemma UnderTransitive(a: Path, b: Path, c: Path)
    requires Under(a, b) && Under(b, c)
    ensures Under(a, c)
  {
    if a != b && b != c {
      assert c[..|a|] == c[..|b|][..|a|];
      assert c[|a|] == c[..|b|][|a|];
    }
  }

  /** The ancestors of a path form a chain. */
  lemma UnderChain(a: Path, b: Path, c: Path)
    requires Under(a, c) && Under(b, c) && |a| <= |b|
    ensures Under(a, b)
  {
    if a != b {
      assert a == c[..|a|];
      if b != c {
        assert b == c[..|b|];
        assert b[..|a|] == c[..|a|];
        assert |a| < |b|;
        assert b[|a|] == c[|a|];
      }
    }
  }

  /** The names of a path. */
  function Parts(p: Path): (parts: seq<string>)
    ensures parts != []
  {
    if p == "" then
      [""]
    else
      var rest := Parts(p[1..]);
      if p[0] == '/' then [""] + rest else [[p[0]] + rest[0]] + rest[1..]
  }

  /** Names joined by slashes. */
  function Joined(names: seq<string>): Path
    requires names != []
  {
    if |names| == 1 then names[0] else names[0] + "/" + Joined(names[1..])
  }

  /** The names of a path, joined, are the path, and none of them holds a slash. */
  lemma {:induction false} PartsJoin(p: Path)
    ensures Joined(Parts(p)) == p && forall name <- Parts(p) :: '/' !in name
  {
    if p != "" {
      PartsJoin(p[1..]);
      var rest, all := Parts(p[1..]), Parts(p);
      if p[0] == '/' {
        assert all[1..] == rest;
      } else {
        assert all[1..] == rest[1..];
      }
    }
  }

  /** They are the only such names. */
  lemma {:induction false} PartsUnique(names: seq<string>)
    requires names != [] && forall name <- names :: '/' !in name
    ensures Parts(Joined(names)) == names
    decreases |names|, |names[0]|
  {
    var p := Joined(names);
    assert names[0] in names;
    if names[0] != "" {
      var shorter := [names[0][1..]] + names[1..];
      assert p[1..] == Joined(shorter) by {
        assert shorter[1..] == names[1..];
      }
      assert p[0] == names[0][0] && names[0] == [p[0]] + names[0][1..];
      forall name <- shorter
        ensures '/' !in name
      {
        assert name in names || name == names[0][1..];
      }
      PartsUnique(shorter);
    } else if |names| > 1 {
      assert p[0] == '/' && p[1..] == Joined(names[1..]);
      PartsUnique(names[1..]);
      assert names == [""] + names[1..];
    } else {
      assert names == [""];
    }
  }

  /** What is under a path, character by character. */
  lemma UnderExactly(root: Path, p: Path)
    ensures Under(root, p) <==> p == root || root + "/" <= p
  {
    if root + "/" <= p {
      assert p[..|root| + 1] == root + "/";
      assert p[..|root|] == p[..|root| + 1][..|root|];
    }
  }

  /** A path is ignored exactly if one of its names is a pattern, or extends one that ends in a star. */
  lemma IgnoredExactly(ignore: seq<string>, names: seq<string>)
    requires names != [] && forall name <- names :: '/' !in name
    ensures Ignored(ignore, Joined(names)) <==>
      exists name <- names, pattern <- ignore :: pattern == name || exists prefix ::
        pattern == prefix + "*" && prefix <= name
  {
    PartsUnique(names);
    forall name <- names, pattern <- ignore
      ensures (exists prefix :: pattern == prefix + "*" && prefix <= name)
        <==> pattern != "" && pattern[|pattern| - 1] == '*' && pattern[..|pattern| - 1] <= name
    {
      if pattern != "" && pattern[|pattern| - 1] == '*' && pattern[..|pattern| - 1] <= name {
        assert pattern == pattern[..|pattern| - 1] + "*";
      }
    }
  }

  /** Is a name on the ignore list, literally or by a pattern that ends in a star? */
  predicate IgnoresPart(ignore: seq<string>, part: string) {
    exists pattern <- ignore ::
      pattern == part || (pattern != "" && pattern[|pattern| - 1] == '*' && pattern[..|pattern| - 1] <= part)
  }

  predicate Ignored(ignore: seq<string>, p: Path) {
    exists part <- Parts(p) :: IgnoresPart(ignore, part)
  }
}
