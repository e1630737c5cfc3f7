/** The path algebra of the archive namespace (abi/src/archive.rs). */
module Paths {
  import opened Options
  import opened Bytes

  type Path = seq<Byte>

  const SLASH: Byte := 47
  const DOT: Byte := 46
  const MAX_PATH: nat := 120
  const ROOT: Path := [SLASH]

  /** `rposition`: one past the last slash, or 0 if there is none. */
  function AfterLastSlash(path: Path): (r: nat)
    ensures r <= |path|
    ensures r > 0 ==> path[r - 1] == SLASH
    ensures SLASH !in path[r..]
  {
    if path == [] then 0
    else if path[|path| - 1] == SLASH then |path|
    else
      var r := AfterLastSlash(path[..|path| - 1]);
      assert path[r..] == path[..|path| - 1][r..] + [path[|path| - 1]];
      r
  }

  /** `split` on slashes, the last component peeled off first. */
  function Components(path: Path): (cs: seq<Path>)
    ensures |cs| >= 1
    decreases |path|
  {
    var r := AfterLastSlash(path);
    if r == 0 then [path] else Components(path[..r - 1]) + [path[r..]]
  }

  predicate GoodComponent(c: Path) {
    c != [] && c != [DOT] && c != [DOT, DOT]
  }

  predicate PathIsValid(path: Path) {
    && 0 < |path| <= MAX_PATH
    && path[0] == SLASH
    && 0 !in path
    && (path == ROOT || forall i | 0 < i < |Components(path)| :: GoodComponent(Components(path)[i]))
  }

  function ParentOf(path: Path): Option<Path> {
    if path == ROOT || path == [] then None
    else
      var r := AfterLastSlash(path);
      if r == 0 then None
      else if r == 1 then Some(ROOT)
      else Some(path[..r - 1])
  }

  function Basename(path: Path): Path {
    path[AfterLastSlash(path)..]
  }

  /** The path of the entry called `name` in directory `dir`. */
  function Join(dir: Path, name: Path): Path {
    (if dir == ROOT then ROOT else dir + [SLASH]) + name
  }

  lemma LastSlashIs(path: Path, r: nat)
    requires r <= |path| && (r > 0 ==> path[r - 1] == SLASH) && SLASH !in path[r..]
    ensures AfterLastSlash(path) == r
  {
    var q := AfterLastSlash(path);
    forall i | q <= i < |path| ensures path[i] != SLASH {
      assert path[i] == path[q..][i - q];
    }
    forall i | r <= i < |path| ensures path[i] != SLASH {
      assert path[i] == path[r..][i - r];
    }
  }

  lemma RootComponents()
    ensures Components(ROOT) == [[], []]
  {
    LastSlashIs(ROOT, 1);
    assert ROOT[..0] == [] && ROOT[1..] == [];
  }

  /** Every valid path but the root is its parent joined with its basename, and both parts are
      well formed. */
  lemma ParentOfValid(path: Path)
    requires PathIsValid(path) && path != ROOT
    ensures ParentOf(path).Some?
    ensures PathIsValid(ParentOf(path).value) && |ParentOf(path).value| < |path|
    ensures path == Join(ParentOf(path).value, Basename(path))
    ensures GoodComponent(Basename(path)) && SLASH !in Basename(path)
  {
    var r := AfterLastSlash(path);
    assert path[0..] == path;
    RootComponents();
    var cs := Components(path);
    assert cs == Components(path[..r - 1]) + [path[r..]];
    assert cs[|cs| - 1] == path[r..];
    if r > 1 {
      var parent := path[..r - 1];
      assert parent[0] == SLASH;
      var ps := Components(parent);
      forall i | 0 < i < |ps| ensures GoodComponent(ps[i]) {
        assert cs[i] == ps[i];
      }
      assert |ps| > 1 ==> ps[1] != [];
      assert parent != ROOT;
      assert path == parent + [SLASH] + path[r..];
    } else {
      assert path == ROOT + path[r..];
    }
  }

  /** Joining is undone by taking the parent. */
  lemma ParentOfJoin(dir: Path, name: Path)
    requires dir != [] && name != [] && SLASH !in name
    ensures ParentOf(Join(dir, name)) == Some(dir) && Basename(Join(dir, name)) == name
  {
    var p := Join(dir, name);
    var r := if dir == ROOT then 1 else |dir| + 1;
    assert p[r..] == name;
    LastSlashIs(p, r);
    if dir != ROOT {
      assert p[..r - 1] == dir;
    }
  }

  // --- The grammar of valid paths ---------------------------------------------------------------------

  /** A name: not empty, ".", or "..", and without slashes and NULs. */
  predicate IsName(n: seq<Byte>) {
    n != [] && n != [46] && n != [46, 46] && 47 !in n && 0 !in n
  }

  /** Each name after a slash. */
  function Spelled(names: seq<seq<Byte>>): Path {
    if names == [] then [] else Spelled(names[..|names| - 1]) + [47] + names[|names| - 1]
  }

  lemma {:induction false} SpelledIsValid(names: seq<seq<Byte>>)
    requires names != [] && (forall i | 0 <= i < |names| :: IsName(names[i])) && |Spelled(names)| <= 120
    ensures PathIsValid(Spelled(names)) && Spelled(names) != ROOT
    decreases |names|
  {
    hide Components, AfterLastSlash;
    var before, name := names[..|names| - 1], names[|names| - 1];
    ComponentsGrow(Spelled(before), name);
    if before == [] {
      NoComponents();
    } else {
      SpelledIsValid(before);
    }
  }

  lemma NoComponents()
    ensures Components([]) == [[]]
  {
    LastSlashIs([], 0);
  }

  /** A slash and a name add one component. */
  lemma ComponentsGrow(p: Path, name: seq<Byte>)
    requires SLASH !in name
    ensures Components(p + [SLASH] + name) == Components(p) + [name]
  {
    var q, r := p + [SLASH] + name, |p| + 1;
    assert q[r..] == name && q[..r - 1] == p;
    LastSlashIs(q, r);
  }

  lemma {:induction false} ValidIsSpelled(path: Path) returns (names: seq<seq<Byte>>)
    requires PathIsValid(path) && path != ROOT
    ensures names != [] && (forall i | 0 <= i < |names| :: IsName(names[i])) && path == Spelled(names)
    decreases |path|
  {
    ParentOfValid(path);
    var parent, name := ParentOf(path).value, Basename(path);
    if parent == ROOT {
      names := [name];
      assert Spelled(names[..0]) == [];
      assert path == [47] + name;
    } else {
      var before := ValidIsSpelled(parent);
      names := before + [name];
      assert names[..|names| - 1] == before;
    }
  }

  /** A path is valid exactly when it is "/", or names each after a slash, at most 120 bytes in all. */
  lemma ValidIsExact(path: Path)
    ensures PathIsValid(path) <==>
            || path == [47]
            || exists names: seq<seq<Byte>> ::
                 && names != [] && (forall i | 0 <= i < |names| :: IsName(names[i]))
                 && path == Spelled(names) && |path| <= 120
  {
    RootComponents();
    if PathIsValid(path) && path != ROOT {
      var names := ValidIsSpelled(path);
    }
    if names: seq<seq<Byte>> :| names != [] && (forall i | 0 <= i < |names| :: IsName(names[i])) && path == Spelled(names) && |path| <= 120 {
      SpelledIsValid(names);
    }
  }
}
