/** The four-level walk, and the shape that keeps one address space's walks inside its own frames.

    `role` records which virtual prefix each frame of a space serves: the root serves the empty
    path, a table reached through index `i` of a table serving `p` serves `p + [i]`, and a frame
    serving four indices is a mapped page. Since `role` is a function, no frame is both a table and
    a page, and no two places in the tree share one. */
module PageTables {
  import opened Options
  import opened PhysicalMemory

  type Role = map<Frame, seq<nat>>

  predicate IsIndex(path: seq<nat>, i: nat) {
    i < if path == [] then 256 else 512
  }

  /** Indices of a page in the lower half: the first selects one of the lower 256 entries. */
  predicate LowerPath(path: seq<nat>) {
    |path| <= 4 && forall k: nat | k < |path| :: path[k] < (if k == 0 then 256 else 512)
  }

  /** The last entry on the walk from table `f` along `path`, if every entry is there. */
  function Walk(mem: Memory, f: Frame, path: seq<nat>): Option<Pte>
    requires path != []
    decreases |path|
  {
    if f !in mem || |mem[f]| != PAGE || path[0] >= 512 then None
    else
      match EntryAt(mem[f], path[0])
      case None => None
      case Some(e) =>
        if !e.flags.present then None
        else if |path| == 1 then Some(e)
        else if e.flags.huge then None
        else Walk(mem, e.frame, path[1..])
  }

  /** The frame the walk leads to. */
  function Descend(mem: Memory, f: Frame, path: seq<nat>): Option<Frame> {
    if path == [] then Some(f)
    else if Walk(mem, f, path).None? then None
    else Some(Walk(mem, f, path).value.frame)
  }

  predicate ChildOk(role: Role, f: Frame, i: nat, e: Pte)
    requires f in role
  {
    && e.flags.present
    && (|role[f]| < 3 ==> !e.flags.huge)
    && e.frame in role && role[e.frame] == role[f] + [i]
  }

  ghost predicate Tree(mem: Memory, root: Frame, role: Role) {
    && MemoryOk(mem)
    && root in role && role[root] == []
    && (forall f | f in role :: f in mem && |role[f]| <= 4)
    && (forall f, i: nat | f in role && |role[f]| < 4 && IsIndex(role[f], i) && EntryAt(mem[f], i).Some? ::
          ChildOk(role, f, i, EntryAt(mem[f], i).value))
  }

  // --- Walks stay inside the tree -------------------------------------------------------------

  lemma {:induction false} WalkStays(mem: Memory, root: Frame, role: Role, f: Frame, path: seq<nat>)
    requires Tree(mem, root, role) && f in role && path != [] && LowerPath(role[f] + path)
    ensures Walk(mem, f, path).Some? ==>
              Walk(mem, f, path).value.frame in role && role[Walk(mem, f, path).value.frame] == role[f] + path
    decreases |path|
  {
    hide EntryAt;
    StepIndex(role[f], path);
    var e := EntryAt(mem[f], path[0]);
    if e.Some? {
      assert ChildOk(role, f, path[0], e.value);
      assert role[f] + path == role[f] + [path[0]] + path[1..];
      if |path| > 1 {
        WalkStays(mem, root, role, e.value.frame, path[1..]);
      }
    }
  }

  lemma StepIndex(done: seq<nat>, path: seq<nat>)
    requires path != [] && LowerPath(done + path)
    ensures |done| < 4 && IsIndex(done, path[0]) && path[0] < 512
  {
    assert path[0] == (done + path)[|done|];
  }

  lemma PathParts(done: seq<nat>, a: seq<nat>, b: seq<nat>)
    requires a != [] && b != [] && LowerPath(done + a + b)
    ensures (a + b)[0] == a[0] && (a + b)[1..] == a[1..] + b && |a + b| > 1 && |done| < 3
    ensures done + a + b == done + (a + b) && done + [a[0]] + a[1..] + b == done + a + b
  {
    assert |done + a + b| <= 4;
    hide LowerPath;
    Associates(done, a, b);
    Associates(done, [a[0]], a[1..]);
    assert a == [a[0]] + a[1..];
    Associates([a[0]], a[1..], b);
  }

  lemma Associates(a: seq<nat>, b: seq<nat>, c: seq<nat>)
    ensures a + b + c == a + (b + c)
  {
  }

  /** A walk can be resumed from wherever a prefix of it leads. */
  lemma {:induction false} WalkVia(mem: Memory, root: Frame, role: Role, g: Frame, a: seq<nat>, b: seq<nat>)
    requires Tree(mem, root, role) && g in role && b != [] && LowerPath(role[g] + a + b)
    ensures Descend(mem, g, a).Some? ==> Walk(mem, g, a + b) == Walk(mem, Descend(mem, g, a).value, b)
    ensures Descend(mem, g, a).None? ==> Walk(mem, g, a + b).None?
    decreases |a|
  {
    hide EntryAt;
    if a == [] {
      assert a + b == b;
    } else {
      PathParts(role[g], a, b);
      StepIndex(role[g], a + b);
      hide LowerPath;
      var e := EntryAt(mem[g], a[0]);
      if e.Some? {
        assert ChildOk(role, g, a[0], e.value);
        WalkVia(mem, root, role, e.value.frame, a[1..], b);
      }
    }
  }

  // --- Changes that leave a space's walks alone -------------------------------------------------

  /** A space is unaffected by anything that leaves its tables and pages alone. */
  ghost predicate SameTables(mem: Memory, mem': Memory, role: Role) {
    && MemoryOk(mem')
    && (forall f | f in role :: f in mem && f in mem')
    && (forall f | f in role && |role[f]| < 4 :: mem'[f] == mem[f])
  }

  lemma TablesKeepTree(mem: Memory, mem': Memory, root: Frame, role: Role)
    requires Tree(mem, root, role) && SameTables(mem, mem', role)
    ensures Tree(mem', root, role)
  {
    hide EntryAt, ChildOk;
    forall f, i: nat | f in role && |role[f]| < 4 && IsIndex(role[f], i) && EntryAt(mem'[f], i).Some?
      ensures ChildOk(role, f, i, EntryAt(mem'[f], i).value)
    {
      assert mem'[f] == mem[f];
    }
  }

  lemma {:induction false} TablesKeepWalks(mem: Memory, mem': Memory, root: Frame, role: Role, f: Frame, path: seq<nat>)
    requires Tree(mem, root, role) && SameTables(mem, mem', role)
    requires f in role && path != [] && LowerPath(role[f] + path)
    ensures Walk(mem', f, path) == Walk(mem, f, path)
    decreases |path|
  {
    hide EntryAt;
    StepIndex(role[f], path);
    assert mem'[f] == mem[f];
    var e := EntryAt(mem[f], path[0]);
    if e.Some? && |path| > 1 {
      assert ChildOk(role, f, path[0], e.value);
      assert role[f] + path == role[f] + [path[0]] + path[1..];
      TablesKeepWalks(mem, mem', root, role, e.value.frame, path[1..]);
    }
  }

  // --- Setting one entry --------------------------------------------------------------------------

  /** `mem'` is `mem` with entry `i` of table `f` set to `e`. */
  predicate EntrySet(mem: Memory, mem': Memory, f: Frame, i: nat, e: Pte) {
    && f in mem && |mem[f]| == PAGE && i < 512
    && mem' == mem[f := SetEntry(mem[f], i, e)]
  }

  lemma EntrySetReads(mem: Memory, mem': Memory, f: Frame, i: nat, e: Pte, g: Frame, j: nat)
    requires MemoryOk(mem) && EntrySet(mem, mem', f, i, e) && e.frame < MAX_FRAMES && e.flags.present
    requires g in mem && j < 512
    ensures EntryAt(mem'[g], j) == if g == f && j == i then Some(e) else EntryAt(mem[g], j)
  {
    hide EntryAt, SetEntry;
    if g == f {
      if j == i {
        SetThenGet(mem[f], i, e);
      } else {
        SetKeepsOthers(mem[f], i, e, j);
      }
    }
  }

  /** Setting an entry to a proper child keeps the tree. */
  lemma EntryKeepsTree(mem: Memory, mem': Memory, root: Frame, role: Role, f: Frame, i: nat, e: Pte)
    requires Tree(mem, root, role) && EntrySet(mem, mem', f, i, e)
    requires f in role && |role[f]| < 4 && IsIndex(role[f], i) && ChildOk(role, f, i, e)
    ensures Tree(mem', root, role)
  {
    hide EntryAt, SetEntry;
    forall g, j: nat | g in role && |role[g]| < 4 && IsIndex(role[g], j) && EntryAt(mem'[g], j).Some?
      ensures ChildOk(role, g, j, EntryAt(mem'[g], j).value)
    {
      EntrySetReads(mem, mem', f, i, e, g, j);
    }
  }

  /** Only walks that go through the entry can change. */
  lemma {:induction false} EntryKeepsOtherWalks(
    mem: Memory, mem': Memory, root: Frame, role: Role, f: Frame, i: nat, e: Pte, g: Frame, path: seq<nat>)
    requires Tree(mem, root, role) && EntrySet(mem, mem', f, i, e) && e.frame < MAX_FRAMES && e.flags.present
    requires f in role && g in role && path != [] && LowerPath(role[g] + path)
    requires !(role[f] + [i] <= role[g] + path) || |role[g]| > |role[f]|
    ensures Walk(mem', g, path) == Walk(mem, g, path)
    decreases |path|
  {
    hide EntryAt, SetEntry;
    StepIndex(role[g], path);
    EntrySetReads(mem, mem', f, i, e, g, path[0]);
    assert role[g] + path == role[g] + [path[0]] + path[1..];
    var entry := EntryAt(mem[g], path[0]);
    if entry.Some? && |path| > 1 {
      assert ChildOk(role, g, path[0], entry.value);
      EntryKeepsOtherWalks(mem, mem', root, role, f, i, e, entry.value.frame, path[1..]);
    }
  }

  /** Changing an entry without changing where it leads changes no walk but the one ending there. */
  lemma {:induction false} SameTargetKeepsWalks(
    mem: Memory, mem': Memory, root: Frame, role: Role, f: Frame, i: nat, e: Pte, g: Frame, path: seq<nat>)
    requires Tree(mem, root, role) && EntrySet(mem, mem', f, i, e)
    requires f in role && |role[f]| < 4 && IsIndex(role[f], i) && ChildOk(role, f, i, e)
    requires EntryAt(mem[f], i).Some? && EntryAt(mem[f], i).value.frame == e.frame
    requires g in role && path != [] && LowerPath(role[g] + path) && role[g] + path != role[f] + [i]
    ensures Walk(mem', g, path) == Walk(mem, g, path)
    decreases |path|
  {
    hide EntryAt, SetEntry;
    StepIndex(role[g], path);
    EntrySetReads(mem, mem', f, i, e, g, path[0]);
    var entry := EntryAt(mem[g], path[0]);
    assert role[g] + path == role[g] + [path[0]] + path[1..];
    if |path| == 1 {
      assert path == [path[0]];
    } else if entry.Some? {
      assert ChildOk(role, g, path[0], entry.value);
      SameTargetKeepsWalks(mem, mem', root, role, f, i, e, entry.value.frame, path[1..]);
    }
  }

  /** Once set, the entry is what the walk along its own path ends in. */
  lemma WalkToEntry(mem: Memory, root: Frame, role: Role, f: Frame, i: nat)
    requires Tree(mem, root, role) && f in role && Descend(mem, root, role[f]) == Some(f)
    requires LowerPath(role[f] + [i])
    ensures i < 512 && f in mem && Walk(mem, root, role[f] + [i]) == EntryAt(mem[f], i)
  {
    hide EntryAt;
    StepIndex(role[f], [i]);
    assert role[root] + role[f] + [i] == role[f] + [i];
    WalkVia(mem, root, role, root, role[f], [i]);
    if EntryAt(mem[f], i).Some? {
      assert ChildOk(role, f, i, EntryAt(mem[f], i).value);
    }
  }

  /** Adding a zeroed frame to the tree, before anything points at it. */
  lemma ZeroedFrameJoins(mem: Memory, root: Frame, role: Role, g: Frame, path: seq<nat>)
    requires Tree(mem, root, role) && g !in role && g in mem && 0 < |path| <= 4
    requires |path| < 4 ==> mem[g] == ZeroFrame()
    ensures Tree(mem, root, role[g := path])
  {
    hide EntryAt;
    var role' := role[g := path];
    forall f, i: nat | f in role' && |role'[f]| < 4 && IsIndex(role'[f], i) && EntryAt(mem[f], i).Some?
      ensures ChildOk(role', f, i, EntryAt(mem[f], i).value)
    {
      if f == g {
        ZeroHasNoEntries(i);
      } else {
        assert ChildOk(role, f, i, EntryAt(mem[f], i).value);
      }
    }
  }
}
