/** Rights along a walk: a page can be reached only with the rights that every entry on the way to it
    grants (section 4.6 of the Intel SDM, Volume 3A). */
module Permissions {
  import opened Options
  import opened PhysicalMemory
  import opened PageTables

  /** Does the entry let user code through, for writing if asked? */
  predicate Allows(e: Pte, writing: bool) {
    e.flags.present && e.flags.user && (writing ==> e.flags.writable)
  }

  /** The first `n` entries on the way along `path` are there and let user code through. */
  ghost predicate ParentsAllow(ram: Memory, root: Frame, path: seq<nat>, writing: bool, n: nat) {
    n <= |path| && forall k: nat | 1 <= k <= n :: Walk(ram, root, path[..k]).Some? && Allows(Walk(ram, root, path[..k]).value, writing)
  }

  /** `page_is_accessible`: every entry on the path permits the access. */
  function PageAccessible(ram: Memory, f: Frame, path: seq<nat>, requireWritable: bool): bool
    decreases |path|
  {
    if path == [] then true
    else if f !in ram || |ram[f]| != PAGE || path[0] >= 512 then false
    else
      match EntryAt(ram[f], path[0])
      case None => false
      case Some(e) =>
        && e.flags.present && e.flags.user && (requireWritable ==> e.flags.writable)
        && PageAccessible(ram, e.frame, path[1..], requireWritable)
  }

  /** The check says yes exactly when the walk exists and each entry on it lets the access through. */
  lemma {:induction false} AccessibleIsAllowed(ram: Memory, root: Frame, role: Role, f: Frame, path: seq<nat>, writing: bool)
    requires Tree(ram, root, role) && f in role && path != [] && LowerPath(role[f] + path) && |role[f] + path| <= 4
    ensures PageAccessible(ram, f, path, writing) <==> ParentsAllow(ram, f, path, writing, |path|)
    decreases |path|
  {
    hide EntryAt;
    StepIndex(role[f], path);
    var e := EntryAt(ram[f], path[0]);
    FirstStep(ram, f, path, 1);
    if e.Some? {
      assert ChildOk(role, f, path[0], e.value);
      if |path| > 1 {
        var g, rest := e.value.frame, path[1..];
        assert role[g] + rest == role[f] + path;
        AccessibleIsAllowed(ram, root, role, g, rest, writing);
        NotHuge(role, f, path, e.value);
        forall k: nat | 1 <= k <= |rest| ensures Walk(ram, f, path[..k + 1]) == Walk(ram, g, rest[..k]) {
          FirstStep(ram, f, path, k + 1);
          assert path[..k + 1][1..] == rest[..k];
        }
        RestAllows(ram, f, g, path, writing);
      }
    }
  }

  lemma NotHuge(role: Role, f: Frame, path: seq<nat>, e: Pte)
    requires f in role && |path| > 1 && |role[f] + path| <= 4 && ChildOk(role, f, path[0], e)
    ensures !e.flags.huge
  {
  }

  lemma FirstStep(ram: Memory, f: Frame, path: seq<nat>, k: nat)
    requires 1 <= k <= |path| && f in ram && |ram[f]| == PAGE && path[0] < 512
    ensures
      var e := EntryAt(ram[f], path[0]);
      Walk(ram, f, path[..k]) ==
      if e.None? || !e.value.flags.present then None
      else if k == 1 then e
      else if e.value.flags.huge then None
      else Walk(ram, e.value.frame, path[..k][1..])
  {
    hide EntryAt;
    assert path[..k][0] == path[0];
  }

  lemma RestAllows(ram: Memory, f: Frame, g: Frame, path: seq<nat>, writing: bool)
    requires |path| > 1 && forall k: nat | 1 <= k <= |path| - 1 :: Walk(ram, f, path[..k + 1]) == Walk(ram, g, path[1..][..k])
    ensures ParentsAllow(ram, f, path, writing, |path|) <==>
            Walk(ram, f, path[..1]).Some? && Allows(Walk(ram, f, path[..1]).value, writing)
            && ParentsAllow(ram, g, path[1..], writing, |path| - 1)
  {
    hide Walk;
    var rest := path[1..];
    if ParentsAllow(ram, f, path, writing, |path|) {
      forall k: nat | 1 <= k <= |rest| ensures Walk(ram, g, rest[..k]).Some? && Allows(Walk(ram, g, rest[..k]).value, writing) {
        assert Walk(ram, f, path[..k + 1]) == Walk(ram, g, rest[..k]);
      }
    }
    if Walk(ram, f, path[..1]).Some? && Allows(Walk(ram, f, path[..1]).value, writing) && ParentsAllow(ram, g, rest, writing, |rest|) {
      forall k: nat | 1 <= k <= |path| ensures Walk(ram, f, path[..k]).Some? && Allows(Walk(ram, f, path[..k]).value, writing) {
        if k > 1 {
          var j: nat := k - 1;
          assert Walk(ram, f, path[..j + 1]) == Walk(ram, g, rest[..j]);
        }
      }
    }
  }

  // --- Rights that only grow --------------------------------------------------------------------------

  predicate Wider(e: Pte, e': Pte) {
    e'.frame == e.frame && (e.flags.present ==> e'.flags.present) && (e.flags.user ==> e'.flags.user)
    && (e.flags.writable ==> e'.flags.writable)
  }

  /** No entry above the last level loses a right or leads elsewhere, and none is barred from executing
      that was not before. */
  ghost predicate RightsGrow(ram: Memory, ram': Memory, root: Frame) {
    && (forall q: seq<nat> | q != [] && |q| < 4 && LowerPath(q) && Walk(ram, root, q).Some? ::
          Walk(ram', root, q).Some? && Wider(Walk(ram, root, q).value, Walk(ram', root, q).value))
    && (forall q: seq<nat> | q != [] && |q| < 4 && LowerPath(q) && Barred(ram', root, q) :: Barred(ram, root, q))
  }

  /** The last entry on the way forbids execution. */
  ghost predicate Barred(ram: Memory, root: Frame, q: seq<nat>)
    requires q != []
  {
    Walk(ram, root, q).Some? && Walk(ram, root, q).value.flags.noExecute
  }

  /** No table entry bars the pages beneath it from executing. */
  ghost predicate TablesExecute(ram: Memory, root: Frame) {
    forall q: seq<nat> | q != [] && |q| < 4 && LowerPath(q) :: !Barred(ram, root, q)
  }

  lemma GrownTablesExecute(ram: Memory, ram': Memory, root: Frame)
    requires RightsGrow(ram, ram', root) && TablesExecute(ram, root)
    ensures TablesExecute(ram', root)
  {
    hide Walk, Barred;
  }

  lemma RightsGrowSelf(ram: Memory, root: Frame)
    ensures RightsGrow(ram, ram, root)
  {
  }

  lemma RightsGrowThen(a: Memory, b: Memory, c: Memory, root: Frame)
    requires RightsGrow(a, b, root) && RightsGrow(b, c, root)
    ensures RightsGrow(a, c, root)
  {
    hide Walk, LowerPath, Barred;
  }

  lemma GrownParentsAllow(ram: Memory, ram': Memory, root: Frame, path: seq<nat>, writing: bool, n: nat)
    requires RightsGrow(ram, ram', root) && n < 4 && LowerPath(path) && ParentsAllow(ram, root, path, writing, n)
    ensures ParentsAllow(ram', root, path, writing, n)
  {
    hide Walk;
    forall k: nat | 1 <= k <= n ensures Walk(ram', root, path[..k]).Some? && Allows(Walk(ram', root, path[..k]).value, writing) {
      var q := path[..k];
      assert LowerPath(q);
      assert Walk(ram, root, q).Some?;
    }
  }

  lemma MoreParentsAllow(ram: Memory, root: Frame, path: seq<nat>, writing: bool, n: nat)
    requires ParentsAllow(ram, root, path, writing, n) && n < |path|
    requires Walk(ram, root, path[..n + 1]).Some? && Allows(Walk(ram, root, path[..n + 1]).value, writing)
    ensures ParentsAllow(ram, root, path, writing, n + 1)
  {
    hide Walk;
  }

  /** Pages and other spaces' tables may change freely. */
  lemma SameTablesGrow(ram: Memory, ram': Memory, root: Frame, role: Role)
    requires Tree(ram, root, role) && SameTables(ram, ram', role)
    ensures RightsGrow(ram, ram', root)
  {
    hide Walk, SameTables;
    forall q: seq<nat> | q != [] && |q| < 4 && LowerPath(q) ensures Walk(ram', root, q) == Walk(ram, root, q) {
      assert role[root] + q == q;
      TablesKeepWalks(ram, ram', root, role, root, q);
    }
  }

  /** An entry of a last-level table is on no parent's way. */
  lemma LeafGrow(ram: Memory, ram': Memory, root: Frame, role: Role, f: Frame, i: nat, e: Pte)
    requires Tree(ram, root, role) && EntrySet(ram, ram', f, i, e) && e.frame < MAX_FRAMES && e.flags.present
    requires f in role && |role[f]| == 3
    ensures RightsGrow(ram, ram', root)
  {
    hide Walk, EntryAt, SetEntry;
    forall q: seq<nat> | q != [] && |q| < 4 && LowerPath(q) ensures Walk(ram', root, q) == Walk(ram, root, q) {
      assert role[root] + q == q;
      EntryKeepsOtherWalks(ram, ram', root, role, f, i, e, root, q);
    }
  }

  /** An entry that was there and only gained rights. */
  lemma WidenedGrow(ram: Memory, ram': Memory, root: Frame, role: Role, f: Frame, i: nat, e: Pte)
    requires Tree(ram, root, role) && EntrySet(ram, ram', f, i, e) && Tree(ram', root, role)
    requires f in role && |role[f]| < 3 && LowerPath(role[f] + [i]) && ChildOk(role, f, i, e)
    requires Descend(ram, root, role[f]) == Some(f) && Descend(ram', root, role[f]) == Some(f)
    requires EntryAt(ram[f], i).Some? && Wider(EntryAt(ram[f], i).value, e)
    requires e.flags.noExecute ==> EntryAt(ram[f], i).value.flags.noExecute
    ensures RightsGrow(ram, ram', root)
  {
    hide Walk, EntryAt, SetEntry, Tree;
    RootServesNothing(ram, root, role);
    StepIndex(role[f], [i]);
    WalkToEntry(ram, root, role, f, i);
    WalkToEntry(ram', root, role, f, i);
    EntrySetReads(ram, ram', f, i, e, f, i);
    forall q: seq<nat> | q != [] && |q| < 4 && LowerPath(q)
      ensures Barred(ram', root, q) ==> Barred(ram, root, q)
      ensures Walk(ram, root, q).Some? ==> Walk(ram', root, q).Some? && Wider(Walk(ram, root, q).value, Walk(ram', root, q).value)
    {
      if q != role[f] + [i] {
        assert role[root] + q == q;
        SameTargetKeepsWalks(ram, ram', root, role, f, i, e, root, q);
      }
    }
  }

  lemma RootServesNothing(ram: Memory, root: Frame, role: Role)
    requires Tree(ram, root, role)
    ensures root in role && role[root] == [] && MemoryOk(ram) && forall f | f in role :: f in ram
    ensures forall f | f in role :: |role[f]| <= 4
  {
  }

  /** An entry where there was none: nothing led through it. */
  lemma AddedGrow(ram: Memory, ram': Memory, root: Frame, role: Role, f: Frame, i: nat, e: Pte)
    requires Tree(ram, root, role) && EntrySet(ram, ram', f, i, e) && e.frame < MAX_FRAMES && e.flags.present
    requires f in role && |role[f]| < 4 && LowerPath(role[f] + [i]) && Descend(ram, root, role[f]) == Some(f)
    requires EntryAt(ram[f], i).None? && !e.flags.noExecute
    requires forall q: seq<nat> | |q| < 4 && LowerPath(q) && role[f] + [i] < q :: Walk(ram', root, q).None?
    requires Walk(ram', root, role[f] + [i]) == Some(e)
    ensures RightsGrow(ram, ram', root)
  {
    hide Walk, EntryAt, SetEntry, Tree;
    RootServesNothing(ram, root, role);
    var p := role[f] + [i];
    WalkToEntry(ram, root, role, f, i);
    forall q: seq<nat> | q != [] && |q| < 4 && LowerPath(q)
      ensures Walk(ram, root, q).Some? ==> Walk(ram', root, q) == Walk(ram, root, q)
      ensures Barred(ram', root, q) ==> Barred(ram, root, q)
    {
      assert role[root] + q == q;
      if p <= q {
        if p != q {
          var rest := q[|p|..];
          assert q == p + rest && role[root] + p + rest == q;
          WalkVia(ram, root, role, root, p, rest);
        }
      } else {
        EntryKeepsOtherWalks(ram, ram', root, role, f, i, e, root, q);
      }
    }
  }
}
