/** `map_to` and `update_flags` over one address space's tables (the x86_64 crate's `Mapper`, as
    kernel/src/mm/address_space.rs uses it). */
module MapPages {
  import opened Options
  import opened Bytes
  import opened PhysicalMemory
  import opened PageTables
  import opened Permissions
  import opened FrameAllocation

  /** Frames outside `touched` keep every byte. */
  ghost predicate Touches(ram: Memory, ram': Memory, touched: set<Frame>) {
    ram'.Keys == ram.Keys && MemoryOk(ram') && forall f | f in ram && f !in touched :: ram'[f] == ram[f]
  }

  lemma TouchesThen(a: Memory, b: Memory, c: Memory, first: set<Frame>, second: set<Frame>, all: set<Frame>)
    requires Touches(a, b, first) && Touches(b, c, second) && first <= all && second <= all
    ensures Touches(a, c, all)
  {
  }

  lemma TouchesOne(ram: Memory, f: Frame, bytes: seq<Byte>)
    requires MemoryOk(ram) && f in ram && |bytes| == PAGE
    ensures Touches(ram, ram[f := bytes], {f})
  {
  }

  lemma TouchesTwo(ram: Memory, f: Frame, x: seq<Byte>, g: Frame, y: seq<Byte>)
    requires MemoryOk(ram) && f in ram && g in ram && |x| == PAGE && |y| == PAGE
    ensures Touches(ram, ram[g := y][f := x], {f, g})
  {
  }

  predicate FullPath(path: seq<nat>) {
    |path| == 4 && LowerPath(path)
  }

  /** The kernel's half of the top table is as it was. */
  ghost predicate SameUpper(ram: Memory, ram': Memory, root: Frame) {
    && root in ram && root in ram' && |ram[root]| == PAGE && |ram'[root]| == PAGE
    && UpperHalf(ram'[root]) == UpperHalf(ram[root])
  }

  /** Every page other than `path` is mapped as before. */
  ghost predicate SameOtherPages(ram: Memory, ram': Memory, root: Frame, path: seq<nat>) {
    forall q | FullPath(q) && q != path :: Walk(ram', root, q) == Walk(ram, root, q)
  }

  ghost predicate SamePages(ram: Memory, ram': Memory, root: Frame) {
    forall q | FullPath(q) :: Walk(ram', root, q) == Walk(ram, root, q)
  }

  /** The flags a parent entry gets: present, and as permissive as the page beneath it asks. */
  function ParentFlags(flags: Flags): Flags {
    Flags(flags.present, flags.writable, flags.user, false, false)
  }

  function Union(a: Flags, b: Flags): Flags {
    Flags(a.present || b.present, a.writable || b.writable, a.user || b.user, a.huge || b.huge, a.noExecute || b.noExecute)
  }

  datatype MapResult = Mapped | AlreadyMapped | NoFrames

  lemma PrefixIndex(path: seq<nat>, k: nat)
    requires FullPath(path) && k < 4
    ensures LowerPath(path[..k]) && IsIndex(path[..k], path[k]) && path[k] < 512
    ensures path[..k] + [path[k]] == path[..k + 1] && LowerPath(path[..k + 1])
  {
  }

  // --- Creating or passing through one table ----------------------------------------------------

  /** A new, zeroed table at an unused entry maps nothing new. */
  lemma NewTableKeepsPages(ram: Memory, zeroed: Memory, ram': Memory, root: Frame, role: Role, f: Frame, i: nat, e: Pte)
    requires Tree(ram, root, role) && f in role && |role[f]| < 3 && LowerPath(role[f] + [i]) && i < 512
    requires Descend(ram, root, role[f]) == Some(f)
    requires EntryAt(ram[f], i).None? && e.flags.present && !e.flags.huge
    requires e.frame !in role && e.frame in ram && zeroed == ram[e.frame := ZeroFrame()]
    requires EntrySet(zeroed, ram', f, i, e)
    ensures Tree(ram', root, role[e.frame := role[f] + [i]])
    ensures Descend(ram', root, role[f] + [i]) == Some(e.frame)
    ensures SamePages(ram, ram', root)
  {
    hide EntryAt, SetEntry, Walk;
    var role' := role[e.frame := role[f] + [i]];
    StepIndex(role[f], [i]);
    assert MemoryOk(zeroed);
    TablesKeepTree(ram, zeroed, root, role);
    ZeroedFrameJoins(zeroed, root, role, e.frame, role[f] + [i]);
    EntryKeepsTree(zeroed, ram', root, role', f, i, e);
    PathToTable(ram, zeroed, ram', root, role, f, i, e);
    forall q | FullPath(q) ensures Walk(ram', root, q) == Walk(ram, root, q) {
      NewTableKeepsPage(ram, zeroed, ram', root, role, f, i, e, q);
    }
  }

  /** Nor does it take a right from anything. */
  lemma NewTableGrows(ram: Memory, zeroed: Memory, ram': Memory, root: Frame, role: Role, f: Frame, i: nat, e: Pte)
    requires Tree(ram, root, role) && f in role && |role[f]| < 3 && LowerPath(role[f] + [i]) && i < 512
    requires Descend(ram, root, role[f]) == Some(f)
    requires EntryAt(ram[f], i).None? && e.flags.present && !e.flags.huge && !e.flags.noExecute
    requires e.frame !in role && e.frame in ram && zeroed == ram[e.frame := ZeroFrame()]
    requires EntrySet(zeroed, ram', f, i, e)
    ensures RightsGrow(ram, ram', root)
    ensures Walk(ram', root, role[f] + [i]) == Some(e)
  {
    hide EntryAt, SetEntry, Walk, RightsGrow;
    StepIndex(role[f], [i]);
    assert MemoryOk(zeroed);
    TablesKeepTree(ram, zeroed, root, role);
    SameTablesGrow(ram, zeroed, root, role);
    if role[f] != [] {
      assert role[root] + role[f] == role[f];
      assert LowerPath(role[f]) by { assert forall k: nat | k < |role[f]| :: role[f][k] == (role[f] + [i])[k]; }
      TablesKeepWalks(ram, zeroed, root, role, root, role[f]);
    }
    NewTableKeepsPages(ram, zeroed, ram', root, role, f, i, e);
    var role' := role[e.frame := role[f] + [i]];
    ZeroedFrameJoins(zeroed, root, role, e.frame, role[f] + [i]);
    EntryKeepsTree(zeroed, ram', root, role', f, i, e);
    PathToTable(ram, zeroed, ram', root, role, f, i, e);
    EntrySetReads(zeroed, ram', f, i, e, f, i);
    WalkToEntry(ram', root, role', f, i);
    NothingBeyond(ram', root, role', role[f] + [i], e.frame);
    AddedGrow(zeroed, ram', root, role, f, i, e);
    RightsGrowThen(ram, zeroed, ram', root);
  }

  lemma NothingBeyond(ram: Memory, root: Frame, role: Role, p: seq<nat>, table: Frame)
    requires Tree(ram, root, role) && Descend(ram, root, p) == Some(table) && table in ram && ram[table] == ZeroFrame()
    ensures forall q: seq<nat> | |q| < 4 && LowerPath(q) && p < q :: Walk(ram, root, q).None?
  {
    hide Walk, Tree;
    TreeRoot(ram, root, role);
    forall q: seq<nat> | |q| < 4 && LowerPath(q) && p < q ensures Walk(ram, root, q).None? {
      ThroughZeroTable(ram, root, role, p, table, q);
    }
  }

  lemma PathToTable(ram: Memory, zeroed: Memory, ram': Memory, root: Frame, role: Role, f: Frame, i: nat, e: Pte)
    requires Tree(ram, root, role) && f in role && |role[f]| < 3 && LowerPath(role[f] + [i]) && i < 512
    requires Descend(ram, root, role[f]) == Some(f)
    requires e.flags.present && !e.flags.huge
    requires e.frame !in role && e.frame in ram && zeroed == ram[e.frame := ZeroFrame()]
    requires EntrySet(zeroed, ram', f, i, e)
    requires Tree(zeroed, root, role) && Tree(ram', root, role[e.frame := role[f] + [i]])
    ensures Descend(ram', root, role[f] + [i]) == Some(e.frame)
    ensures Descend(ram', root, role[f]) == Some(f)
  {
    hide EntryAt, SetEntry, Walk;
    var role' := role[e.frame := role[f] + [i]];
    StepIndex(role[f], [i]);
    if role[f] != [] {
      assert role[root] + role[f] == role[f];
      assert LowerPath(role[f]) by { assert forall k: nat | k < |role[f]| :: role[f][k] == (role[f] + [i])[k]; }
      TablesKeepWalks(ram, zeroed, root, role, root, role[f]);
      EntryKeepsOtherWalks(zeroed, ram', root, role, f, i, e, root, role[f]);
    }
    EntrySetReads(zeroed, ram', f, i, e, f, i);
    WalkToEntry(ram', root, role', f, i);
  }

  lemma NewTableKeepsPage(ram: Memory, zeroed: Memory, ram': Memory, root: Frame, role: Role, f: Frame, i: nat, e: Pte, q: seq<nat>)
    requires Tree(ram, root, role) && f in role && |role[f]| < 3 && LowerPath(role[f] + [i]) && i < 512
    requires Descend(ram, root, role[f]) == Some(f)
    requires EntryAt(ram[f], i).None? && e.flags.present && !e.flags.huge
    requires e.frame !in role && e.frame in ram && zeroed == ram[e.frame := ZeroFrame()]
    requires EntrySet(zeroed, ram', f, i, e)
    requires Tree(zeroed, root, role) && Tree(ram', root, role[e.frame := role[f] + [i]])
    requires Descend(ram', root, role[f] + [i]) == Some(e.frame)
    requires FullPath(q)
    ensures Walk(ram', root, q) == Walk(ram, root, q)
  {
    hide EntryAt, SetEntry, Walk, Tree;
    var role' := role[e.frame := role[f] + [i]];
    var p := role[f] + [i];
    TreeRoot(ram, root, role);
    assert role[root] + q == q;
    if p <= q {
      WalkToEntry(ram, root, role, f, i);
      NothingThrough(ram, root, role, p, q);
      assert ram'[e.frame] == ZeroFrame();
      assert role'[root] == [];
      ThroughZeroTable(ram', root, role', p, e.frame, q);
    } else {
      TablesKeepWalks(ram, zeroed, root, role, root, q);
      EntryKeepsOtherWalks(zeroed, ram', root, role, f, i, e, root, q);
    }
  }

  lemma TreeRoot(ram: Memory, root: Frame, role: Role)
    requires Tree(ram, root, role)
    ensures root in role && role[root] == [] && MemoryOk(ram) && forall f | f in role :: f in ram
  {
  }

  lemma NothingThrough(ram: Memory, root: Frame, role: Role, p: seq<nat>, q: seq<nat>)
    requires Tree(ram, root, role) && p != [] && FullPath(q) && p < q && Walk(ram, root, p).None?
    ensures Walk(ram, root, q).None?
  {
    hide Walk;
    var rest := q[|p|..];
    assert q == p + rest && role[root] + p + rest == q;
    WalkVia(ram, root, role, root, p, rest);
  }

  lemma ThroughZeroTable(ram: Memory, root: Frame, role: Role, p: seq<nat>, table: Frame, q: seq<nat>)
    requires Tree(ram, root, role) && LowerPath(q) && p < q
    requires Descend(ram, root, p) == Some(table) && table in ram && ram[table] == ZeroFrame()
    ensures Walk(ram, root, q).None?
  {
    var rest := q[|p|..];
    assert q == p + rest && role[root] + p + rest == q;
    assert rest[0] == q[|p|];
    WalkVia(ram, root, role, root, p, rest);
    ZeroHasNoEntries(rest[0]);
  }

  // --- The whole walk ----------------------------------------------------------------------------

  /** What `create_next_table` does at entry `i` of table `f`: follow it, widening its flags, or
      put a zeroed table there. Either way no page is mapped differently. */
  method NextTable(ram: Memory, root: Frame, ghost role: Role, f: Frame, i: nat, flags: Flags, allocator: FrameAllocator)
    returns (ram': Memory, ghost role': Role, next: Option<Frame>, made: bool)
    requires Tree(ram, root, role) && f in role && |role[f]| < 3 && LowerPath(role[f] + [i]) && i < 512
    requires Descend(ram, root, role[f]) == Some(f) && flags.present && !flags.huge && !flags.noExecute
    requires allocator.Valid() && allocator.Distinct() && allocator.Supply() !! role.Keys && allocator.Supply() <= ram.Keys
    modifies allocator`regionIndex, allocator`nextAddr, allocator`free
    ensures allocator.Valid() && allocator.Distinct()
    ensures Tree(ram', root, role') && SamePages(ram, ram', root) && SameUpper(ram, ram', root)
    ensures next.None? ==> ram' == ram && role' == role && allocator.Supply() == old(allocator.Supply()) == {}
    ensures next.Some? ==>
              next.value in role' && role'[next.value] == role[f] + [i]
              && Descend(ram', root, role[f] + [i]) == next
    ensures RightsGrow(ram, ram', root)
    ensures next.Some? && flags.user ==>
              Walk(ram', root, role[f] + [i]).Some? && Allows(Walk(ram', root, role[f] + [i]).value, flags.writable)
    ensures next.Some? && made ==>
              && next.value in old(allocator.Supply()) && allocator.Supply() == old(allocator.Supply()) - {next.value}
              && role' == role[next.value := role[f] + [i]]
              && Touches(ram, ram', {f, next.value})
    ensures next.Some? && !made ==>
              allocator.Supply() == old(allocator.Supply()) && role' == role && Touches(ram, ram', {f})
  {
    hide EntryAt, SetEntry, Walk, Tree, Touches, SamePages, LowerPath, SameUpper, RightsGrow, ZeroFrame, Descend, Union, Allows,
      FrameAllocator.Valid, FrameAllocator.Distinct, FrameAllocator.Supply;
    TreeRoot(ram, root, role);
    StepIndex(role[f], [i]);
    NothingDone(ram, root);
    var entry := EntryAt(ram[f], i);
    made := entry.None?;
    if made {
      var spare := allocator.Take();
      if spare.None? {
        return ram, role, None, made;
      }
      var e := Pte(spare.value, flags);
      TableMade(ram, root, role, f, i, e);
      var zeroed := ram[spare.value := ZeroFrame()];
      ram' := zeroed[f := SetEntry(zeroed[f], i, e)];
      role' := role[spare.value := role[f] + [i]];
      next := spare;
    } else {
      TableWidened(ram, root, role, f, i, flags);
      var e := Pte(entry.value.frame, Union(entry.value.flags, flags));
      ram' := ram[f := SetEntry(ram[f], i, e)];
      role' := role;
      next := Some(e.frame);
    }
  }

  lemma NothingDone(ram: Memory, root: Frame)
    requires root in ram && |ram[root]| == PAGE
    ensures SamePages(ram, ram, root) && SameUpper(ram, ram, root) && RightsGrow(ram, ram, root)
  {
    SamePagesSelf(ram, root);
    RightsGrowSelf(ram, root);
  }

  lemma TableMade(ram: Memory, root: Frame, role: Role, f: Frame, i: nat, e: Pte)
    requires Tree(ram, root, role) && f in role && |role[f]| < 3 && LowerPath(role[f] + [i]) && i < 512
    requires Descend(ram, root, role[f]) == Some(f) && f in ram && |ram[f]| == PAGE
    requires EntryAt(ram[f], i).None? && e.flags.present && !e.flags.huge && !e.flags.noExecute && e.frame !in role && e.frame in ram
    ensures f in ram[e.frame := ZeroFrame()] && |ram[e.frame := ZeroFrame()][f]| == PAGE
    ensures
      var zeroed := ram[e.frame := ZeroFrame()];
      var ram' := zeroed[f := SetEntry(zeroed[f], i, e)];
      && Tree(ram', root, role[e.frame := role[f] + [i]]) && SamePages(ram, ram', root) && SameUpper(ram, ram', root)
      && Descend(ram', root, role[f] + [i]) == Some(e.frame) && RightsGrow(ram, ram', root)
      && (e.flags.user ==>
            Walk(ram', root, role[f] + [i]).Some? && Allows(Walk(ram', root, role[f] + [i]).value, e.flags.writable))
      && Touches(ram, ram', {f, e.frame})
  {
    hide EntryAt, SetEntry, Walk, Tree, Touches, SamePages, LowerPath, UpperHalf, RightsGrow;
    TreeRoot(ram, root, role);
    StepIndex(role[f], [i]);
    var zeroed := ram[e.frame := ZeroFrame()];
    var ram' := zeroed[f := SetEntry(zeroed[f], i, e)];
    NewTableKeepsPages(ram, zeroed, ram', root, role, f, i, e);
    NewTableGrows(ram, zeroed, ram', root, role, f, i, e);
    TouchesTwo(ram, f, SetEntry(zeroed[f], i, e), e.frame, ZeroFrame());
    if f == root {
      SetKeepsUpperHalf(ram[f], i, e);
    }
  }

  lemma TableWidened(ram: Memory, root: Frame, role: Role, f: Frame, i: nat, flags: Flags)
    requires Tree(ram, root, role) && f in role && |role[f]| < 3 && LowerPath(role[f] + [i]) && i < 512
    requires Descend(ram, root, role[f]) == Some(f) && f in ram && |ram[f]| == PAGE
    requires EntryAt(ram[f], i).Some? && flags.present && !flags.huge && !flags.noExecute
    ensures
      var entry := EntryAt(ram[f], i).value;
      var e := Pte(entry.frame, Union(entry.flags, flags));
      var ram' := ram[f := SetEntry(ram[f], i, e)];
      && e.frame in role && role[e.frame] == role[f] + [i]
      && Tree(ram', root, role) && SamePages(ram, ram', root) && SameUpper(ram, ram', root)
      && Descend(ram', root, role[f] + [i]) == Some(e.frame) && RightsGrow(ram, ram', root)
      && (flags.user ==> Walk(ram', root, role[f] + [i]).Some? && Allows(Walk(ram', root, role[f] + [i]).value, flags.writable))
      && Touches(ram, ram', {f})
  {
    hide EntryAt, SetEntry, Walk, Tree, Touches, SamePages, LowerPath, UpperHalf, RightsGrow;
    TreeRoot(ram, root, role);
    StepIndex(role[f], [i]);
    WalkToEntry(ram, root, role, f, i);
    ChildIs(ram, root, role, f, i);
    var entry := EntryAt(ram[f], i).value;
    var e := Pte(entry.frame, Union(entry.flags, flags));
    var ram' := ram[f := SetEntry(ram[f], i, e)];
    EntryKeepsTree(ram, ram', root, role, f, i, e);
    WidenKeepsPages(ram, ram', root, role, f, i, e);
    WidenedGrow(ram, ram', root, role, f, i, e);
    TouchesOne(ram, f, SetEntry(ram[f], i, e));
    if f == root {
      SetKeepsUpperHalf(ram[f], i, e);
    }
  }

  lemma ChildIs(ram: Memory, root: Frame, role: Role, f: Frame, i: nat)
    requires Tree(ram, root, role) && f in role && |role[f]| < 4 && IsIndex(role[f], i) && i < 512
    requires f in ram && |ram[f]| == PAGE && EntryAt(ram[f], i).Some?
    ensures ChildOk(role, f, i, EntryAt(ram[f], i).value)
  {
    hide EntryAt;
  }

  lemma WidenKeepsPages(ram: Memory, ram': Memory, root: Frame, role: Role, f: Frame, i: nat, e: Pte)
    requires Tree(ram, root, role) && EntrySet(ram, ram', f, i, e) && Tree(ram', root, role)
    requires f in role && |role[f]| < 3 && LowerPath(role[f] + [i]) && ChildOk(role, f, i, e)
    requires Descend(ram, root, role[f]) == Some(f)
    requires EntryAt(ram[f], i).Some? && EntryAt(ram[f], i).value.frame == e.frame
    ensures SamePages(ram, ram', root)
    ensures Descend(ram', root, role[f] + [i]) == Some(e.frame) && Descend(ram', root, role[f]) == Some(f)
    ensures Walk(ram', root, role[f] + [i]) == Some(e)
  {
    hide EntryAt, SetEntry, Walk, Tree;
    TreeRoot(ram, root, role);
    StepIndex(role[f], [i]);
    forall q | FullPath(q) ensures Walk(ram', root, q) == Walk(ram, root, q) {
      assert role[root] + q == q;
      SameTargetKeepsWalks(ram, ram', root, role, f, i, e, root, q);
    }
    if role[f] != [] {
      assert role[root] + role[f] == role[f];
      assert LowerPath(role[f]) by { assert forall k: nat | k < |role[f]| :: role[f][k] == (role[f] + [i])[k]; }
      SameTargetKeepsWalks(ram, ram', root, role, f, i, e, root, role[f]);
    }
    EntrySetReads(ram, ram', f, i, e, f, i);
    WalkToEntry(ram', root, role, f, i);
  }

  /** What a mapping attempt leaves behind, whatever its outcome: tables may have been added, all
      taken from the supply, and nothing outside this space's tables was written. `pages` holds the
      newly mapped page, if there is one. */
  ghost predicate Grown(ram: Memory, ram': Memory, role: Role, role': Role, added: seq<Frame>, pages: set<Frame>, supply: set<Frame>) {
    && NoRepeats(added) && SetOf(added) <= supply
    && (forall f | f in role :: f in role' && role'[f] == role[f])
    && (forall f | f in added :: f in role' && |role'[f]| < 4)
    && role'.Keys == role.Keys + SetOf(added) + pages
    && Touches(ram, ram', (set f | f in role && |role[f]| < 4) + SetOf(added))
  }

  lemma NoRepeatsSnoc(frames: seq<Frame>, f: Frame)
    requires NoRepeats(frames)
    ensures f !in SetOf(frames) ==> NoRepeats(frames + [f])
  {
    assert f !in SetOf(frames) ==> f !in frames;
  }

  lemma GrownStep(ram: Memory, ram1: Memory, ram2: Memory, role: Role, role1: Role, role2: Role,
                  added: seq<Frame>, supply: set<Frame>, f: Frame, next: Frame, made: bool)
    requires supply !! role.Keys
    requires Grown(ram, ram1, role, role1, added, {}, supply)
    requires f in role1 && |role1[f]| < 3
    requires made ==>
               && next in supply - SetOf(added) && next in role2 && |role2[next]| < 4
               && role2 == role1[next := role2[next]] && Touches(ram1, ram2, {f, next})
    requires !made ==> role2 == role1 && Touches(ram1, ram2, {f})
    ensures Grown(ram, ram2, role, role2, if made then added + [next] else added, {}, supply)
  {
    hide Touches, NoRepeats;
    NoRepeatsSnoc(added, next);
    var added2 := if made then added + [next] else added;
    var tables := set g | g in role && |role[g]| < 4;
    assert SetOf(added2) == SetOf(added) + (if made then {next} else {});
    assert f in tables + SetOf(added);
    TouchesThen(ram, ram1, ram2, tables + SetOf(added), if made then {f, next} else {f}, tables + SetOf(added2));
  }

  lemma GrownPage(ram: Memory, ram1: Memory, ram2: Memory, role: Role, role1: Role, added: seq<Frame>,
                  supply: set<Frame>, f: Frame, frame: Frame, path: seq<nat>)
    requires Grown(ram, ram1, role, role1, added, {}, supply) && frame !in role1
    requires f in role1 && |role1[f]| == 3 && Touches(ram1, ram2, {f})
    ensures Grown(ram, ram2, role, role1[frame := path], added, {frame}, supply)
  {
    hide Touches;
    var tables := set g | g in role && |role[g]| < 4;
    assert f in tables + SetOf(added);
    TouchesThen(ram, ram1, ram2, tables + SetOf(added), {f}, tables + SetOf(added));
  }

  lemma GrownSelf(ram: Memory, role: Role, supply: set<Frame>)
    requires MemoryOk(ram)
    ensures Grown(ram, ram, role, role, [], {}, supply)
  {
  }

  lemma GrownKeys(ram: Memory, ram': Memory, role: Role, role': Role, added: seq<Frame>, supply: set<Frame>)
    requires Grown(ram, ram', role, role', added, {}, supply) && supply !! role.Keys
    ensures role'.Keys == role.Keys + SetOf(added) && SetOf(added) <= supply
    ensures (supply - SetOf(added)) !! role'.Keys && ram'.Keys == ram.Keys
  {
  }

  lemma SamePagesThen(a: Memory, b: Memory, c: Memory, root: Frame)
    requires SamePages(a, b, root) && SamePages(b, c, root)
    ensures SamePages(a, c, root)
  {
    hide Walk;
  }

  /** One level of the walk, with the bookkeeping of what has been added so far. */
  method OneLevel(ram: Memory, root: Frame, ghost role: Role, path: seq<nat>, level: nat, table: Frame, flags: Flags,
                  allocator: FrameAllocator, ghost ram0: Memory, ghost role0: Role, added: seq<Frame>, ghost supply: set<Frame>)
    returns (ram': Memory, ghost role': Role, next: Option<Frame>, added': seq<Frame>)
    requires FullPath(path) && level < 3 && flags.present
    requires allocator.Valid() && allocator.Distinct() && allocator.Supply() == supply - SetOf(added)
    requires supply !! role0.Keys && supply <= ram0.Keys
    requires Tree(ram, root, role) && SamePages(ram0, ram, root) && Grown(ram0, ram, role0, role, added, {}, supply)
    requires SameUpper(ram0, ram, root)
    requires RightsGrow(ram0, ram, root) && (flags.user ==> ParentsAllow(ram, root, path, flags.writable, level))
    requires table in role && role[table] == path[..level] && Descend(ram, root, path[..level]) == Some(table)
    modifies allocator`regionIndex, allocator`nextAddr, allocator`free
    ensures allocator.Valid() && allocator.Distinct() && allocator.Supply() == supply - SetOf(added')
    ensures Tree(ram', root, role') && SamePages(ram0, ram', root) && Grown(ram0, ram', role0, role', added', {}, supply)
    ensures SameUpper(ram0, ram', root)
    ensures RightsGrow(ram0, ram', root) && (next.Some? && flags.user ==> ParentsAllow(ram', root, path, flags.writable, level + 1))
    ensures next.None? ==> allocator.Supply() == {}
    ensures next.Some? ==>
              && next.value in role' && role'[next.value] == path[..level + 1]
              && Descend(ram', root, path[..level + 1]) == next
  {
    hide EntryAt, SetEntry, Walk, Tree, SamePages, Grown, Touches, Descend, RightsGrow, ParentsAllow;
    PrefixIndex(path, level);
    hide LowerPath;
    GrownKeys(ram0, ram, role0, role, added, supply);
    var made;
    ram', role', next, made := NextTable(ram, root, role, table, path[level], ParentFlags(flags), allocator);
    SamePagesThen(ram0, ram, ram', root);
    RightsGrowThen(ram0, ram, ram', root);
    added' := added;
    if next.Some? && flags.user {
      GrownParentsAllow(ram, ram', root, path, flags.writable, level);
      MoreParentsAllow(ram', root, path, flags.writable, level);
    }
    if next.Some? {
      GrownStep(ram0, ram, ram', role0, role, role', added, supply, table, next.value, made);
      if made {
        SetOfSnoc(added, next.value);
        added' := added + [next.value];
      }
    }
  }

  lemma SetOfSnoc(frames: seq<Frame>, f: Frame)
    ensures SetOf(frames + [f]) == SetOf(frames) + {f}
  {
  }

  /** The three upper levels. */
  method ReachTable(ram: Memory, root: Frame, ghost role: Role, path: seq<nat>, flags: Flags, allocator: FrameAllocator)
    returns (ram': Memory, ghost role': Role, added: seq<Frame>, table: Option<Frame>)
    requires Tree(ram, root, role) && FullPath(path) && flags.present
    requires allocator.Valid() && allocator.Distinct() && allocator.Supply() !! role.Keys && allocator.Supply() <= ram.Keys
    modifies allocator`regionIndex, allocator`nextAddr, allocator`free
    ensures allocator.Valid() && allocator.Distinct() && allocator.Supply() == old(allocator.Supply()) - SetOf(added)
    ensures Tree(ram', root, role') && SamePages(ram, ram', root) && SameUpper(ram, ram', root)
    ensures Grown(ram, ram', role, role', added, {}, old(allocator.Supply()))
    ensures table.None? ==> allocator.Supply() == {}
    ensures RightsGrow(ram, ram', root) && (table.Some? && flags.user ==> ParentsAllow(ram', root, path, flags.writable, 3))
    ensures table.Some? ==>
              && table.value in role' && role'[table.value] == path[..3]
              && Descend(ram', root, path[..3]) == table
  {
    hide EntryAt, SetEntry, Walk, Tree, SamePages, LowerPath;
    ghost var supply := allocator.Supply();
    TreeRoot(ram, root, role);
    SamePagesSelf(ram, root);
    RightsGrowSelf(ram, root);
    GrownSelf(ram, role, supply);
    assert ParentsAllow(ram, root, path, flags.writable, 0);
    assert path[..0] == [] && Descend(ram, root, []) == Some(root);
    hide Grown, Touches, Descend, FullPath, RightsGrow, ParentsAllow;
    ram', role', added, table := ram, role, [], Some(root);
    for level := 0 to 3
      invariant allocator.Valid() && allocator.Distinct() && allocator.Supply() == supply - SetOf(added)
      invariant Tree(ram', root, role') && SamePages(ram, ram', root) && SameUpper(ram, ram', root)
      invariant Grown(ram, ram', role, role', added, {}, supply)
      invariant |path| == 4 && table.Some? && table.value in role' && role'[table.value] == path[..level]
      invariant Descend(ram', root, path[..level]) == table
      invariant RightsGrow(ram, ram', root) && (flags.user ==> ParentsAllow(ram', root, path, flags.writable, level))
    {
      ram', role', table, added := OneLevel(ram', root, role', path, level, table.value, flags, allocator, ram, role, added, supply);
      if table.None? {
        return;
      }
    }
  }

  /** `map_to`. */
  method MapTo(ram: Memory, root: Frame, ghost role: Role, path: seq<nat>, frame: Frame, flags: Flags, allocator: FrameAllocator)
    returns (ram': Memory, ghost role': Role, added: seq<Frame>, result: MapResult)
    requires Tree(ram, root, role) && FullPath(path) && flags.present
    requires frame !in role && frame in ram
    requires allocator.Valid() && allocator.Distinct() && allocator.Supply() !! role.Keys && allocator.Supply() <= ram.Keys
    requires frame !in allocator.Supply()
    modifies allocator`regionIndex, allocator`nextAddr, allocator`free
    ensures allocator.Valid() && allocator.Distinct()
    ensures allocator.Supply() == old(allocator.Supply()) - SetOf(added)
    ensures Tree(ram', root, role') && SameUpper(ram, ram', root)
    ensures Grown(ram, ram', role, role', added, if result == Mapped then {frame} else {}, old(allocator.Supply()))
    ensures result == NoFrames ==> allocator.Supply() == {} && SamePages(ram, ram', root)
    ensures result == AlreadyMapped ==> Walk(ram, root, path).Some? && SamePages(ram, ram', root)
    ensures result == Mapped ==>
              && frame in role' && role'[frame] == path
              && Walk(ram, root, path).None? && Walk(ram', root, path) == Some(Pte(frame, flags))
              && SameOtherPages(ram, ram', root, path)
    ensures RightsGrow(ram, ram', root) && (result == Mapped && flags.user ==> ParentsAllow(ram', root, path, flags.writable, 3))
  {
    hide EntryAt, SetEntry, Walk, Tree, SamePages, SameOtherPages, Grown, Touches, Descend, RightsGrow, ParentsAllow;
    ghost var supply := allocator.Supply();
    var table;
    ram', role', added, table := ReachTable(ram, root, role, path, flags, allocator);
    if table.None? {
      return ram', role', added, NoFrames;
    }
    PrefixIndex(path, 3);
    GrownKeys(ram, ram', role, role', added, supply);
    assert path[..4] == path;
    TreeRoot(ram', root, role');
    WalkToEntry(ram', root, role', table.value, path[3]);
    SamePageAt(ram, ram', root, path);
    if EntryAt(ram'[table.value], path[3]).Some? {
      return ram', role', added, AlreadyMapped;
    }
    FillPage(ram, ram', root, role, role', added, supply, table.value, path, Pte(frame, flags));
    FilledGrow(ram, ram', root, role', table.value, path, Pte(frame, flags));
    assert table.value != root;
    ram' := ram'[table.value := SetEntry(ram'[table.value], path[3], Pte(frame, flags))];
    role' := role'[frame := path];
    result := Mapped;
  }

  lemma FilledGrow(ram: Memory, ram1: Memory, root: Frame, role1: Role, table: Frame, path: seq<nat>, e: Pte)
    requires RightsGrow(ram, ram1, root) && Tree(ram1, root, role1) && FullPath(path) && table in role1 && role1[table] == path[..3]
    requires table in ram1 && |ram1[table]| == PAGE && path[3] < 512 && e.frame in ram1 && e.flags.present
    ensures
      var ram2 := ram1[table := SetEntry(ram1[table], path[3], e)];
      RightsGrow(ram, ram2, root)
      && forall writing: bool | ParentsAllow(ram1, root, path, writing, 3) :: ParentsAllow(ram2, root, path, writing, 3)
  {
    hide EntryAt, SetEntry, Walk, Tree, RightsGrow, ParentsAllow;
    var ram2 := ram1[table := SetEntry(ram1[table], path[3], e)];
    TreeRoot(ram1, root, role1);
    LeafGrow(ram1, ram2, root, role1, table, path[3], e);
    RightsGrowThen(ram, ram1, ram2, root);
    forall writing: bool | ParentsAllow(ram1, root, path, writing, 3) ensures ParentsAllow(ram2, root, path, writing, 3) {
      GrownParentsAllow(ram1, ram2, root, path, writing, 3);
    }
  }

  lemma FillPage(ram: Memory, ram1: Memory, root: Frame, role: Role, role1: Role, added: seq<Frame>,
                 supply: set<Frame>, table: Frame, path: seq<nat>, e: Pte)
    requires Grown(ram, ram1, role, role1, added, {}, supply) && SamePages(ram, ram1, root)
    requires Tree(ram1, root, role1) && FullPath(path) && table in role1 && role1[table] == path[..3] && table in ram1
    requires Descend(ram1, root, path[..3]) == Some(table)
    requires e.frame in ram1 && e.frame !in role1 && e.flags.present && |ram1[table]| == PAGE && path[3] < 512
    ensures
      var ram2 := ram1[table := SetEntry(ram1[table], path[3], e)];
      && Tree(ram2, root, role1[e.frame := path])
      && Walk(ram2, root, path) == Some(e) && SameOtherPages(ram, ram2, root, path)
      && Grown(ram, ram2, role, role1[e.frame := path], added, {e.frame}, supply)
  {
    hide EntryAt, SetEntry, Walk, Tree, SamePages, SameOtherPages, LowerPath, Grown, Touches, Descend;
    var ram2 := ram1[table := SetEntry(ram1[table], path[3], e)];
    TreeRoot(ram1, root, role1);
    NewPage(ram1, ram2, root, role1, table, path, e);
    TouchesOne(ram1, table, SetEntry(ram1[table], path[3], e));
    GrownPage(ram, ram1, ram2, role, role1, added, supply, table, e.frame, path);
    OtherPagesThen(ram, ram1, ram2, root, path);
  }

  lemma SamePagesSelf(ram: Memory, root: Frame)
    ensures SamePages(ram, ram, root)
  {
  }

  lemma SamePageAt(ram: Memory, ram': Memory, root: Frame, path: seq<nat>)
    requires SamePages(ram, ram', root) && FullPath(path)
    ensures Walk(ram', root, path) == Walk(ram, root, path)
  {
    hide Walk;
  }

  lemma OtherPagesThen(a: Memory, b: Memory, c: Memory, root: Frame, path: seq<nat>)
    requires SamePages(a, b, root) && SameOtherPages(b, c, root, path)
    ensures SameOtherPages(a, c, root, path)
  {
    hide Walk;
  }

  /** Filling an unused last-level entry maps that page and no other. */
  lemma NewPage(ram: Memory, ram': Memory, root: Frame, role: Role, table: Frame, path: seq<nat>, e: Pte)
    requires Tree(ram, root, role) && FullPath(path) && table in role && role[table] == path[..3]
    requires Descend(ram, root, path[..3]) == Some(table)
    requires e.frame in ram && e.frame !in role && e.flags.present && EntrySet(ram, ram', table, path[3], e)
    ensures Tree(ram', root, role[e.frame := path])
    ensures Walk(ram', root, path) == Some(e)
    ensures SameOtherPages(ram, ram', root, path)
  {
    hide EntryAt, SetEntry, Walk, Tree, LowerPath;
    var role' := role[e.frame := path];
    TreeRoot(ram, root, role);
    PrefixIndex(path, 3);
    assert path[..4] == path;
    ZeroedFrameJoins(ram, root, role, e.frame, path);
    EntryKeepsTree(ram, ram', root, role', table, path[3], e);
    forall q | FullPath(q) && q != path ensures Walk(ram', root, q) == Walk(ram, root, q) {
      assert role'[root] + q == q;
      LongPrefix(path, q);
      EntryKeepsOtherWalks(ram, ram', root, role', table, path[3], e, root, q);
    }
    assert role'[root] + path[..3] == path[..3];
    EntryKeepsOtherWalks(ram, ram', root, role', table, path[3], e, root, path[..3]);
    EntrySetReads(ram, ram', table, path[3], e, table, path[3]);
    WalkToEntry(ram', root, role', table, path[3]);
  }

  lemma LongPrefix(p: seq<nat>, q: seq<nat>)
    requires |p| == |q|
    ensures p <= q ==> p == q
  {
    assert q[..|q|] == q;
  }

  /** `update_flags`: only the page's own entry changes, and only its flags. */
  method UpdateFlags(ram: Memory, root: Frame, ghost role: Role, path: seq<nat>, flags: Flags)
    returns (ram': Memory, ok: bool)
    requires Tree(ram, root, role) && FullPath(path) && flags.present
    ensures Tree(ram', root, role) && SameUpper(ram, ram', root)
    ensures ok <==> Walk(ram, root, path).Some?
    ensures !ok ==> ram' == ram
    ensures ok ==>
              && Walk(ram', root, path) == Some(Pte(Walk(ram, root, path).value.frame, flags))
              && SameOtherPages(ram, ram', root, path)
              && Touches(ram, ram', set f | f in role && |role[f]| < 4)
    ensures RightsGrow(ram, ram', root)
  {
    hide EntryAt, SetEntry, Walk, Tree, LowerPath, Touches, UpperHalf, RightsGrow;
    RightsGrowSelf(ram, root);
    TreeRoot(ram, root, role);
    PrefixIndex(path, 3);
    assert path[..3] + path[3..] == path && role[root] + path[..3] + path[3..] == path && path[..4] == path;
    WalkVia(ram, root, role, root, path[..3], path[3..]);
    var table := Descend(ram, root, path[..3]);
    if table.None? {
      return ram, false;
    }
    assert role[root] + path[..3] == path[..3];
    WalkStays(ram, root, role, root, path[..3]);
    WalkToEntry(ram, root, role, table.value, path[3]);
    var entry := EntryAt(ram[table.value], path[3]);
    if entry.None? {
      return ram, false;
    }
    ChildIs(ram, root, role, table.value, path[3]);
    var e := Pte(entry.value.frame, flags);
    ram' := ram[table.value := SetEntry(ram[table.value], path[3], e)];
    ok := true;
    EntryKeepsTree(ram, ram', root, role, table.value, path[3], e);
    FlagsChanged(ram, ram', root, role, table.value, path, e);
    LeafGrow(ram, ram', root, role, table.value, path[3], e);
    TouchesOne(ram, table.value, SetEntry(ram[table.value], path[3], e));
    TouchesThen(ram, ram, ram', {}, {table.value}, set f | f in role && |role[f]| < 4);
    assert table.value != root;
  }

  lemma FlagsChanged(ram: Memory, ram': Memory, root: Frame, role: Role, table: Frame, path: seq<nat>, e: Pte)
    requires Tree(ram, root, role) && Tree(ram', root, role) && FullPath(path)
    requires table in role && role[table] == path[..3] && Descend(ram, root, path[..3]) == Some(table)
    requires EntrySet(ram, ram', table, path[3], e) && ChildOk(role, table, path[3], e)
    requires EntryAt(ram[table], path[3]).Some? && EntryAt(ram[table], path[3]).value.frame == e.frame
    ensures Walk(ram', root, path) == Some(e)
    ensures SameOtherPages(ram, ram', root, path)
  {
    hide EntryAt, SetEntry, Walk, Tree, LowerPath;
    TreeRoot(ram, root, role);
    PrefixIndex(path, 3);
    assert path[..4] == path;
    forall q | FullPath(q) && q != path ensures Walk(ram', root, q) == Walk(ram, root, q) {
      assert role[root] + q == q;
      SameTargetKeepsWalks(ram, ram', root, role, table, path[3], e, root, q);
    }
    assert role[root] + path[..3] == path[..3];
    SameTargetKeepsWalks(ram, ram', root, role, table, path[3], e, root, path[..3]);
    EntrySetReads(ram, ram', table, path[3], e, table, path[3]);
    WalkToEntry(ram', root, role, table, path[3]);
  }
}
