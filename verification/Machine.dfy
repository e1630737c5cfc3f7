/** Every address space of the machine over one physical memory: creation, mapping, copying and
    teardown, with the guarantee that no operation on one space shows through another
    (kernel/src/mm/address_space.rs, kernel/src/mm/frame_pool.rs). */
module Machines {
  import opened Options
  import opened Bytes
  import opened PhysicalMemory
  import opened PageTables
  import opened FrameAllocation
  import opened MapPages
  import opened AddressSpaces
  import opened Permissions

  /** The frames of live spaces, the kernel's own and those still to be handed out never meet. */
  ghost predicate Separate(roles: map<nat, Role>, kernel: set<Frame>, supply: set<Frame>) {
    && kernel !! supply
    && (forall a | a in roles :: roles[a].Keys !! kernel && roles[a].Keys !! supply)
    && (forall a, b | a in roles && b in roles && a != b :: roles[a].Keys !! roles[b].Keys)
  }

  ghost predicate AllSpacesOk(ram: Memory, spaces: map<nat, Space>, roles: map<nat, Role>, kernelRoot: Frame) {
    && spaces.Keys == roles.Keys
    && (forall a | a in spaces :: SpaceOk(ram, spaces[a], roles[a]))
    && (forall a | a in spaces :: SameUpperAs(ram, spaces[a].root, kernelRoot))
  }

  /** Two top tables map the kernel identically. */
  ghost predicate SameUpperAs(ram: Memory, root: Frame, other: Frame) {
    && root in ram && other in ram && |ram[root]| == PAGE && |ram[other]| == PAGE
    && UpperHalf(ram[root]) == UpperHalf(ram[other])
  }

  ghost predicate MachineOk(ram: Memory, spaces: map<nat, Space>, roles: map<nat, Role>, kernel: set<Frame>,
                            kernelRoot: Frame, supply: set<Frame>) {
    && MemoryOk(ram) && kernelRoot in kernel && kernel <= ram.Keys && supply <= ram.Keys
    && Separate(roles, kernel, supply)
    && AllSpacesOk(ram, spaces, roles, kernelRoot)
  }

  /** All a space can see of memory is as it was: its tables, its pages and its kernel half. */
  ghost predicate Untouched(ram: Memory, ram': Memory, role: Role) {
    forall f | f in role :: f in ram && f in ram' && ram'[f] == ram[f]
  }

  lemma UntouchedKeepsSpace(ram: Memory, ram': Memory, space: Space, role: Role)
    requires SpaceOk(ram, space, role) && Untouched(ram, ram', role) && MemoryOk(ram')
    ensures SpaceOk(ram', space, role)
  {
    TablesKeepTree(ram, ram', space.root, role);
  }

  /** What `Untouched` means to the process: every address translates and reads as before, and the
      kernel half is the same. */
  lemma UntouchedView(ram: Memory, ram': Memory, space: Space, role: Role, addr: nat)
    requires SpaceOk(ram, space, role) && Untouched(ram, ram', role) && MemoryOk(ram') && addr < LOWER_HALF_END
    ensures Walk(ram', space.root, PathOf(addr / PAGE)) == Walk(ram, space.root, PathOf(addr / PAGE))
    ensures ByteAt(ram', space.root, addr) == ByteAt(ram, space.root, addr)
    ensures SameUpper(ram, ram', space.root)
  {
    hide Walk, LowerPath, PathOf, UpperHalf;
    var root, page := space.root, addr / PAGE;
    assert page * PAGE <= addr;
    TreeRoot(ram, root, role);
    PathIsFull(page);
    assert role[root] + PathOf(page) == PathOf(page);
    TablesKeepWalks(ram, ram', root, role, root, PathOf(page));
    WalkStays(ram, root, role, root, PathOf(page));
  }

  /** One operation on space `id`: it wrote only frames of that space or fresh from the supply, and
      the space's frames after it are among those. */
  ghost predicate LocalStep(ram: Memory, ram': Memory, before: set<Frame>, after: set<Frame>, supply: set<Frame>, supply': set<Frame>) {
    && Touches(ram, ram', before + (supply - supply'))
    && after <= before + (supply - supply')
    && supply' <= supply
  }

  function FramesOf(roles: map<nat, Role>, id: nat): set<Frame> {
    if id in roles then roles[id].Keys else {}
  }

  lemma LocalStepIsolates(ram: Memory, ram': Memory, spaces: map<nat, Space>, roles: map<nat, Role>, kernel: set<Frame>,
                          kernelRoot: Frame, supply: set<Frame>, supply': set<Frame>, id: nat, after: set<Frame>)
    requires MachineOk(ram, spaces, roles, kernel, kernelRoot, supply)
    requires LocalStep(ram, ram', FramesOf(roles, id), after, supply, supply')
    ensures forall b | b in roles && b != id :: Untouched(ram, ram', roles[b])
    ensures forall f | f in kernel :: f in ram' && ram'[f] == ram[f]
  {
    hide SpaceOk, UpperHalf;
    forall b, f | b in roles && b != id && f in roles[b] ensures f in ram && f in ram' && ram'[f] == ram[f] {
      RoleInMemory(ram, spaces[b], roles[b]);
    }
  }

  lemma RoleInMemory(ram: Memory, space: Space, role: Role)
    requires SpaceOk(ram, space, role)
    ensures role.Keys <= ram.Keys && space.root in role
  {
  }

  lemma SeparateStep(roles: map<nat, Role>, kernel: set<Frame>, supply: set<Frame>, supply': set<Frame>, id: nat, role: Role)
    requires Separate(roles, kernel, supply) && supply' <= supply
    requires role.Keys <= FramesOf(roles, id) + (supply - supply') && role.Keys !! supply'
    ensures Separate(roles[id := role], kernel, supply')
  {
  }

  lemma LocalStepKeepsMachine(ram: Memory, ram': Memory, spaces: map<nat, Space>, roles: map<nat, Role>, kernel: set<Frame>,
                              kernelRoot: Frame, supply: set<Frame>, supply': set<Frame>, id: nat, space: Space, role: Role)
    requires MachineOk(ram, spaces, roles, kernel, kernelRoot, supply)
    requires LocalStep(ram, ram', FramesOf(roles, id), role.Keys, supply, supply')
    requires SpaceOk(ram', space, role) && SameUpperAs(ram', space.root, kernelRoot)
    requires role.Keys !! supply'
    ensures MachineOk(ram', spaces[id := space], roles[id := role], kernel, kernelRoot, supply')
  {
    hide SpaceOk, UpperHalf;
    LocalStepIsolates(ram, ram', spaces, roles, kernel, kernelRoot, supply, supply', id, role.Keys);
    var roles', spaces' := roles[id := role], spaces[id := space];
    SeparateStep(roles, kernel, supply, supply', id, role);
    hide Separate;
    forall a | a in spaces' ensures SpaceOk(ram', spaces'[a], roles'[a]) && SameUpperAs(ram', spaces'[a].root, kernelRoot) {
      if a != id {
        UntouchedKeepsSpace(ram, ram', spaces[a], roles[a]);
        RoleInMemory(ram, spaces[a], roles[a]);
      }
    }
  }

  datatype MapError = NotUserAddress | NotUserAccessible | OutOfMemory | NotMapped(addr: nat) | Paging

  datatype Outcome = Done | Failed(error: MapError)

  class Machine {
    var ram: Memory
    const allocator: FrameAllocator
    var spaces: map<nat, Space>
    var nextId: nat
    const kernelRoot: Frame
    ghost var roles: map<nat, Role>
    ghost var kernel: set<Frame>

    ghost predicate Valid()
      reads this, allocator
    {
      && allocator.Valid() && allocator.Distinct()
      && MachineOk(ram, spaces, roles, kernel, kernelRoot, allocator.Supply())
      && forall a | a in spaces :: a < nextId
    }

    /** Memory as the bootloader leaves it: the kernel's frames, and the rest described by a map of
        regions that do not overlap. */
    constructor (ram: Memory, regions: seq<Region>, kernelRoot: Frame, ghost kernel: set<Frame>)
      requires MemoryOk(ram) && kernelRoot in kernel && kernel <= ram.Keys
      requires GoodMap(regions) && SetOf(AllFrames(regions)) <= ram.Keys && SetOf(AllFrames(regions)) !! kernel
      ensures Valid() && spaces == map[] && fresh(allocator)
    {
      this.ram := ram;
      allocator := new FrameAllocator(regions);
      spaces, nextId := map[], 0;
      this.kernelRoot := kernelRoot;
      roles := map[];
      this.kernel := kernel;
      new;
      AllFramesDistinct(regions);
      assert allocator.Supply() == SetOf(AllFrames(regions));
    }

    /** A frame the kernel takes for itself: heap, task stacks, its own tables. */
    method TakeForKernel() returns (frame: Option<Frame>)
      requires Valid()
      modifies this`kernel, allocator`regionIndex, allocator`nextAddr, allocator`free
      ensures Valid()
      ensures frame.Some? ==> kernel == old(kernel) + {frame.value} && frame.value in old(allocator.Supply())
    {
      hide SpaceOk, AllSpacesOk;
      frame := allocator.Take();
      if frame.Some? {
        kernel := kernel + {frame.value};
      }
    }

    /** `AddressSpace::new`: a zeroed lower half and a copy of the kernel's half, taken from the
        top table active at the time, which is the kernel's or some live space's. */
    method NewSpace(active: Option<nat>) returns (id: Option<nat>)
      requires Valid() && (active.Some? ==> active.value in spaces)
      modifies this, allocator`regionIndex, allocator`nextAddr, allocator`free
      ensures Valid() && kernel == old(kernel)
      ensures id.None? ==> spaces == old(spaces) && roles == old(roles) && ram == old(ram) && old(allocator.Supply()) == {}
      ensures id.Some? ==>
                && id.value !in old(spaces) && id.value in spaces
                && spaces == old(spaces)[id.value := spaces[id.value]] && roles == old(roles)[id.value := roles[id.value]]
                && spaces[id.value].owned == []
                && (forall b | b in old(spaces) :: Untouched(old(ram), ram, roles[b]))
                && forall page: nat | page * PAGE < LOWER_HALF_END :: Walk(ram, spaces[id.value].root, PathOf(page)).None?
      ensures id.Some? ==> TablesExecute(ram, spaces[id.value].root)
    {
      hide MachineOk, Untouched, Walk, PathOf, FreshTop, SpaceOk, SameUpperAs, MemoryOk, NoRepeats, RootRole, TablesExecute;
      ghost var supply := allocator.Supply();
      var taken := allocator.Take();
      if taken.None? {
        return None;
      }
      var root := taken.value;
      var source := if active.Some? then spaces[active.value].root else kernelRoot;
      var handle := nextId;
      MachineFacts(ram, spaces, roles, kernel, kernelRoot, supply);
      SpaceBorn(ram, spaces, roles, kernel, kernelRoot, supply, allocator.Supply(), handle, root, source);
      ram := ram[root := FreshTop(ram[source])];
      spaces := spaces[handle := Space(root, [])];
      roles := roles[handle := RootRole(root)];
      nextId := nextId + 1;
      return Some(handle);
    }

    /** `map_page`: a fresh frame at an unmapped user page. Its bytes are whatever the frame held. */
    method MapPage(id: nat, page: nat, flags: Flags) returns (r: Outcome)
      requires Valid() && id in spaces && flags.present
      modifies this`ram, this`spaces, this`roles, allocator`regionIndex, allocator`nextAddr, allocator`free
      ensures Valid() && spaces.Keys == old(spaces.Keys) && spaces[id].root == old(spaces[id].root)
      ensures forall b | b in old(spaces) && b != id ::
                spaces[b] == old(spaces[b]) && roles[b] == old(roles[b]) && Untouched(old(ram), ram, old(roles[b]))
      ensures
        var root := spaces[id].root;
        match r
        case Done =>
          && page * PAGE < USER_SPACE_END && flags.user
          && Walk(old(ram), root, PathOf(page)).None?
          && Walk(ram, root, PathOf(page)).Some?
          && var e := Walk(ram, root, PathOf(page)).value;
             e.flags == flags && e.frame in old(allocator.Supply()) && e.frame in ram && ram[e.frame] == old(ram)[e.frame]
        case Failed(e) =>
          && (e.NotUserAddress? <==> page * PAGE >= USER_SPACE_END)
          && (e.NotUserAccessible? <==> page * PAGE < USER_SPACE_END && !flags.user)
          && (e.Paging? ==> Walk(old(ram), root, PathOf(page)).Some? || allocator.Supply() == {})
          && (e.OutOfMemory? ==> old(allocator.Supply()) == {} && allocator.Supply() == {})
          && !e.NotMapped?
      ensures r == Done ==> roles[id].Keys + allocator.Supply() == old(roles[id].Keys) + old(allocator.Supply())
      ensures RightsGrow(old(ram), ram, spaces[id].root)
      ensures r == Done ==> ParentsAllow(ram, spaces[id].root, PathOf(page), flags.writable, 3)
      ensures forall a: nat | a < LOWER_HALF_END && (r != Done || a / PAGE != page) ::
                ByteAt(ram, spaces[id].root, a) == ByteAt(old(ram), spaces[id].root, a)
      ensures forall q: nat | q * PAGE < LOWER_HALF_END && (r != Done || q != page) ::
                Walk(ram, spaces[id].root, PathOf(q)) == Walk(old(ram), spaces[id].root, PathOf(q))
    {
      hide MachineOk, Untouched, Walk, PathOf, SpaceOk, SameUpperAs, MemoryOk, NoRepeats, SamePages, SameOtherPages, Tree, Grown, SameUpper, ByteAt, SetOf, FullPath, RightsGrow, ParentsAllow,
        FrameAllocator.Supply, FrameAllocator.Distinct, FrameAllocator.Remaining, FrameAllocator.Valid;
      MachineFacts(ram, spaces, roles, kernel, kernelRoot, allocator.Supply());
      RightsGrowSelf(ram, spaces[id].root);
      UntouchedSelf(ram, spaces, roles, kernel, kernelRoot, allocator.Supply());
      if page * PAGE >= USER_SPACE_END {
        return Failed(NotUserAddress);
      }
      if !flags.user {
        return Failed(NotUserAccessible);
      }
      ghost var supply := allocator.Supply();
      var taken := allocator.Take();
      if taken.None? {
        return Failed(OutOfMemory);
      }
      var mapped := Install(id, page, flags, taken.value, supply);
      r := if mapped then Done else Failed(Paging);
    }

    /** The part of `map_page` after its frame was taken. A frame that cannot be mapped is lost; the
        tables made on the way to it are kept and owned. */
    method Install(id: nat, page: nat, flags: Flags, frame: Frame, ghost supply: set<Frame>) returns (mapped: bool)
      requires allocator.Valid() && allocator.Distinct() && (forall a | a in spaces :: a < nextId)
      requires MachineOk(ram, spaces, roles, kernel, kernelRoot, supply) && id in spaces && id in roles && flags.present
      requires frame in supply && allocator.Supply() == supply - {frame} && page * PAGE < LOWER_HALF_END
      modifies this`ram, this`spaces, this`roles, allocator`regionIndex, allocator`nextAddr, allocator`free
      ensures Valid() && spaces.Keys == old(spaces.Keys) && spaces[id].root == old(spaces[id].root)
      ensures id in roles && roles.Keys == old(roles.Keys)
      ensures forall b | b in old(roles) && b != id ::
                spaces[b] == old(spaces[b]) && roles[b] == old(roles[b]) && Untouched(old(ram), ram, old(roles[b]))
      ensures roles[id].Keys + allocator.Supply() + (if mapped then {} else {frame}) == old(roles[id].Keys) + supply
      ensures mapped ==>
                && Walk(old(ram), spaces[id].root, PathOf(page)).None?
                && Walk(ram, spaces[id].root, PathOf(page)) == Some(Pte(frame, flags))
                && frame in ram && frame in old(ram) && ram[frame] == old(ram)[frame]
      ensures !mapped ==> Walk(old(ram), spaces[id].root, PathOf(page)).Some? || allocator.Supply() == {}
      ensures RightsGrow(old(ram), ram, spaces[id].root)
      ensures mapped && flags.user ==> ParentsAllow(ram, spaces[id].root, PathOf(page), flags.writable, 3)
      ensures forall a: nat | a < LOWER_HALF_END && (!mapped || a / PAGE != page) ::
                ByteAt(ram, spaces[id].root, a) == ByteAt(old(ram), spaces[id].root, a)
      ensures forall q: nat | q * PAGE < LOWER_HALF_END && (!mapped || q != page) ::
                Walk(ram, spaces[id].root, PathOf(q)) == Walk(old(ram), spaces[id].root, PathOf(q))
    {
      hide MachineOk, Untouched, Walk, PathOf, SpaceOk, SameUpperAs, MemoryOk, NoRepeats, SamePages, SameOtherPages, Tree, Grown, SameUpper, ByteAt, SetOf, FullPath, RightsGrow, ParentsAllow,
        FrameAllocator.Supply, FrameAllocator.Distinct, FrameAllocator.Remaining, FrameAllocator.Valid;
      MachineFacts(ram, spaces, roles, kernel, kernelRoot, supply);
      ghost var ram0, role := ram, roles[id];
      var space := spaces[id];
      PathIsFull(page);
      OkSpaceTree(ram, space, role);
      ghost var role';
      var ram', added, result;
      ram', role', added, result := MapTo(ram, space.root, role, PathOf(page), frame, flags, allocator);
      mapped := result == Mapped;
      var owned := space.owned + (if mapped then [frame] else []) + added;
      PageMapped(ram0, ram', spaces, roles, kernel, kernelRoot, supply, allocator.Supply(), id, role', added, frame, mapped, owned);
      if mapped {
        BytesOutsideKept(ram0, ram', space.root, role, page);
      } else {
        AllBytesKept(ram0, ram', space.root, role);
      }
      ram := ram';
      spaces := spaces[id := Space(space.root, owned)];
      roles := roles[id := role'];
    }

    /** `protect_page`: new permissions on a mapped page; nothing else moves. */
    method ProtectPage(id: nat, page: nat, flags: Flags) returns (r: Outcome)
      requires Valid() && id in spaces && flags.present
      modifies this`ram
      ensures Valid()
      ensures forall b | b in spaces && b != id :: Untouched(old(ram), ram, roles[b])
      ensures forall a: nat | a < LOWER_HALF_END :: ByteAt(ram, spaces[id].root, a) == ByteAt(old(ram), spaces[id].root, a)
      ensures RightsGrow(old(ram), ram, spaces[id].root)
      ensures r == Done <==> page * PAGE < USER_SPACE_END && Walk(old(ram), spaces[id].root, PathOf(page)).Some?
      ensures r != Done ==> ram == old(ram) && r.error == if page * PAGE < USER_SPACE_END then Paging else NotUserAddress
      ensures r == Done ==>
                && Walk(ram, spaces[id].root, PathOf(page)) ==
                   Some(Pte(Walk(old(ram), spaces[id].root, PathOf(page)).value.frame, flags))
                && forall q: nat | q * PAGE < LOWER_HALF_END && q != page ::
                     Walk(ram, spaces[id].root, PathOf(q)) == Walk(old(ram), spaces[id].root, PathOf(q))
    {
      hide MachineOk, Untouched, Walk, PathOf, SpaceOk, SameUpperAs, MemoryOk, NoRepeats, SameOtherPages, Tree, SameUpper, Touches, ByteAt, RightsGrow,
        FrameAllocator.Supply, FrameAllocator.Distinct, FrameAllocator.Remaining, FrameAllocator.Valid;
      MachineFacts(ram, spaces, roles, kernel, kernelRoot, allocator.Supply());
      RightsGrowSelf(ram, spaces[id].root);
      UntouchedSelf(ram, spaces, roles, kernel, kernelRoot, allocator.Supply());
      if page * PAGE >= USER_SPACE_END {
        return Failed(NotUserAddress);
      }
      PathIsFull(page);
      ghost var role := roles[id];
      OkSpaceTree(ram, spaces[id], role);
      var ram', ok := UpdateFlags(ram, spaces[id].root, role, PathOf(page), flags);
      if !ok {
        return Failed(Paging);
      }
      ghost var tables := set f | f in role && |role[f]| < 4;
      TouchesLess(ram, ram', tables, role.Keys);
      TouchesLeaves(ram, ram', tables);
      InPlaceStep(ram, ram', spaces, roles, kernel, kernelRoot, allocator.Supply(), id);
      BytesOutsideKept(ram, ram', spaces[id].root, role, page);
      ProtectKeepsBytes(ram, ram', spaces[id].root, role, page);
      ram := ram';
      r := Done;
    }

    /** `write_at`: chunk by chunk through the physical window. What is written is exactly the bytes
        addressed, up to the first page that is not mapped. */
    method WriteAt(id: nat, addr: nat, bytes: seq<Byte>) returns (r: Outcome)
      requires Valid() && id in spaces && addr + |bytes| <= LOWER_HALF_END
      modifies this`ram
      ensures Valid()
      ensures forall b | b in spaces && b != id :: Untouched(old(ram), ram, roles[b])
      ensures forall q: nat | q * PAGE < LOWER_HALF_END ::
                Walk(ram, spaces[id].root, PathOf(q)) == Walk(old(ram), spaces[id].root, PathOf(q))
      ensures RightsGrow(old(ram), ram, spaces[id].root)
      ensures r == Done || (r.Failed? && r.error.NotMapped? && addr <= r.error.addr < addr + |bytes|
                            && ByteAt(old(ram), spaces[id].root, r.error.addr).None?)
      ensures
        var end := if r == Done then addr + |bytes| else r.error.addr;
        forall a: nat | a < LOWER_HALF_END ::
          ByteAt(ram, spaces[id].root, a) ==
          if addr <= a < end then Some(bytes[a - addr]) else ByteAt(old(ram), spaces[id].root, a)
    {
      hide MachineOk, Untouched, Walk, PathOf, SpaceOk, SameUpperAs, MemoryOk, NoRepeats, SamePages, Tree, ByteAt, Splice, RightsGrow,
        FrameAllocator.Supply, FrameAllocator.Distinct, FrameAllocator.Remaining, FrameAllocator.Valid;
      var root := spaces[id].root;
      var written := 0;
      MachineFacts(ram, spaces, roles, kernel, kernelRoot, allocator.Supply());
      RightsGrowSelf(ram, spaces[id].root);
      UntouchedSelf(ram, spaces, roles, kernel, kernelRoot, allocator.Supply());
      while written < |bytes|
        invariant written <= |bytes| && Valid() && RightsGrow(old(ram), ram, root)
        invariant forall b | b in spaces && b != id :: Untouched(old(ram), ram, roles[b])
        invariant forall q: nat | q * PAGE < LOWER_HALF_END :: Walk(ram, root, PathOf(q)) == Walk(old(ram), root, PathOf(q))
        invariant forall a: nat | a < LOWER_HALF_END ::
                    ByteAt(ram, root, a) ==
                    if addr <= a < addr + written then Some(bytes[a - addr]) else ByteAt(old(ram), root, a)
        decreases |bytes| - written
      {
        var target := addr + written;
        var pageOffset := target % PAGE;
        var chunk := if PAGE - pageOffset < |bytes| - written then PAGE - pageOffset else |bytes| - written;
        var entry := Walk(ram, root, PathOf(target / PAGE));
        UnmappedByte(ram, root, target);
        if entry.None? {
          return Failed(NotMapped(target));
        }
        var frame := entry.value.frame;
        ghost var ram1 := ram;
        ChunkStep(ram, spaces, roles, kernel, kernelRoot, allocator.Supply(), id, target, bytes[written..written + chunk]);
        ram := ram[frame := Splice(ram[frame], pageOffset, bytes[written..written + chunk])];
        forall b | b in spaces && b != id ensures Untouched(old(ram), ram, roles[b]) {
          UntouchedThen(old(ram), ram1, ram, roles[b]);
        }
        RightsGrowThen(old(ram), ram1, ram, root);
        written := written + chunk;
      }
      return Done;
    }

    /** `zero_at`: the same chunk loop, writing zeros. */
    method ZeroAt(id: nat, addr: nat, len: nat) returns (r: Outcome)
      requires Valid() && id in spaces && addr + len <= LOWER_HALF_END
      modifies this`ram
      ensures Valid()
      ensures forall b | b in spaces && b != id :: Untouched(old(ram), ram, roles[b])
      ensures forall q: nat | q * PAGE < LOWER_HALF_END ::
                Walk(ram, spaces[id].root, PathOf(q)) == Walk(old(ram), spaces[id].root, PathOf(q))
      ensures RightsGrow(old(ram), ram, spaces[id].root)
      ensures r == Done || (r.Failed? && r.error.NotMapped? && addr <= r.error.addr < addr + len
                            && ByteAt(old(ram), spaces[id].root, r.error.addr).None?)
      ensures
        var end := if r == Done then addr + len else r.error.addr;
        forall a: nat | a < LOWER_HALF_END ::
          ByteAt(ram, spaces[id].root, a) == if addr <= a < end then Some(0) else ByteAt(old(ram), spaces[id].root, a)
    {
      hide MachineOk, Untouched, Walk, PathOf, SpaceOk, NoRepeats, SamePages, Tree, ByteAt, RightsGrow,
        FrameAllocator.Supply, FrameAllocator.Distinct, FrameAllocator.Remaining, FrameAllocator.Valid;
      var zeros := seq(len, i => 0);
      r := WriteAt(id, addr, zeros);
    }

    /** `Drop`: every owned frame goes to the free list once, then the root. */
    method DropSpace(id: nat)
      requires Valid() && id in spaces
      modifies this`spaces, this`roles, allocator`free, allocator`released
      ensures Valid() && ram == old(ram)
      ensures spaces == old(spaces) - {id} && roles == old(roles) - {id}
      ensures allocator.free == old(allocator.free) + old(spaces[id].owned) + [old(spaces[id].root)]
      ensures allocator.released == old(allocator.released) + |old(spaces[id].owned)| + 1
      ensures allocator.Supply() == old(allocator.Supply()) + old(roles[id].Keys)
    {
      hide MachineOk, MemoryOk, Tree, SameUpperAs, NoRepeats, SpaceOk,
        FrameAllocator.Distinct, FrameAllocator.Valid, FrameAllocator.Supply, FrameAllocator.Remaining;
      MachineFacts(ram, spaces, roles, kernel, kernelRoot, allocator.Supply());
      SpaceGone(ram, spaces, roles, kernel, kernelRoot, allocator.Supply(), id);
      var space := spaces[id];
      var frames := space.owned + [space.root];
      OwnedOutside(ram, space, roles[id], allocator);
      allocator.ReleaseAll(frames);
      spaces := spaces - {id};
      roles := roles - {id};
    }

    /** `range_is_accessible`: page by page, yet the answer is about every address of the range. */
    method RangeIsAccessible(id: nat, start: nat, len: nat, requireWritable: bool) returns (ok: bool)
      requires Valid() && id in spaces
      ensures ok <==> len == 0 || (start + len <= USER_SPACE_END
                                   && forall a: nat | start <= a < start + len ::
                                        PageAccessible(ram, spaces[id].root, PathOf(a / PAGE), requireWritable))
    {
      hide PageAccessible, PathOf, MachineOk, FrameAllocator.Valid, FrameAllocator.Distinct;
      if len == 0 {
        return true;
      }
      var last := start + len - 1;
      if start >= USER_SPACE_END || last >= USER_SPACE_END {
        return false;
      }
      var root := spaces[id].root;
      var page := start / PAGE;
      var lastPage := last / PAGE;
      while true
        invariant start / PAGE <= page <= lastPage
        invariant forall a: nat | start <= a < start + len && a / PAGE < page :: PageAccessible(ram, root, PathOf(a / PAGE), requireWritable)
        decreases lastPage - page
      {
        if !PageAccessible(ram, root, PathOf(page), requireWritable) {
          ghost var refused := if page * PAGE < start then start else page * PAGE;
          assert refused / PAGE == page && start <= refused < start + len;
          return false;
        }
        if page == lastPage {
          return true;
        }
        page := page + 1;
      }
    }

    /** One operation of a run; operations on spaces that do not exist do nothing. */
    method Perform(op: Op, ghost watched: nat)
      requires Valid() && Allowed(op) && watched in spaces && !Targets(op, watched)
      modifies this, allocator
      ensures Valid() && watched in spaces && spaces[watched] == old(spaces[watched]) && roles[watched] == old(roles[watched])
      ensures Untouched(old(ram), ram, roles[watched])
    {
      hide MachineOk, Untouched, Walk, PathOf, SpaceOk, SameUpperAs, MemoryOk, SamePages, SameOtherPages, ByteAt,
        FrameAllocator.Distinct, FrameAllocator.Valid, FrameAllocator.Supply, FrameAllocator.Remaining;
      MachineFacts(ram, spaces, roles, kernel, kernelRoot, allocator.Supply());
      UntouchedSelf(ram, spaces, roles, kernel, kernelRoot, allocator.Supply());
      match op
      case KernelOp =>
        var _ := TakeForKernel();
      case CreateOp(active) =>
        if active.None? || active.value in spaces {
          var _ := NewSpace(active);
        }
      case MapOp(id, page, flags) =>
        if id in spaces {
          var _ := MapPage(id, page, flags);
        }
      case ProtectOp(id, page, flags) =>
        if id in spaces {
          var _ := ProtectPage(id, page, flags);
        }
      case WriteOp(id, addr, bytes) =>
        if id in spaces {
          var _ := WriteAt(id, addr, bytes);
        }
      case ZeroOp(id, addr, len) =>
        if id in spaces {
          var _ := ZeroAt(id, addr, len);
        }
      case DropOp(id) =>
        if id in spaces {
          DropSpace(id);
        }
    }

    /** Isolation over runs: whatever is created, mapped, protected, written, zeroed or dropped, in
        any order, a space that is not named sees the same memory throughout. */
    method Run(ops: seq<Op>, ghost watched: nat)
      requires Valid() && watched in spaces
      requires forall i | 0 <= i < |ops| :: Allowed(ops[i]) && !Targets(ops[i], watched)
      modifies this, allocator
      ensures Valid() && watched in spaces && spaces[watched] == old(spaces[watched])
      ensures forall addr: nat | addr < LOWER_HALF_END ::
                && Walk(ram, spaces[watched].root, PathOf(addr / PAGE)) == Walk(old(ram), spaces[watched].root, PathOf(addr / PAGE))
                && ByteAt(ram, spaces[watched].root, addr) == ByteAt(old(ram), spaces[watched].root, addr)
      ensures SameUpper(old(ram), ram, spaces[watched].root)
    {
      hide MachineOk, Untouched, Walk, PathOf, SpaceOk, SameUpperAs, MemoryOk, ByteAt, SameUpper,
        FrameAllocator.Distinct, FrameAllocator.Valid, FrameAllocator.Supply, FrameAllocator.Remaining;
      MachineFacts(ram, spaces, roles, kernel, kernelRoot, allocator.Supply());
      ghost var ram0, space, role := ram, spaces[watched], roles[watched];
      UntouchedSelf(ram, spaces, roles, kernel, kernelRoot, allocator.Supply());
      for i := 0 to |ops|
        invariant Valid() && watched in spaces && spaces[watched] == space
        invariant watched in roles && roles[watched] == role && Untouched(ram0, ram, role)
      {
        ghost var ram1 := ram;
        Perform(ops[i], watched);
        MachineFacts(ram, spaces, roles, kernel, kernelRoot, allocator.Supply());
        UntouchedThen(ram0, ram1, ram, role);
      }
      MachineFacts(ram, spaces, roles, kernel, kernelRoot, allocator.Supply());
      UntouchedView(ram0, ram, space, role, 0);
      forall addr: nat | addr < LOWER_HALF_END
        ensures Walk(ram, space.root, PathOf(addr / PAGE)) == Walk(ram0, space.root, PathOf(addr / PAGE))
        ensures ByteAt(ram, space.root, addr) == ByteAt(ram0, space.root, addr)
      {
        UntouchedView(ram0, ram, space, role, addr);
      }
    }
  }

  /** An accessible page of a space is mapped, to a frame of that space, with a permitting entry. */
  lemma {:induction false} AccessibleIsOwned(ram: Memory, root: Frame, role: Role, f: Frame, path: seq<nat>, requireWritable: bool)
    requires Tree(ram, root, role) && f in role && path != [] && LowerPath(role[f] + path) && |role[f] + path| == 4
    requires PageAccessible(ram, f, path, requireWritable)
    ensures Walk(ram, f, path).Some?
    ensures
      var e := Walk(ram, f, path).value;
      e.frame in role && role[e.frame] == role[f] + path && e.flags.user && (requireWritable ==> e.flags.writable)
    decreases |path|
  {
    hide EntryAt;
    StepIndex(role[f], path);
    var e := EntryAt(ram[f], path[0]).value;
    assert ChildOk(role, f, path[0], e);
    assert role[f] + path == role[f] + [path[0]] + path[1..];
    if |path| > 1 {
      AccessibleIsOwned(ram, root, role, e.frame, path[1..], requireWritable);
    }
  }

  datatype Op =
    | KernelOp
    | CreateOp(active: Option<nat>)
    | MapOp(id: nat, page: nat, flags: Flags)
    | ProtectOp(id: nat, page: nat, flags: Flags)
    | WriteOp(id: nat, addr: nat, bytes: seq<Byte>)
    | ZeroOp(id: nat, addr: nat, len: nat)
    | DropOp(id: nat)

  /** The callers' side: mapped pages are present, and copies stay in the lower half. */
  predicate Allowed(op: Op) {
    match op
    case MapOp(id, page, flags) => flags.present
    case ProtectOp(id, page, flags) => flags.present
    case WriteOp(id, addr, bytes) => addr + |bytes| <= LOWER_HALF_END
    case ZeroOp(id, addr, len) => addr + len <= LOWER_HALF_END
    case _ => true
  }

  predicate Targets(op: Op, id: nat) {
    match op
    case KernelOp => false
    case CreateOp(_) => false
    case _ => op.id == id
  }

  /** A space's frames, each once, are nowhere in the supply. */
  lemma OwnedOutside(ram: Memory, space: Space, role: Role, allocator: FrameAllocator)
    requires allocator.Valid() && SpaceOk(ram, space, role) && role.Keys !! allocator.Supply()
    ensures
      var frames := space.owned + [space.root];
      && NoRepeats(frames) && role.Keys == SetOf(frames)
      && forall f | f in frames :: f !in allocator.free && f !in allocator.Remaining()
  {
    hide Tree, FramesFrom, AllFrames;
    var frames := space.owned + [space.root];
    Joined(space.owned, [space.root]);
    assert role.Keys == SetOf(frames);
    forall f | f in frames ensures f !in allocator.free && f !in allocator.Remaining() {
      assert f in role.Keys;
      assert f !in allocator.Supply();
    }
  }

  lemma SpaceGone(ram: Memory, spaces: map<nat, Space>, roles: map<nat, Role>, kernel: set<Frame>, kernelRoot: Frame,
                  supply: set<Frame>, id: nat)
    requires MachineOk(ram, spaces, roles, kernel, kernelRoot, supply) && id in spaces
    ensures MachineOk(ram, spaces - {id}, roles - {id}, kernel, kernelRoot, supply + roles[id].Keys)
  {
    hide SpaceOk, SameUpperAs;
    RoleInMemory(ram, spaces[id], roles[id]);
  }

  lemma UnmappedByte(ram: Memory, root: Frame, addr: nat)
    ensures Walk(ram, root, PathOf(addr / PAGE)).None? ==> ByteAt(ram, root, addr).None?
  {
    hide Walk, PathOf;
  }

  lemma UntouchedThen(a: Memory, b: Memory, c: Memory, role: Role)
    requires Untouched(a, b, role) && Untouched(b, c, role)
    ensures Untouched(a, c, role)
  {
  }

  /** A step that changes only bytes of frames the space already has. */
  lemma InPlaceStep(ram: Memory, ram': Memory, spaces: map<nat, Space>, roles: map<nat, Role>, kernel: set<Frame>,
                    kernelRoot: Frame, supply: set<Frame>, id: nat)
    requires MachineOk(ram, spaces, roles, kernel, kernelRoot, supply) && id in spaces
    requires Touches(ram, ram', roles[id].Keys) && Tree(ram', spaces[id].root, roles[id])
    requires SameUpper(ram, ram', spaces[id].root)
    ensures MachineOk(ram', spaces, roles, kernel, kernelRoot, supply)
    ensures forall b | b in spaces && b != id :: Untouched(ram, ram', roles[b])
  {
    hide MachineOk, Untouched, Tree, UpperHalf, Touches;
    MachineFacts(ram, spaces, roles, kernel, kernelRoot, supply);
    assert supply - supply == {} && roles[id].Keys + {} == roles[id].Keys && FramesOf(roles, id) == roles[id].Keys;
    assert LocalStep(ram, ram', roles[id].Keys, roles[id].Keys, supply, supply);
    KernelUpperStays(ram, ram', spaces, roles, kernel, kernelRoot, supply, supply, id, roles[id]);
    LocalStepIsolates(ram, ram', spaces, roles, kernel, kernelRoot, supply, supply, id, roles[id].Keys);
    LocalStepKeepsMachine(ram, ram', spaces, roles, kernel, kernelRoot, supply, supply, id, spaces[id], roles[id]);
    assert spaces[id := spaces[id]] == spaces && roles[id := roles[id]] == roles;
  }

  lemma ChunkStep(ram: Memory, spaces: map<nat, Space>, roles: map<nat, Role>, kernel: set<Frame>, kernelRoot: Frame,
                  supply: set<Frame>, id: nat, target: nat, chunk: seq<Byte>)
    requires MachineOk(ram, spaces, roles, kernel, kernelRoot, supply) && id in spaces
    requires target < LOWER_HALF_END && target % PAGE + |chunk| <= PAGE
    requires Walk(ram, spaces[id].root, PathOf(target / PAGE)).Some?
    ensures
      var root := spaces[id].root;
      var frame := Walk(ram, root, PathOf(target / PAGE)).value.frame;
      && frame in ram && |ram[frame]| == PAGE
      && var ram' := ram[frame := Splice(ram[frame], target % PAGE, chunk)];
         && MachineOk(ram', spaces, roles, kernel, kernelRoot, supply) && RightsGrow(ram, ram', root)
         && (forall b | b in spaces && b != id :: Untouched(ram, ram', roles[b]))
         && (forall q: nat | q * PAGE < LOWER_HALF_END :: Walk(ram', root, PathOf(q)) == Walk(ram, root, PathOf(q)))
         && forall a: nat | a < LOWER_HALF_END ::
              ByteAt(ram', root, a) ==
              if target <= a < target + |chunk| then Some(chunk[a - target]) else ByteAt(ram, root, a)
  {
    hide MachineOk, Untouched, UpperHalf, Touches, Walk, PathOf, ByteAt, Splice, Tree, SamePages, RightsGrow;
    MachineFacts(ram, spaces, roles, kernel, kernelRoot, supply);
    var root, role := spaces[id].root, roles[id];
    OkSpaceTree(ram, spaces[id], role);
    ChunkWritten(ram, root, role, target, chunk);
    var frame := Walk(ram, root, PathOf(target / PAGE)).value.frame;
    var bytes := Splice(ram[frame], target % PAGE, chunk);
    var ram' := ram[frame := bytes];
    TreeRoot(ram, root, role);
    assert frame != root;
    TouchesOne(ram, frame, bytes);
    TouchesLess(ram, ram', {frame}, role.Keys);
    InPlaceStep(ram, ram', spaces, roles, kernel, kernelRoot, supply, id);
  }

  lemma OkSpaceTree(ram: Memory, space: Space, role: Role)
    requires SpaceOk(ram, space, role)
    ensures Tree(ram, space.root, role)
  {
  }

  lemma UntouchedSelf(ram: Memory, spaces: map<nat, Space>, roles: map<nat, Role>, kernel: set<Frame>, kernelRoot: Frame, supply: set<Frame>)
    requires MachineOk(ram, spaces, roles, kernel, kernelRoot, supply)
    ensures forall b | b in roles :: Untouched(ram, ram, roles[b])
    ensures forall b | b in roles :: roles[b].Keys <= ram.Keys
  {
    hide SpaceOk, UpperHalf;
    forall b | b in roles ensures roles[b].Keys <= ram.Keys {
      RoleInMemory(ram, spaces[b], roles[b]);
    }
  }

  /** A mapping attempt, successful or not, is a local step of its space. */
  lemma PageMapped(ram: Memory, ram': Memory, spaces: map<nat, Space>, roles: map<nat, Role>, kernel: set<Frame>,
                   kernelRoot: Frame, supply: set<Frame>, supply': set<Frame>, id: nat, role': Role, added: seq<Frame>,
                   frame: Frame, mapped: bool, owned: seq<Frame>)
    requires MachineOk(ram, spaces, roles, kernel, kernelRoot, supply) && id in spaces
    requires frame in supply && supply' == supply - {frame} - SetOf(added)
    requires Tree(ram', spaces[id].root, role') && SameUpper(ram, ram', spaces[id].root)
    requires Grown(ram, ram', roles[id], role', added, if mapped then {frame} else {}, supply - {frame})
    requires owned == spaces[id].owned + (if mapped then [frame] else []) + added
    ensures MachineOk(ram', spaces[id := Space(spaces[id].root, owned)], roles[id := role'], kernel, kernelRoot, supply')
    ensures forall b | b in roles && b != id :: Untouched(ram, ram', roles[b])
    ensures forall f | f in roles[id] && |roles[id][f]| == 4 :: f in role' && f in ram && f in ram' && ram'[f] == ram[f]
    ensures mapped ==> frame in ram && frame in ram' && ram'[frame] == ram[frame]
    ensures role'.Keys + supply' + (if mapped then {} else {frame}) == roles[id].Keys + supply
  {
    hide MachineOk, Untouched, Tree, UpperHalf, Touches;
    MachineFacts(ram, spaces, roles, kernel, kernelRoot, supply);
    UntouchedSelf(ram, spaces, roles, kernel, kernelRoot, supply);
    var role, root := roles[id], spaces[id].root;
    var tables := set f | f in role && |role[f]| < 4;
    GrownSpace(ram, ram', spaces[id], role, role', added, frame, mapped, owned, supply);
    TouchesLess(ram, ram', tables + SetOf(added), role.Keys + (supply - supply'));
    KernelUpperStays(ram, ram', spaces, roles, kernel, kernelRoot, supply, supply', id, role');
    LocalStepIsolates(ram, ram', spaces, roles, kernel, kernelRoot, supply, supply', id, role'.Keys);
    LocalStepKeepsMachine(ram, ram', spaces, roles, kernel, kernelRoot, supply, supply', id, Space(root, owned), role');
    TouchesLeaves(ram, ram', tables + SetOf(added));
    AllAccountedFor(ram, ram', role, role', added, frame, mapped, supply);
  }

  lemma AllAccountedFor(ram: Memory, ram': Memory, role: Role, role': Role, added: seq<Frame>, frame: Frame, mapped: bool, supply: set<Frame>)
    requires frame in supply && Grown(ram, ram', role, role', added, if mapped then {frame} else {}, supply - {frame})
    ensures role'.Keys + (supply - {frame} - SetOf(added)) + (if mapped then {} else {frame}) == role.Keys + supply
  {
    hide Touches, NoRepeats;
  }

  lemma TouchesLess(ram: Memory, ram': Memory, few: set<Frame>, many: set<Frame>)
    requires Touches(ram, ram', few) && few <= many
    ensures Touches(ram, ram', many)
  {
  }

  lemma TouchesLeaves(ram: Memory, ram': Memory, touched: set<Frame>)
    requires Touches(ram, ram', touched)
    ensures forall f | f in ram && f !in touched :: f in ram' && ram'[f] == ram[f]
  {
  }

  lemma GrownSpace(ram: Memory, ram': Memory, space: Space, role: Role, role': Role, added: seq<Frame>, frame: Frame,
                   mapped: bool, owned: seq<Frame>, supply: set<Frame>)
    requires SpaceOk(ram, space, role) && role.Keys !! supply && frame in supply
    requires Tree(ram', space.root, role')
    requires Grown(ram, ram', role, role', added, if mapped then {frame} else {}, supply - {frame})
    requires owned == space.owned + (if mapped then [frame] else []) + added
    ensures SpaceOk(ram', Space(space.root, owned), role')
    ensures role'.Keys !! (supply - {frame} - SetOf(added))
  {
    hide Tree, Touches, NoRepeats;
    var leaf := if mapped then [frame] else [];
    assert SetOf(leaf) == if mapped then {frame} else {};
    assert NoRepeats(leaf) by { OneHasNoRepeats(leaf); }
    NoRepeatsConcat(space.owned, leaf);
    NoRepeatsConcat(space.owned + leaf, added);
  }

  lemma OneHasNoRepeats(frames: seq<Frame>)
    requires |frames| <= 1
    ensures NoRepeats(frames)
  {
  }

  lemma NoRepeatsConcat(a: seq<Frame>, b: seq<Frame>)
    requires NoRepeats(a) && NoRepeats(b) && SetOf(a) !! SetOf(b)
    ensures NoRepeats(a + b) && SetOf(a + b) == SetOf(a) + SetOf(b)
  {
    forall i, j | 0 <= i < |a| && 0 <= j < |b| ensures a[i] != b[j] {
      assert a[i] in SetOf(a) && b[j] in SetOf(b);
    }
  }

  /** The kernel's table is not this space's to write, so the two upper halves still agree. */
  lemma KernelUpperStays(ram: Memory, ram': Memory, spaces: map<nat, Space>, roles: map<nat, Role>, kernel: set<Frame>,
                         kernelRoot: Frame, supply: set<Frame>, supply': set<Frame>, id: nat, role': Role)
    requires MachineOk(ram, spaces, roles, kernel, kernelRoot, supply) && id in spaces
    requires LocalStep(ram, ram', roles[id].Keys, role'.Keys, supply, supply')
    requires SameUpper(ram, ram', spaces[id].root)
    ensures SameUpperAs(ram', spaces[id].root, kernelRoot)
  {
    hide SpaceOk, UpperHalf;
    LocalStepIsolates(ram, ram', spaces, roles, kernel, kernelRoot, supply, supply', id, role'.Keys);
    assert SameUpperAs(ram, spaces[id].root, kernelRoot);
    assert ram'[kernelRoot] == ram[kernelRoot];
  }

  function RootRole(root: Frame): Role {
    map[root := []]
  }

  /** Facts about a good machine that need none of its page-table structure. */
  lemma MachineFacts(ram: Memory, spaces: map<nat, Space>, roles: map<nat, Role>, kernel: set<Frame>, kernelRoot: Frame, supply: set<Frame>)
    requires MachineOk(ram, spaces, roles, kernel, kernelRoot, supply)
    ensures spaces.Keys == roles.Keys && supply <= ram.Keys && MemoryOk(ram)
    ensures kernelRoot in ram && |ram[kernelRoot]| == PAGE
    ensures forall a | a in spaces :: SameUpperAs(ram, spaces[a].root, kernelRoot) && SpaceOk(ram, spaces[a], roles[a])
    ensures forall a | a in spaces :: roles[a].Keys !! supply
  {
    hide SpaceOk, UpperHalf;
  }

  lemma SpaceBorn(ram: Memory, spaces: map<nat, Space>, roles: map<nat, Role>, kernel: set<Frame>, kernelRoot: Frame,
                  supply: set<Frame>, supply': set<Frame>, handle: nat, root: Frame, source: Frame)
    requires MachineOk(ram, spaces, roles, kernel, kernelRoot, supply) && handle !in spaces
    requires root in supply && supply' == supply - {root}
    requires source == kernelRoot || exists a :: a in spaces && source == spaces[a].root
    ensures source in ram && |ram[source]| == PAGE
    ensures
      var ram' := ram[root := FreshTop(ram[source])];
      && MachineOk(ram', spaces[handle := Space(root, [])], roles[handle := RootRole(root)], kernel, kernelRoot, supply')
      && (forall b | b in spaces :: Untouched(ram, ram', roles[b]))
      && (forall page: nat | page * PAGE < LOWER_HALF_END :: Walk(ram', root, PathOf(page)).None?)
      && TablesExecute(ram', root)
  {
    hide SpaceOk, UpperHalf, Walk, PathOf, FreshTop, Untouched, Touches, MachineOk, TablesExecute;
    MachineFacts(ram, spaces, roles, kernel, kernelRoot, supply);
    var bytes := FreshTop(ram[source]);
    var ram' := ram[root := bytes];
    TouchesOne(ram, root, bytes);
    assert FramesOf(roles, handle) + (supply - supply') == {root};
    NewSpaceOk(ram, root, ram[source]);
    KernelRootStays(ram, spaces, roles, kernel, kernelRoot, supply, root);
    LocalStepIsolates(ram, ram', spaces, roles, kernel, kernelRoot, supply, supply', handle, {root});
    LocalStepKeepsMachine(ram, ram', spaces, roles, kernel, kernelRoot, supply, supply', handle, Space(root, []), RootRole(root));
  }

  lemma KernelRootStays(ram: Memory, spaces: map<nat, Space>, roles: map<nat, Role>, kernel: set<Frame>, kernelRoot: Frame,
                        supply: set<Frame>, f: Frame)
    requires MachineOk(ram, spaces, roles, kernel, kernelRoot, supply) && f in supply
    ensures f != kernelRoot
  {
    hide SpaceOk, UpperHalf;
  }

  /** A top table with an empty lower half and the upper half of `source`. */
  function FreshTop(source: seq<Byte>): (r: seq<Byte>)
    requires |source| == PAGE
    ensures |r| == PAGE
  {
    seq(2048, i => 0) + source[2048..]
  }

  lemma NewSpaceOk(ram: Memory, root: Frame, source: seq<Byte>)
    requires MemoryOk(ram) && root in ram && |source| == PAGE
    ensures
      var ram' := ram[root := FreshTop(source)];
      && SpaceOk(ram', Space(root, []), RootRole(root))
      && UpperHalf(ram'[root]) == UpperHalf(source)
      && (forall page: nat | page * PAGE < LOWER_HALF_END :: Walk(ram', root, PathOf(page)).None?)
      && TablesExecute(ram', root)
  {
    var ram' := ram[root := FreshTop(source)];
    forall i: nat | i < 256 ensures EntryAt(ram'[root], i).None? {
      AllZero(ram'[root][8 * i..8 * i + 8]);
    }
    forall q: seq<nat> | q != [] && |q| < 4 && LowerPath(q) ensures !Barred(ram', root, q) {
      assert q[0] < 256;
    }
    forall page: nat | page * PAGE < LOWER_HALF_END ensures Walk(ram', root, PathOf(page)).None? {
      PathIsFull(page);
      assert PathOf(page)[0] < 256;
    }
  }
}
