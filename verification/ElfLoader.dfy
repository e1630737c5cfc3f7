/** The ELF64 loader: from a file to a private address space (kernel/src/loader.rs). */
module ElfLoader {
  import opened Options
  import opened Bytes
  import opened PhysicalMemory
  import opened FrameAllocation
  import opened PageTables
  import opened AddressSpaces
  import opened Permissions
  import opened Machines

  const PT_LOAD: nat := 1
  const USER_STACK_BOTTOM_PAGE: nat := 0x7_fffe_fff0
  const USER_STACK_PAGES: nat := 16

  datatype LoadError = NotAnElf | BadSegment(index: nat) | Mapping(error: MapError) | OutOfMemory | Panicked

  // --- The file ------------------------------------------------------------------------------

  datatype Header = Header(entry: nat, phoff: nat, phentsize: nat, phnum: nat)

  function ParseHeader(bytes: seq<Byte>): Option<Header> {
    if |bytes| < 64 then None
    else if bytes[0..4] != [0x7F, 0x45, 0x4C, 0x46] then None
    else if bytes[4] != 2 || bytes[5] != 1 then None
    else if ReadLittleEndian(bytes, 16, 2) != 2 || ReadLittleEndian(bytes, 18, 2) != 0x3E then None
    else
      var phoff := ReadLittleEndian(bytes, 32, 8);
      var phentsize := ReadLittleEndian(bytes, 54, 2);
      var phnum := ReadLittleEndian(bytes, 56, 2);
      if phentsize < 56 || phoff + phnum * phentsize > |bytes| then None
      else Some(Header(ReadLittleEndian(bytes, 24, 8), phoff, phentsize, phnum))
  }

  /** One program header, as far as the loader reads it. */
  datatype Segment = Segment(kind: nat, flags: nat, offset: nat, vaddr: nat, filesz: nat, memsz: nat)

  predicate HeaderFits(bytes: seq<Byte>, h: Header) {
    h.phentsize >= 56 && h.phoff + h.phnum * h.phentsize <= |bytes|
  }

  lemma EntryFits(bytes: seq<Byte>, h: Header, i: nat)
    requires HeaderFits(bytes, h) && i < h.phnum
    ensures h.phoff + i * h.phentsize + 56 <= |bytes|
  {
    assert (i + 1) * h.phentsize <= h.phnum * h.phentsize;
  }

  function SegmentAt(bytes: seq<Byte>, h: Header, i: nat): Segment
    requires HeaderFits(bytes, h) && i < h.phnum
  {
    EntryFits(bytes, h, i);
    var at := h.phoff + i * h.phentsize;
    Segment(ReadLittleEndian(bytes, at, 4), ReadLittleEndian(bytes, at + 4, 4), ReadLittleEndian(bytes, at + 8, 8),
            ReadLittleEndian(bytes, at + 16, 8), ReadLittleEndian(bytes, at + 32, 8), ReadLittleEndian(bytes, at + 40, 8))
  }

  /** `segment_flags`: readable is required, writable and executable exclude each other. */
  function SegmentFlags(flags: nat, nx: bool): Option<Flags> {
    var executable := flags % 2 == 1;
    var writable := flags / 2 % 2 == 1;
    var readable := flags / 4 % 2 == 1;
    if !readable || (writable && executable) then None
    else Some(Flags(true, writable, true, false, !executable && nx))
  }

  /** The checks made on a segment before anything is mapped. */
  predicate SegmentOk(bytes: seq<Byte>, s: Segment, nx: bool) {
    && SegmentFlags(s.flags, nx).Some?
    && s.vaddr < USER_SPACE_END
    && s.filesz <= s.memsz
    && s.offset + s.filesz <= |bytes|
    && s.vaddr + s.memsz < TWO_64
  }

  predicate Loads(s: Segment) {
    s.kind == PT_LOAD && s.memsz > 0
  }

  function FirstPage(s: Segment): nat {
    s.vaddr / PAGE
  }

  function LastPage(s: Segment): nat
    requires s.memsz > 0
  {
    (s.vaddr + s.memsz - 1) / PAGE
  }

  predicate Covers(s: Segment, page: nat) {
    Loads(s) && FirstPage(s) <= page <= LastPage(s)
  }

  /** What memory holds in a segment's pages: the file's bytes where the file has them, else zero. */
  function SegmentByte(bytes: seq<Byte>, s: Segment, addr: nat): Byte
    requires s.offset + s.filesz <= |bytes|
  {
    if s.vaddr <= addr < s.vaddr + s.filesz then bytes[s.offset + (addr - s.vaddr)] else 0
  }

  predicate StackPage(page: nat) {
    USER_STACK_BOTTOM_PAGE <= page < USER_STACK_BOTTOM_PAGE + USER_STACK_PAGES
  }

  function StackFlags(nx: bool): Flags {
    Flags(true, true, true, false, nx)
  }

  /** No page of a program may be written and executed. */
  lemma FlagsAreExclusive(flags: nat, nx: bool)
    requires SegmentFlags(flags, nx).Some? && nx
    ensures !(SegmentFlags(flags, nx).value.writable && !SegmentFlags(flags, nx).value.noExecute)
    ensures !(StackFlags(nx).writable && !StackFlags(nx).noExecute)
  {
  }

  // --- Mapping ---------------------------------------------------------------------------------

  /** Pages `first..last` of the space: all mapped with `flags`. */
  ghost predicate RangeMapped(ram: Memory, root: Frame, first: nat, end: nat, flags: Flags) {
    forall page: nat | first <= page < end ::
      Walk(ram, root, PathOf(page)).Some? && Walk(ram, root, PathOf(page)).value.flags == flags
  }

  ghost predicate RangeUnmapped(ram: Memory, root: Frame, first: nat, end: nat) {
    forall page: nat | first <= page < end :: Walk(ram, root, PathOf(page)).None?
  }

  ghost predicate Clash(ram: Memory, root: Frame, first: nat, end: nat) {
    exists page: nat | first <= page < end && page * PAGE < LOWER_HALF_END :: Walk(ram, root, PathOf(page)).Some?
  }

  /** Outside the pages `first..end` nothing is mapped differently and no byte differs. */
  ghost predicate SameOutside(ram: Memory, ram': Memory, root: Frame, first: nat, end: nat) {
    && (forall q: nat | q * PAGE < LOWER_HALF_END && !(first <= q < end) :: Walk(ram', root, PathOf(q)) == Walk(ram, root, PathOf(q)))
    && (forall a: nat | a < LOWER_HALF_END && !(first <= a / PAGE < end) :: ByteAt(ram', root, a) == ByteAt(ram, root, a))
  }

  lemma SameOutsideSelf(ram: Memory, root: Frame, first: nat)
    ensures SameOutside(ram, ram, root, first, first) && RangeUnmapped(ram, root, first, first)
    ensures forall flags: Flags :: RangeMapped(ram, root, first, first, flags)
  {
  }

  lemma RangeGrows(ram0: Memory, ram1: Memory, ram2: Memory, root: Frame, first: nat, page: nat, flags: Flags)
    requires first <= page && page * PAGE < LOWER_HALF_END
    requires RangeUnmapped(ram0, root, first, page) && RangeMapped(ram1, root, first, page, flags)
    requires SameOutside(ram0, ram1, root, first, page)
    requires RangeUnmapped(ram1, root, page, page + 1) && RangeMapped(ram2, root, page, page + 1, flags)
    requires SameOutside(ram1, ram2, root, page, page + 1)
    ensures RangeUnmapped(ram0, root, first, page + 1) && RangeMapped(ram2, root, first, page + 1, flags)
    ensures SameOutside(ram0, ram2, root, first, page + 1)
  {
    hide Walk, PathOf, ByteAt;
  }

  /** Every other space is still there, and what it sees of memory has not changed. */
  ghost predicate OthersKept(ram: Memory, ram': Memory, spaces: map<nat, Space>, spaces': map<nat, Space>,
                             roles: map<nat, Role>, roles': map<nat, Role>, id: nat) {
    forall b | b in spaces && b in roles && b != id ::
      b in spaces' && b in roles' && spaces'[b] == spaces[b] && roles'[b] == roles[b] && Untouched(ram, ram', roles[b])
  }

  lemma OthersKeptThen(ram0: Memory, ram1: Memory, ram2: Memory, spaces0: map<nat, Space>, spaces1: map<nat, Space>,
                       spaces2: map<nat, Space>, roles0: map<nat, Role>, roles1: map<nat, Role>, roles2: map<nat, Role>, id: nat)
    requires OthersKept(ram0, ram1, spaces0, spaces1, roles0, roles1, id)
    requires OthersKept(ram1, ram2, spaces1, spaces2, roles1, roles2, id)
    ensures OthersKept(ram0, ram2, spaces0, spaces2, roles0, roles2, id)
  {
    hide Untouched;
    forall b | b in spaces0 && b in roles0 && b != id ensures Untouched(ram0, ram2, roles0[b]) {
      UntouchedThen(ram0, ram1, ram2, roles0[b]);
    }
  }

  /** Every mapped page can be reached by user code, for writing and executing as far as the tables above
      it go. */
  ghost predicate AllOpen(ram: Memory, root: Frame) {
    && TablesExecute(ram, root)
    && forall page: nat | page * PAGE < LOWER_HALF_END && Walk(ram, root, PathOf(page)).Some? ::
         ParentsAllow(ram, root, PathOf(page), true, 3)
  }

  lemma StaysOpen(ram: Memory, ram': Memory, root: Frame, page: nat, added: bool)
    requires AllOpen(ram, root) && RightsGrow(ram, ram', root)
    requires forall q: nat | q * PAGE < LOWER_HALF_END && (!added || q != page) ::
               Walk(ram', root, PathOf(q)).Some? ==> Walk(ram, root, PathOf(q)).Some?
    requires added ==> ParentsAllow(ram', root, PathOf(page), true, 3)
    ensures AllOpen(ram', root)
  {
    hide Walk, PathOf, ParentsAllow, RightsGrow, TablesExecute;
    GrownTablesExecute(ram, ram', root);
    forall q: nat | q * PAGE < LOWER_HALF_END && Walk(ram', root, PathOf(q)).Some?
      ensures ParentsAllow(ram', root, PathOf(q), true, 3)
    {
      if !added || q != page {
        PathIsFull(q);
        GrownParentsAllow(ram, ram', root, PathOf(q), true, 3);
      }
    }
  }

  lemma SpacesHaveRoles(machine: Machine)
    requires machine.Valid()
    ensures machine.spaces.Keys == machine.roles.Keys
  {
    hide FrameAllocator.Valid, FrameAllocator.Distinct, SpaceOk;
  }

  lemma OthersKeptSelf(machine: Machine, id: nat)
    requires machine.Valid()
    ensures OthersKept(machine.ram, machine.ram, machine.spaces, machine.spaces, machine.roles, machine.roles, id)
  {
    hide FrameAllocator.Valid, FrameAllocator.Distinct, MachineOk, Untouched;
    UntouchedSelf(machine.ram, machine.spaces, machine.roles, machine.kernel, machine.kernelRoot, machine.allocator.Supply());
  }

  /** `map_page` in terms of ranges. */
  method MapOne(machine: Machine, id: nat, page: nat, flags: Flags) returns (r: Outcome)
    requires machine.Valid() && id in machine.spaces && flags.present && flags.user
    requires flags.writable && AllOpen(machine.ram, machine.spaces[id].root)
    modifies machine, machine.allocator
    ensures machine.Valid() && machine.spaces.Keys == old(machine.spaces.Keys)
    ensures machine.spaces[id].root == old(machine.spaces[id].root)
    ensures OthersKept(old(machine.ram), machine.ram, old(machine.spaces), machine.spaces, old(machine.roles), machine.roles, id)
    ensures AllOpen(machine.ram, machine.spaces[id].root)
    ensures r != Done ==>
              || machine.allocator.Supply() == {} || page * PAGE >= USER_SPACE_END
              || Walk(old(machine.ram), machine.spaces[id].root, PathOf(page)).Some?
    ensures r == Done ==>
              && page * PAGE < USER_SPACE_END
              && RangeUnmapped(old(machine.ram), machine.spaces[id].root, page, page + 1)
              && RangeMapped(machine.ram, machine.spaces[id].root, page, page + 1, flags)
              && SameOutside(old(machine.ram), machine.ram, machine.spaces[id].root, page, page + 1)
  {
    hide Walk, PathOf, ByteAt, Machine.Valid, Untouched, RightsGrow, ParentsAllow, AllOpen, FrameAllocator.Supply;
    ghost var ram0 := machine.ram;
    r := machine.MapPage(id, page, flags);
    StaysOpen(ram0, machine.ram, machine.spaces[id].root, page, r == Done);
    assert machine.Valid();
    SpacesHaveRoles(machine);
  }

  /** The loader's record of the pages it has mapped so far. */
  ghost predicate Tracks(mapped: set<nat>, ram: Memory, root: Frame) {
    forall page: nat | page * PAGE < LOWER_HALF_END :: page in mapped <==> Walk(ram, root, PathOf(page)).Some?
  }

  lemma TracksNext(mapped: set<nat>, ram: Memory, ram': Memory, root: Frame, page: nat, flags: Flags)
    requires Tracks(mapped, ram, root) && RangeMapped(ram', root, page, page + 1, flags) && SameOutside(ram, ram', root, page, page + 1)
    ensures Tracks(mapped + {page}, ram', root)
  {
    hide Walk, PathOf, ByteAt;
    assert RangeMapped(ram', root, page, page + 1, flags) ==> Walk(ram', root, PathOf(page)).Some?;
  }

  lemma Shared(mapped: set<nat>, ram0: Memory, ram: Memory, root: Frame, first: nat, page: nat, end: nat)
    requires first <= page < end && page in mapped && page * PAGE < LOWER_HALF_END
    requires Tracks(mapped, ram, root) && SameOutside(ram0, ram, root, first, page)
    ensures Clash(ram0, root, first, end)
  {
    hide Walk, PathOf, ByteAt;
  }

  lemma NotYetMapped(mapped: set<nat>, ram: Memory, root: Frame, page: nat)
    requires Tracks(mapped, ram, root) && page !in mapped
    ensures page * PAGE < LOWER_HALF_END ==> Walk(ram, root, PathOf(page)).None?
  {
    hide Walk, PathOf;
  }

  /** Maps a run of pages, stopping at the first that cannot be, or that an earlier segment of the
      same file already has. */
  method MapRange(machine: Machine, id: nat, first: nat, end: nat, flags: Flags, mapped: set<nat>, index: nat)
    returns (error: Option<LoadError>, mapped': set<nat>)
    requires machine.Valid() && id in machine.spaces && flags.present && flags.user && first <= end
    requires flags.writable && AllOpen(machine.ram, machine.spaces[id].root)
    requires first * PAGE < USER_SPACE_END
    requires Tracks(mapped, machine.ram, machine.spaces[id].root)
    modifies machine, machine.allocator
    ensures machine.Valid() && machine.spaces.Keys == old(machine.spaces.Keys)
    ensures machine.spaces[id].root == old(machine.spaces[id].root)
    ensures OthersKept(old(machine.ram), machine.ram, old(machine.spaces), machine.spaces, old(machine.roles), machine.roles, id)
    ensures AllOpen(machine.ram, machine.spaces[id].root)
    ensures error.None? ==>
              && Tracks(mapped', machine.ram, machine.spaces[id].root)
              && (first < end ==> end * PAGE <= USER_SPACE_END)
              && RangeUnmapped(old(machine.ram), machine.spaces[id].root, first, end)
              && RangeMapped(machine.ram, machine.spaces[id].root, first, end, flags)
              && SameOutside(old(machine.ram), machine.ram, machine.spaces[id].root, first, end)
    ensures error.Some? && error.value.Mapping? ==> machine.allocator.Supply() == {} || end * PAGE > USER_SPACE_END
    ensures error.Some? ==> error.value == BadSegment(index) || error.value.Mapping?
    ensures error == Some(BadSegment(index)) ==> Clash(old(machine.ram), machine.spaces[id].root, first, end)
  {
    hide Walk, PathOf, ByteAt, Machine.Valid, RangeUnmapped, RangeMapped, SameOutside, Tracks, Untouched, OthersKept, Clash, AllOpen, FrameAllocator.Supply;
    ghost var ram0, root := machine.ram, machine.spaces[id].root;
    ghost var spaces0, roles0 := machine.spaces, machine.roles;
    OthersKeptSelf(machine, id);
    SameOutsideSelf(ram0, root, first);
    mapped' := mapped;
    for page := first to end
      invariant machine.Valid() && machine.spaces.Keys == old(machine.spaces.Keys) && machine.spaces[id].root == root
      invariant first < page ==> page * PAGE <= USER_SPACE_END
      invariant Tracks(mapped', machine.ram, root) && AllOpen(machine.ram, root)
      invariant RangeUnmapped(ram0, root, first, page)
      invariant RangeMapped(machine.ram, root, first, page, flags)
      invariant SameOutside(ram0, machine.ram, root, first, page)
      invariant OthersKept(ram0, machine.ram, spaces0, machine.spaces, roles0, machine.roles, id)
    {
      if page in mapped' {
        Shared(mapped', ram0, machine.ram, root, first, page, end);
        return Some(BadSegment(index)), mapped';
      }
      ghost var ram1, spaces1, roles1 := machine.ram, machine.spaces, machine.roles;
      var one := MapOne(machine, id, page, flags);
      OthersKeptThen(ram0, ram1, machine.ram, spaces0, spaces1, machine.spaces, roles0, roles1, machine.roles, id);
      if one != Done {
        NotYetMapped(mapped', ram1, root, page);
        return Some(Mapping(one.error)), mapped';
      }
      TracksNext(mapped', ram1, machine.ram, root, page, flags);
      RangeGrows(ram0, ram1, machine.ram, root, first, page, flags);
      mapped' := mapped' + {page};
    }
    return None, mapped';
  }

  ghost predicate PagesThere(ram: Memory, root: Frame, first: nat, end: nat) {
    forall page: nat | first <= page < end :: Walk(ram, root, PathOf(page)).Some?
  }

  lemma PageThere(ram: Memory, root: Frame, first: nat, end: nat, page: nat)
    requires first <= page < end
    ensures PagesThere(ram, root, first, end) ==> Walk(ram, root, PathOf(page)).Some?
  {
    hide Walk, PathOf;
  }

  /** A mapped byte is there to be read and written. */
  lemma ByteThere(machine: Machine, id: nat, first: nat, end: nat, a: nat)
    requires machine.Valid() && id in machine.spaces && first * PAGE <= a < end * PAGE && a < LOWER_HALF_END
    requires PagesThere(machine.ram, machine.spaces[id].root, first, end)
    ensures ByteAt(machine.ram, machine.spaces[id].root, a).Some?
  {
    hide Walk, PathOf, FrameAllocator.Valid, FrameAllocator.Distinct, MachineOk, Tree;
    PageBounds(a, first, end);
    PageThere(machine.ram, machine.spaces[id].root, first, end, a / PAGE);
    MachineFacts(machine.ram, machine.spaces, machine.roles, machine.kernel, machine.kernelRoot, machine.allocator.Supply());
    OkSpaceTree(machine.ram, machine.spaces[id], machine.roles[id]);
    ChunkWritten(machine.ram, machine.spaces[id].root, machine.roles[id], a, []);
  }

  lemma AllThere(machine: Machine, id: nat, first: nat, end: nat)
    requires machine.Valid() && id in machine.spaces && end * PAGE <= LOWER_HALF_END
    requires PagesThere(machine.ram, machine.spaces[id].root, first, end)
    ensures forall a: nat | first * PAGE <= a < end * PAGE :: ByteAt(machine.ram, machine.spaces[id].root, a).Some?
  {
    hide ByteAt, PagesThere, Machine.Valid;
    forall a: nat | first * PAGE <= a < end * PAGE ensures ByteAt(machine.ram, machine.spaces[id].root, a).Some? {
      ByteThere(machine, id, first, end, a);
    }
  }

  lemma MappedThere(ram: Memory, root: Frame, first: nat, end: nat, flags: Flags)
    requires RangeMapped(ram, root, first, end, flags)
    ensures PagesThere(ram, root, first, end)
  {
    hide Walk, PathOf;
  }

  lemma StillThere(ram: Memory, ram': Memory, root: Frame, first: nat, end: nat)
    requires PagesThere(ram, root, first, end) && end * PAGE <= LOWER_HALF_END
    requires forall q: nat | q * PAGE < LOWER_HALF_END :: Walk(ram', root, PathOf(q)) == Walk(ram, root, PathOf(q))
    ensures PagesThere(ram', root, first, end)
  {
    hide Walk, PathOf;
  }

  /** Gives a run of mapped pages its final permissions. */
  method ProtectRange(machine: Machine, id: nat, first: nat, end: nat, flags: Flags) returns (r: Outcome)
    requires machine.Valid() && id in machine.spaces && flags.present && first <= end && AllOpen(machine.ram, machine.spaces[id].root)
    modifies machine, machine.allocator
    ensures machine.Valid() && machine.spaces == old(machine.spaces)
    ensures OthersKept(old(machine.ram), machine.ram, old(machine.spaces), machine.spaces, old(machine.roles), machine.roles, id)
    ensures AllOpen(machine.ram, machine.spaces[id].root)
    ensures first < end && end * PAGE <= USER_SPACE_END && PagesThere(old(machine.ram), machine.spaces[id].root, first, end) ==> r == Done
    ensures r == Done ==>
              && RangeMapped(machine.ram, machine.spaces[id].root, first, end, flags)
              && (forall q: nat | q * PAGE < LOWER_HALF_END && !(first <= q < end) ::
                    Walk(machine.ram, machine.spaces[id].root, PathOf(q)) == Walk(old(machine.ram), machine.spaces[id].root, PathOf(q)))
    ensures forall a: nat | a < LOWER_HALF_END ::
              ByteAt(machine.ram, machine.spaces[id].root, a) == ByteAt(old(machine.ram), machine.spaces[id].root, a)
  {
    hide Walk, PathOf, ByteAt, Machine.Valid, Untouched, OthersKept, RightsGrow, ParentsAllow, AllOpen;
    ghost var ram0, root := machine.ram, machine.spaces[id].root;
    ghost var spaces0, roles0 := machine.spaces, machine.roles;
    OthersKeptSelf(machine, id);
    for page := first to end
      invariant machine.Valid() && machine.spaces == old(machine.spaces) && machine.roles == old(machine.roles)
      invariant OthersKept(ram0, machine.ram, spaces0, machine.spaces, roles0, machine.roles, id)
      invariant RangeMapped(machine.ram, root, first, page, flags) && AllOpen(machine.ram, root)
      invariant forall q: nat | q * PAGE < LOWER_HALF_END && !(first <= q < page) ::
                  Walk(machine.ram, root, PathOf(q)) == Walk(ram0, root, PathOf(q))
      invariant forall a: nat | a < LOWER_HALF_END :: ByteAt(machine.ram, root, a) == ByteAt(ram0, root, a)
      invariant first < page ==> page * PAGE <= USER_SPACE_END
    {
      ghost var ram1 := machine.ram;
      var one := machine.ProtectPage(id, page, flags);
      OthersUntouched(machine, ram1, id);
      StaysOpen(ram1, machine.ram, root, page, false);
      OthersKeptThen(ram0, ram1, machine.ram, spaces0, spaces0, spaces0, roles0, roles0, roles0, id);
      if one != Done {
        PageThere(ram0, root, first, end, page);
        return one;
      }
    }
    return Done;
  }

  lemma OthersUntouched(machine: Machine, ram: Memory, id: nat)
    requires forall b | b in machine.spaces && b in machine.roles && b != id :: Untouched(ram, machine.ram, machine.roles[b])
    ensures OthersKept(ram, machine.ram, machine.spaces, machine.spaces, machine.roles, machine.roles, id)
  {
    hide Untouched;
  }

  // --- One segment -------------------------------------------------------------------------------

  /** The segment is in place: its pages were free, are mapped with its permissions, and hold its
      bytes and zeros; nothing else in the space changed. */
  ghost predicate SegmentPlaced(ram: Memory, ram': Memory, root: Frame, bytes: seq<Byte>, s: Segment, nx: bool)
    requires Loads(s) && SegmentOk(bytes, s, nx)
  {
    && (LastPage(s) + 1) * PAGE <= USER_SPACE_END
    && RangeUnmapped(ram, root, FirstPage(s), LastPage(s) + 1)
    && RangeMapped(ram', root, FirstPage(s), LastPage(s) + 1, SegmentFlags(s.flags, nx).value)
    && SameOutside(ram, ram', root, FirstPage(s), LastPage(s) + 1)
    && (forall a: nat | FirstPage(s) * PAGE <= a < (LastPage(s) + 1) * PAGE ::
          ByteAt(ram', root, a) == Some(SegmentByte(bytes, s, a)))
  }

  lemma SegmentBounds(s: Segment)
    requires s.memsz > 0 && s.filesz <= s.memsz
    ensures FirstPage(s) <= LastPage(s)
    ensures FirstPage(s) * PAGE <= s.vaddr && s.vaddr + s.filesz <= s.vaddr + s.memsz <= (LastPage(s) + 1) * PAGE
    ensures forall a: nat :: FirstPage(s) * PAGE <= a < (LastPage(s) + 1) * PAGE <==> FirstPage(s) <= a / PAGE < LastPage(s) + 1
  {
    forall a: nat ensures FirstPage(s) * PAGE <= a < (LastPage(s) + 1) * PAGE <==> FirstPage(s) <= a / PAGE < LastPage(s) + 1 {
      PageBounds(a, FirstPage(s), LastPage(s) + 1);
    }
  }

  lemma PageBounds(a: nat, first: nat, end: nat)
    ensures first * PAGE <= a < end * PAGE <==> first <= a / PAGE < end
  {
  }

  const HIGHER_HALF_START: nat := 0xffff_8000_0000_0000

  method PlaceSegment(machine: Machine, id: nat, bytes: seq<Byte>, s: Segment, nx: bool, mapped: set<nat>, index: nat)
    returns (error: Option<LoadError>, mapped': set<nat>)
    requires machine.Valid() && id in machine.spaces && Loads(s) && SegmentOk(bytes, s, nx)
    requires Tracks(mapped, machine.ram, machine.spaces[id].root) && AllOpen(machine.ram, machine.spaces[id].root)
    modifies machine, machine.allocator
    ensures machine.Valid() && machine.spaces.Keys == old(machine.spaces.Keys)
    ensures machine.spaces[id].root == old(machine.spaces[id].root)
    ensures OthersKept(old(machine.ram), machine.ram, old(machine.spaces), machine.spaces, old(machine.roles), machine.roles, id)
    ensures AllOpen(machine.ram, machine.spaces[id].root)
    ensures error.None? ==>
              && Tracks(mapped', machine.ram, machine.spaces[id].root)
              && SegmentPlaced(old(machine.ram), machine.ram, machine.spaces[id].root, bytes, s, nx)
    ensures error == Some(BadSegment(index)) ==> Clash(old(machine.ram), machine.spaces[id].root, FirstPage(s), LastPage(s) + 1)
    ensures error.Some? ==> error.value == BadSegment(index) || error.value.Mapping? || error.value.Panicked?
    ensures error.Some? && error.value.Mapping? ==> machine.allocator.Supply() == {} || (LastPage(s) + 1) * PAGE > USER_SPACE_END
    ensures error == Some(Panicked) <==> LOWER_HALF_END <= s.vaddr + s.memsz - 1 < HIGHER_HALF_START
  {
    hide Walk, PathOf, ByteAt, Machine.Valid, Untouched, RangeMapped, RangeUnmapped, Tracks, OthersKept, Clash, RightsGrow, ParentsAllow, AllOpen, PagesThere, FrameAllocator.Supply;
    SegmentBounds(s);
    ghost var spaces0, roles0 := machine.spaces, machine.roles;
    OthersKeptSelf(machine, id);
    mapped' := mapped;
    if LOWER_HALF_END <= s.vaddr + s.memsz - 1 < HIGHER_HALF_START {
      return Some(Panicked), mapped';
    }
    var first, end := FirstPage(s), LastPage(s) + 1;
    var loadFlags := Flags(true, true, true, false, false);
    ghost var ram0, root := machine.ram, machine.spaces[id].root;
    error, mapped' := MapRange(machine, id, first, end, loadFlags, mapped, index);
    if error.Some? {
      return;
    }
    ghost var ram1, spaces1, roles1 := machine.ram, machine.spaces, machine.roles;
    MappedThere(ram1, root, first, end, loadFlags);
    AllThere(machine, id, first, end);
    var zeroed := machine.ZeroAt(id, first * PAGE, end * PAGE - first * PAGE);
    OthersUntouched(machine, ram1, id);
    StaysOpen(ram1, machine.ram, root, 0, false);
    StillThere(ram1, machine.ram, root, first, end);
    AllThere(machine, id, first, end);
    OthersKeptThen(ram0, ram1, machine.ram, spaces0, spaces1, spaces1, roles0, roles1, roles1, id);
    assert zeroed == Done; // its pages were all mapped just now
    ghost var ram2 := machine.ram;
    var written := machine.WriteAt(id, s.vaddr, bytes[s.offset..s.offset + s.filesz]);
    OthersUntouched(machine, ram2, id);
    StaysOpen(ram2, machine.ram, root, 0, false);
    StillThere(ram2, machine.ram, root, first, end);
    OthersKeptThen(ram0, ram2, machine.ram, spaces0, spaces1, spaces1, roles0, roles1, roles1, id);
    assert written == Done;
    ghost var ram3 := machine.ram;
    var final := SegmentFlags(s.flags, nx).value;
    var protected := ProtectRange(machine, id, first, end, final);
    OthersKeptThen(ram0, ram3, machine.ram, spaces0, spaces1, machine.spaces, roles0, roles1, machine.roles, id);
    assert protected == Done;
    Composed(ram0, ram1, ram2, ram3, machine.ram, root, bytes, s, nx);
    TracksStays(mapped', ram1, ram2, ram3, machine.ram, root, first, end, loadFlags, final);
  }

  lemma TracksStays(mapped: set<nat>, ram1: Memory, ram2: Memory, ram3: Memory, ram4: Memory, root: Frame,
                    first: nat, end: nat, before: Flags, after: Flags)
    requires Tracks(mapped, ram1, root)
    requires RangeMapped(ram1, root, first, end, before) && RangeMapped(ram4, root, first, end, after)
    requires forall q: nat | q * PAGE < LOWER_HALF_END :: Walk(ram2, root, PathOf(q)) == Walk(ram1, root, PathOf(q))
    requires forall q: nat | q * PAGE < LOWER_HALF_END :: Walk(ram3, root, PathOf(q)) == Walk(ram2, root, PathOf(q))
    requires forall q: nat | q * PAGE < LOWER_HALF_END && !(first <= q < end) :: Walk(ram4, root, PathOf(q)) == Walk(ram3, root, PathOf(q))
    ensures Tracks(mapped, ram4, root)
  {
    hide Walk, PathOf;
  }

  lemma Composed(ram0: Memory, ram1: Memory, ram2: Memory, ram3: Memory, ram4: Memory, root: Frame, bytes: seq<Byte>, s: Segment, nx: bool)
    requires Loads(s) && SegmentOk(bytes, s, nx) && (LastPage(s) + 1) * PAGE <= USER_SPACE_END
    requires RangeUnmapped(ram0, root, FirstPage(s), LastPage(s) + 1)
    requires SameOutside(ram0, ram1, root, FirstPage(s), LastPage(s) + 1)
    requires forall q: nat | q * PAGE < LOWER_HALF_END :: Walk(ram2, root, PathOf(q)) == Walk(ram1, root, PathOf(q))
    requires forall a: nat | a < LOWER_HALF_END ::
               ByteAt(ram2, root, a) ==
               if FirstPage(s) * PAGE <= a < (LastPage(s) + 1) * PAGE then Some(0) else ByteAt(ram1, root, a)
    requires forall q: nat | q * PAGE < LOWER_HALF_END :: Walk(ram3, root, PathOf(q)) == Walk(ram2, root, PathOf(q))
    requires forall a: nat | a < LOWER_HALF_END ::
               ByteAt(ram3, root, a) ==
               if s.vaddr <= a < s.vaddr + s.filesz then Some(bytes[s.offset..s.offset + s.filesz][a - s.vaddr]) else ByteAt(ram2, root, a)
    requires RangeMapped(ram4, root, FirstPage(s), LastPage(s) + 1, SegmentFlags(s.flags, nx).value)
    requires forall q: nat | q * PAGE < LOWER_HALF_END && !(FirstPage(s) <= q < LastPage(s) + 1) ::
               Walk(ram4, root, PathOf(q)) == Walk(ram3, root, PathOf(q))
    requires forall a: nat | a < LOWER_HALF_END :: ByteAt(ram4, root, a) == ByteAt(ram3, root, a)
    ensures SegmentPlaced(ram0, ram4, root, bytes, s, nx)
  {
    hide Walk, PathOf, ByteAt, RangeMapped, RangeUnmapped;
    SegmentBounds(s);
    var first, end := FirstPage(s), LastPage(s) + 1;
    assert SameOutside(ram0, ram4, root, first, end) by {
      forall a: nat | a < LOWER_HALF_END && !(first <= a / PAGE < end) ensures ByteAt(ram4, root, a) == ByteAt(ram0, root, a) {
        PageBounds(a, first, end);
      }
    }
  }

  // --- The whole file ----------------------------------------------------------------------------

  /** After the first `n` program headers: what is mapped is exactly the loaded segments, each with
      its own pages, permissions and bytes. */
  ghost predicate Loaded(ram: Memory, root: Frame, bytes: seq<Byte>, h: Header, nx: bool, n: nat) {
    && HeaderFits(bytes, h) && n <= h.phnum
    && (forall i: nat | i < n && SegmentAt(bytes, h, i).kind == PT_LOAD :: SegmentOk(bytes, SegmentAt(bytes, h, i), nx))
    && (forall page: nat | page * PAGE < LOWER_HALF_END ::
          Walk(ram, root, PathOf(page)).Some? <==> exists i: nat | i < n :: Covers(SegmentAt(bytes, h, i), page))
    && (forall i: nat, page: nat | i < n && Covers(SegmentAt(bytes, h, i), page) ::
          PageInPlace(ram, root, bytes, SegmentAt(bytes, h, i), nx, page))
    && (forall i: nat, j: nat, page: nat | i < j < n ::
          !(Covers(SegmentAt(bytes, h, i), page) && Covers(SegmentAt(bytes, h, j), page)))
  }

  ghost predicate PageInPlace(ram: Memory, root: Frame, bytes: seq<Byte>, s: Segment, nx: bool, page: nat) {
    && page * PAGE < USER_SPACE_END && SegmentOk(bytes, s, nx)
    && Walk(ram, root, PathOf(page)).Some? && Walk(ram, root, PathOf(page)).value.flags == SegmentFlags(s.flags, nx).value
    && (forall a: nat | a / PAGE == page :: ByteAt(ram, root, a) == Some(SegmentByte(bytes, s, a)))
  }

  lemma LoadedSkip(ram: Memory, root: Frame, bytes: seq<Byte>, h: Header, nx: bool, n: nat)
    requires Loaded(ram, root, bytes, h, nx, n) && n < h.phnum
    requires SegmentAt(bytes, h, n).kind == PT_LOAD ==> SegmentOk(bytes, SegmentAt(bytes, h, n), nx) && SegmentAt(bytes, h, n).memsz == 0
    ensures Loaded(ram, root, bytes, h, nx, n + 1)
  {
    hide Walk, PathOf, PageInPlace, SegmentAt, SegmentOk, Covers;
    forall page: nat ensures !Covers(SegmentAt(bytes, h, n), page) {
      EmptyCoversNothing(SegmentAt(bytes, h, n), page);
    }
    forall page: nat | page * PAGE < LOWER_HALF_END
      ensures Walk(ram, root, PathOf(page)).Some? <==> exists i: nat | i < n + 1 :: Covers(SegmentAt(bytes, h, i), page)
    {
      assert Walk(ram, root, PathOf(page)).Some? <==> exists i: nat | i < n :: Covers(SegmentAt(bytes, h, i), page);
    }
  }

  lemma EmptyCoversNothing(s: Segment, page: nat)
    requires !Loads(s)
    ensures !Covers(s, page)
  {
  }

  lemma OldPageStays(ram: Memory, ram': Memory, root: Frame, bytes: seq<Byte>, s: Segment, t: Segment, nx: bool, page: nat)
    requires PageInPlace(ram, root, bytes, s, nx, page) && Loads(t) && SegmentOk(bytes, t, nx)
    requires SegmentPlaced(ram, ram', root, bytes, t, nx)
    ensures !Covers(t, page) && PageInPlace(ram', root, bytes, s, nx, page)
  {
    hide Walk, PathOf, ByteAt, SegmentByte;
    forall a: nat | a / PAGE == page ensures ByteAt(ram', root, a) == Some(SegmentByte(bytes, s, a)) {
      PageBounds(a, page, page + 1);
      assert a < LOWER_HALF_END;
    }
  }

  lemma NewPageInPlace(ram: Memory, ram': Memory, root: Frame, bytes: seq<Byte>, t: Segment, nx: bool, page: nat)
    requires Loads(t) && SegmentOk(bytes, t, nx) && SegmentPlaced(ram, ram', root, bytes, t, nx) && Covers(t, page)
    ensures PageInPlace(ram', root, bytes, t, nx, page)
  {
    hide Walk, PathOf, ByteAt, SegmentByte;
    assert page * PAGE < (LastPage(t) + 1) * PAGE;
    forall a: nat | a / PAGE == page ensures ByteAt(ram', root, a) == Some(SegmentByte(bytes, t, a)) {
      PageBounds(a, FirstPage(t), LastPage(t) + 1);
    }
  }

  lemma MappedAfter(ram: Memory, ram': Memory, root: Frame, bytes: seq<Byte>, t: Segment, nx: bool, page: nat)
    requires Loads(t) && SegmentOk(bytes, t, nx) && SegmentPlaced(ram, ram', root, bytes, t, nx) && page * PAGE < LOWER_HALF_END
    ensures Walk(ram', root, PathOf(page)).Some? <==> Covers(t, page) || Walk(ram, root, PathOf(page)).Some?
  {
    hide Walk, PathOf, ByteAt, SegmentByte;
  }

  lemma LoadedNext(ram: Memory, ram': Memory, root: Frame, bytes: seq<Byte>, h: Header, nx: bool, n: nat)
    requires Loaded(ram, root, bytes, h, nx, n) && n < h.phnum
    requires Loads(SegmentAt(bytes, h, n)) && SegmentOk(bytes, SegmentAt(bytes, h, n), nx)
    requires SegmentPlaced(ram, ram', root, bytes, SegmentAt(bytes, h, n), nx)
    ensures Loaded(ram', root, bytes, h, nx, n + 1)
  {
    hide Walk, PathOf, PageInPlace, SegmentAt, SegmentOk, SegmentPlaced, Covers;
    var t := SegmentAt(bytes, h, n);
    forall i: nat, page: nat | i < n + 1 && Covers(SegmentAt(bytes, h, i), page)
      ensures PageInPlace(ram', root, bytes, SegmentAt(bytes, h, i), nx, page)
    {
      if i < n {
        OldPageStays(ram, ram', root, bytes, SegmentAt(bytes, h, i), t, nx, page);
      } else {
        NewPageInPlace(ram, ram', root, bytes, t, nx, page);
      }
    }
    forall i: nat, j: nat, page: nat | i < j < n + 1
      ensures !(Covers(SegmentAt(bytes, h, i), page) && Covers(SegmentAt(bytes, h, j), page))
    {
      if j == n && Covers(SegmentAt(bytes, h, i), page) {
        OldPageStays(ram, ram', root, bytes, SegmentAt(bytes, h, i), t, nx, page);
      }
    }
    forall page: nat | page * PAGE < LOWER_HALF_END
      ensures Walk(ram', root, PathOf(page)).Some? <==> exists i: nat | i < n + 1 :: Covers(SegmentAt(bytes, h, i), page)
    {
      MappedAfter(ram, ram', root, bytes, t, nx, page);
      assert Walk(ram, root, PathOf(page)).Some? <==> exists i: nat | i < n :: Covers(SegmentAt(bytes, h, i), page);
      assert Covers(t, page) ==> exists i: nat | i < n + 1 :: Covers(SegmentAt(bytes, h, i), page);
    }
  }

  /** ELF load correctness, for the whole file and its stack. */
  ghost predicate LoadedWithStack(ram: Memory, root: Frame, bytes: seq<Byte>, h: Header, nx: bool) {
    && HeaderFits(bytes, h)
    && (forall page: nat | page * PAGE < LOWER_HALF_END ::
          Walk(ram, root, PathOf(page)).Some? <==>
          StackPage(page) || exists i: nat | i < h.phnum :: Covers(SegmentAt(bytes, h, i), page))
    && (forall i: nat, page: nat | i < h.phnum && Covers(SegmentAt(bytes, h, i), page) ::
          !StackPage(page) && PageInPlace(ram, root, bytes, SegmentAt(bytes, h, i), nx, page))
    && (forall i: nat, j: nat, page: nat | i < j < h.phnum ::
          !(Covers(SegmentAt(bytes, h, i), page) && Covers(SegmentAt(bytes, h, j), page)))
    && (forall page: nat | StackPage(page) :: StackPageInPlace(ram, root, nx, page))
  }

  ghost predicate StackPageInPlace(ram: Memory, root: Frame, nx: bool, page: nat) {
    && Walk(ram, root, PathOf(page)).Some? && Walk(ram, root, PathOf(page)).value.flags == StackFlags(nx)
    && (forall a: nat | a / PAGE == page :: ByteAt(ram, root, a) == Some(0))
  }

  // --- The stack ---------------------------------------------------------------------------------

  ghost predicate StackPlaced(ram: Memory, ram': Memory, root: Frame, nx: bool) {
    var first, end := USER_STACK_BOTTOM_PAGE, USER_STACK_BOTTOM_PAGE + USER_STACK_PAGES;
    && RangeUnmapped(ram, root, first, end) && RangeMapped(ram', root, first, end, StackFlags(nx))
    && SameOutside(ram, ram', root, first, end)
    && (forall a: nat | first * PAGE <= a < end * PAGE :: ByteAt(ram', root, a) == Some(0))
  }

  method PlaceStack(machine: Machine, id: nat, nx: bool) returns (r: Outcome)
    requires machine.Valid() && id in machine.spaces && AllOpen(machine.ram, machine.spaces[id].root)
    modifies machine, machine.allocator
    ensures machine.Valid() && machine.spaces.Keys == old(machine.spaces.Keys)
    ensures machine.spaces[id].root == old(machine.spaces[id].root)
    ensures OthersKept(old(machine.ram), machine.ram, old(machine.spaces), machine.spaces, old(machine.roles), machine.roles, id)
    ensures AllOpen(machine.ram, machine.spaces[id].root)
    ensures r != Done ==>
              || machine.allocator.Supply() == {}
              || exists page: nat :: StackPage(page) && Walk(old(machine.ram), machine.spaces[id].root, PathOf(page)).Some?
    ensures r == Done ==> StackPlaced(old(machine.ram), machine.ram, machine.spaces[id].root, nx)
  {
    hide Walk, PathOf, ByteAt, Machine.Valid, RangeUnmapped, RangeMapped, SameOutside, Untouched, OthersKept, RightsGrow, ParentsAllow, AllOpen, PagesThere, FrameAllocator.Supply;
    ghost var ram0, root := machine.ram, machine.spaces[id].root;
    ghost var spaces0, roles0 := machine.spaces, machine.roles;
    var first, end := USER_STACK_BOTTOM_PAGE, USER_STACK_BOTTOM_PAGE + USER_STACK_PAGES;
    OthersKeptSelf(machine, id);
    SameOutsideSelf(ram0, root, first);
    for page := first to end
      invariant machine.Valid() && machine.spaces.Keys == old(machine.spaces.Keys) && machine.spaces[id].root == root
      invariant RangeUnmapped(ram0, root, first, page) && AllOpen(machine.ram, root)
      invariant RangeMapped(machine.ram, root, first, page, StackFlags(nx))
      invariant SameOutside(ram0, machine.ram, root, first, page)
      invariant OthersKept(ram0, machine.ram, spaces0, machine.spaces, roles0, machine.roles, id)
    {
      ghost var ram1, spaces1, roles1 := machine.ram, machine.spaces, machine.roles;
      r := MapOne(machine, id, page, StackFlags(nx));
      OthersKeptThen(ram0, ram1, machine.ram, spaces0, spaces1, machine.spaces, roles0, roles1, machine.roles, id);
      if r != Done {
        OutsideSame(ram0, ram1, root, first, page, page);
        return;
      }
      RangeGrows(ram0, ram1, machine.ram, root, first, page, StackFlags(nx));
    }
    ghost var ram1, spaces1, roles1 := machine.ram, machine.spaces, machine.roles;
    MappedThere(ram1, root, first, end, StackFlags(nx));
    AllThere(machine, id, first, end);
    r := machine.ZeroAt(id, first * PAGE, USER_STACK_PAGES * PAGE);
    OthersUntouched(machine, ram1, id);
    StaysOpen(ram1, machine.ram, root, 0, false);
    OthersKeptThen(ram0, ram1, machine.ram, spaces0, spaces1, spaces1, roles0, roles1, roles1, id);
    if r == Done {
      StackZeroed(ram0, ram1, machine.ram, root, nx);
    }
  }

  lemma OutsideSame(ram: Memory, ram': Memory, root: Frame, first: nat, end: nat, q: nat)
    requires SameOutside(ram, ram', root, first, end) && !(first <= q < end) && q * PAGE < LOWER_HALF_END
    ensures Walk(ram', root, PathOf(q)) == Walk(ram, root, PathOf(q))
  {
    hide Walk, PathOf, ByteAt;
  }

  lemma StackZeroed(ram0: Memory, ram1: Memory, ram2: Memory, root: Frame, nx: bool)
    requires RangeUnmapped(ram0, root, USER_STACK_BOTTOM_PAGE, USER_STACK_BOTTOM_PAGE + USER_STACK_PAGES)
    requires RangeMapped(ram1, root, USER_STACK_BOTTOM_PAGE, USER_STACK_BOTTOM_PAGE + USER_STACK_PAGES, StackFlags(nx))
    requires SameOutside(ram0, ram1, root, USER_STACK_BOTTOM_PAGE, USER_STACK_BOTTOM_PAGE + USER_STACK_PAGES)
    requires forall q: nat | q * PAGE < LOWER_HALF_END :: Walk(ram2, root, PathOf(q)) == Walk(ram1, root, PathOf(q))
    requires forall a: nat | a < LOWER_HALF_END ::
               ByteAt(ram2, root, a) ==
               if USER_STACK_BOTTOM_PAGE * PAGE <= a < (USER_STACK_BOTTOM_PAGE + USER_STACK_PAGES) * PAGE then Some(0) else ByteAt(ram1, root, a)
    ensures StackPlaced(ram0, ram2, root, nx)
  {
    hide Walk, PathOf, ByteAt, RangeUnmapped;
    forall a: nat | a < LOWER_HALF_END && !StackPage(a / PAGE) ensures ByteAt(ram2, root, a) == ByteAt(ram0, root, a) {
      PageBounds(a, USER_STACK_BOTTOM_PAGE, USER_STACK_BOTTOM_PAGE + USER_STACK_PAGES);
    }
  }

  lemma StackPageThere(ram: Memory, ram': Memory, root: Frame, nx: bool, page: nat)
    requires StackPlaced(ram, ram', root, nx) && StackPage(page)
    ensures StackPageInPlace(ram', root, nx, page) && Walk(ram, root, PathOf(page)).None?
  {
    hide Walk, PathOf, ByteAt;
    forall a: nat | a / PAGE == page ensures ByteAt(ram', root, a) == Some(0) {
      PageBounds(a, USER_STACK_BOTTOM_PAGE, USER_STACK_BOTTOM_PAGE + USER_STACK_PAGES);
    }
  }

  lemma SegmentPageStays(ram: Memory, ram': Memory, root: Frame, bytes: seq<Byte>, s: Segment, nx: bool, page: nat)
    requires StackPlaced(ram, ram', root, nx) && PageInPlace(ram, root, bytes, s, nx, page)
    ensures !StackPage(page) && PageInPlace(ram', root, bytes, s, nx, page)
  {
    hide Walk, PathOf, ByteAt, SegmentByte;
    forall a: nat | a / PAGE == page ensures ByteAt(ram', root, a) == Some(SegmentByte(bytes, s, a)) {
      PageBounds(a, page, page + 1);
      assert a < LOWER_HALF_END;
    }
  }

  lemma OtherPageStays(ram: Memory, ram': Memory, root: Frame, nx: bool, page: nat)
    requires StackPlaced(ram, ram', root, nx) && !StackPage(page) && page * PAGE < LOWER_HALF_END
    ensures Walk(ram', root, PathOf(page)) == Walk(ram, root, PathOf(page))
  {
    hide Walk, PathOf, ByteAt;
  }

  lemma StackLast(ram: Memory, ram': Memory, root: Frame, bytes: seq<Byte>, h: Header, nx: bool)
    requires Loaded(ram, root, bytes, h, nx, h.phnum) && StackPlaced(ram, ram', root, nx)
    ensures LoadedWithStack(ram', root, bytes, h, nx)
  {
    hide Walk, PathOf, PageInPlace, SegmentAt, SegmentOk, StackPlaced, Covers, StackPage, StackPageInPlace;
    forall i: nat, page: nat | i < h.phnum && Covers(SegmentAt(bytes, h, i), page)
      ensures !StackPage(page) && PageInPlace(ram', root, bytes, SegmentAt(bytes, h, i), nx, page)
    {
      SegmentPageStays(ram, ram', root, bytes, SegmentAt(bytes, h, i), nx, page);
    }
    forall page: nat | StackPage(page) ensures StackPageInPlace(ram', root, nx, page) {
      StackPageThere(ram, ram', root, nx, page);
    }
    forall page: nat | page * PAGE < LOWER_HALF_END
      ensures Walk(ram', root, PathOf(page)).Some? <==>
              StackPage(page) || exists i: nat | i < h.phnum :: Covers(SegmentAt(bytes, h, i), page)
    {
      assert Walk(ram, root, PathOf(page)).Some? <==> exists i: nat | i < h.phnum :: Covers(SegmentAt(bytes, h, i), page);
      if StackPage(page) {
        StackPageThere(ram, ram', root, nx, page);
        StackPageMapped(ram', root, nx, page);
      } else {
        OtherPageStays(ram, ram', root, nx, page);
      }
    }
  }

  lemma StackPageMapped(ram: Memory, root: Frame, nx: bool, page: nat)
    requires StackPageInPlace(ram, root, nx, page)
    ensures Walk(ram, root, PathOf(page)).Some?
  {
  }

  /** With NX, no page of a loaded program is both writable and executable. */
  lemma LoadedIsExclusive(ram: Memory, root: Frame, bytes: seq<Byte>, h: Header, page: nat)
    requires LoadedWithStack(ram, root, bytes, h, true) && page * PAGE < LOWER_HALF_END
    requires Walk(ram, root, PathOf(page)).Some?
    ensures
      var flags := Walk(ram, root, PathOf(page)).value.flags;
      flags.user && !(flags.writable && !flags.noExecute)
  {
    hide Walk, PathOf, SegmentAt, ByteAt;
    if StackPage(page) {
      assert StackPageInPlace(ram, root, true, page);
    } else {
      var i: nat :| i < h.phnum && Covers(SegmentAt(bytes, h, i), page);
      assert PageInPlace(ram, root, bytes, SegmentAt(bytes, h, i), true, page);
      FlagsAreExclusive(SegmentAt(bytes, h, i).flags, true);
    }
  }

  // --- load_image --------------------------------------------------------------------------------

  datatype LoadResult = Image(id: nat, entry: nat, stackTop: nat) | Refused(error: LoadError)

  lemma NothingLoaded(ram: Memory, root: Frame, bytes: seq<Byte>, h: Header, nx: bool)
    requires ParseHeader(bytes) == Some(h)
    requires forall page: nat | page * PAGE < LOWER_HALF_END :: Walk(ram, root, PathOf(page)).None?
    ensures Loaded(ram, root, bytes, h, nx, 0) && Tracks({}, ram, root)
  {
    hide Walk, PathOf;
  }

  lemma NothingOpen(ram: Memory, root: Frame)
    requires forall page: nat | page * PAGE < LOWER_HALF_END :: Walk(ram, root, PathOf(page)).None?
    requires TablesExecute(ram, root)
    ensures AllOpen(ram, root)
  {
    hide Walk, PathOf, ParentsAllow;
  }

  /** A segment that meets a mapped page shares it with an earlier segment. */
  lemma ClashIsShared(ram: Memory, root: Frame, bytes: seq<Byte>, h: Header, nx: bool, n: nat)
    requires Loaded(ram, root, bytes, h, nx, n) && n < h.phnum && Loads(SegmentAt(bytes, h, n))
    requires Clash(ram, root, FirstPage(SegmentAt(bytes, h, n)), LastPage(SegmentAt(bytes, h, n)) + 1)
    ensures SharesPage(bytes, h, n)
  {
    hide Walk, PathOf, PageInPlace, SegmentAt, SegmentOk;
    var t := SegmentAt(bytes, h, n);
    var page: nat :| FirstPage(t) <= page < LastPage(t) + 1 && page * PAGE < LOWER_HALF_END && Walk(ram, root, PathOf(page)).Some?;
    assert Covers(t, page);
  }

  ghost predicate SharesPage(bytes: seq<Byte>, h: Header, n: nat)
    requires HeaderFits(bytes, h) && n < h.phnum
  {
    exists i: nat, page: nat | i < n :: Covers(SegmentAt(bytes, h, i), page) && Covers(SegmentAt(bytes, h, n), page)
  }

  /** Loads the file's segments, in the order of their headers, into an empty space. */
  method LoadSegments(machine: Machine, id: nat, bytes: seq<Byte>, h: Header, nx: bool) returns (error: Option<LoadError>)
    requires machine.Valid() && id in machine.spaces && ParseHeader(bytes) == Some(h)
    requires forall page: nat | page * PAGE < LOWER_HALF_END :: Walk(machine.ram, machine.spaces[id].root, PathOf(page)).None?
    requires TablesExecute(machine.ram, machine.spaces[id].root)
    modifies machine, machine.allocator
    ensures machine.Valid() && machine.spaces.Keys == old(machine.spaces.Keys)
    ensures machine.spaces[id].root == old(machine.spaces[id].root)
    ensures OthersKept(old(machine.ram), machine.ram, old(machine.spaces), machine.spaces, old(machine.roles), machine.roles, id)
    ensures HeaderFits(bytes, h) && AllOpen(machine.ram, machine.spaces[id].root)
    ensures error.None? ==> Loaded(machine.ram, machine.spaces[id].root, bytes, h, nx, h.phnum)
    ensures error.Some? ==> Blames(bytes, h, nx, error.value, machine.allocator.Supply() == {})
  {
    hide Walk, PathOf, Machine.Valid, Untouched, OthersKept, Loaded, SegmentAt, SegmentOk, Tracks, SharesPage, SegmentPlaced, Clash, AllOpen, TablesExecute, FrameAllocator.Supply;
    ghost var ram0, root, spaces0, roles0 := machine.ram, machine.spaces[id].root, machine.spaces, machine.roles;
    OthersKeptSelf(machine, id);
    NothingLoaded(ram0, root, bytes, h, nx);
    NothingOpen(ram0, root);
    var mapped: set<nat> := {};
    for i := 0 to h.phnum
      invariant machine.Valid() && machine.spaces.Keys == old(machine.spaces.Keys) && machine.spaces[id].root == root
      invariant OthersKept(ram0, machine.ram, spaces0, machine.spaces, roles0, machine.roles, id)
      invariant Loaded(machine.ram, root, bytes, h, nx, i) && Tracks(mapped, machine.ram, root) && AllOpen(machine.ram, root)
    {
      var s := SegmentAt(bytes, h, i);
      if s.kind == PT_LOAD && !SegmentOk(bytes, s, nx) {
        return Some(BadSegment(i));
      }
      if !Loads(s) {
        LoadedSkip(machine.ram, root, bytes, h, nx, i);
        continue;
      }
      ghost var ram1, spaces1, roles1 := machine.ram, machine.spaces, machine.roles;
      error, mapped := PlaceSegment(machine, id, bytes, s, nx, mapped, i);
      OthersKeptThen(ram0, ram1, machine.ram, spaces0, spaces1, machine.spaces, roles0, roles1, machine.roles, id);
      if error.Some? {
        if error.value.BadSegment? {
          ClashIsShared(ram1, root, bytes, h, nx, i);
        }
        return;
      }
      LoadedNext(ram1, machine.ram, root, bytes, h, nx, i);
    }
    return None;
  }

  /** The segment runs past the end of user space, or into the stack. */
  ghost predicate Misplaced(s: Segment)
    requires Loads(s)
  {
    (LastPage(s) + 1) * PAGE > USER_SPACE_END || exists page: nat :: Covers(s, page) && StackPage(page)
  }

  lemma StackClash(ram: Memory, root: Frame, bytes: seq<Byte>, h: Header, nx: bool)
    requires Loaded(ram, root, bytes, h, nx, h.phnum)
    requires exists page: nat :: StackPage(page) && Walk(ram, root, PathOf(page)).Some?
    ensures exists i: nat | i < h.phnum :: Loads(SegmentAt(bytes, h, i)) && Misplaced(SegmentAt(bytes, h, i))
  {
    hide Walk, PathOf, SegmentAt, PageInPlace, SegmentOk;
    var page: nat :| StackPage(page) && Walk(ram, root, PathOf(page)).Some?;
    assert page * PAGE < LOWER_HALF_END;
    var i: nat :| i < h.phnum && Covers(SegmentAt(bytes, h, i), page);
    assert Misplaced(SegmentAt(bytes, h, i));
  }

  /** What an error says about the file: a segment is blamed only for what its header asks, or for
      a page an earlier segment has. */
  ghost predicate Blames(bytes: seq<Byte>, h: Header, nx: bool, error: LoadError, noFrames: bool)
    requires HeaderFits(bytes, h)
  {
    match error
    case BadSegment(i) =>
      i < h.phnum && SegmentAt(bytes, h, i).kind == PT_LOAD && (SegmentOk(bytes, SegmentAt(bytes, h, i), nx) ==> SharesPage(bytes, h, i))
    case Mapping(_) =>
      || noFrames
      || exists i: nat | i < h.phnum :: Loads(SegmentAt(bytes, h, i)) && Misplaced(SegmentAt(bytes, h, i))
    case Panicked =>
      exists i: nat | i < h.phnum ::
        var s := SegmentAt(bytes, h, i);
        Loads(s) && LOWER_HALF_END <= s.vaddr + s.memsz - 1 < HIGHER_HALF_START
    case _ => false
  }

  lemma AllocatorIsValid(machine: Machine)
    requires machine.Valid()
    ensures machine.allocator.Valid()
  {
    hide MachineOk, FrameAllocator.Valid, FrameAllocator.Distinct;
  }

  method FillSpace(machine: Machine, id: nat, bytes: seq<Byte>, h: Header, nx: bool) returns (error: Option<LoadError>)
    requires machine.Valid() && id in machine.spaces && ParseHeader(bytes) == Some(h)
    requires forall page: nat | page * PAGE < LOWER_HALF_END :: Walk(machine.ram, machine.spaces[id].root, PathOf(page)).None?
    requires TablesExecute(machine.ram, machine.spaces[id].root)
    modifies machine, machine.allocator
    ensures machine.Valid() && machine.spaces.Keys == old(machine.spaces.Keys)
    ensures OthersKept(old(machine.ram), machine.ram, old(machine.spaces), machine.spaces, old(machine.roles), machine.roles, id)
    ensures HeaderFits(bytes, h) && AllOpen(machine.ram, machine.spaces[id].root)
    ensures error.None? ==> LoadedWithStack(machine.ram, machine.spaces[id].root, bytes, h, nx)
    ensures error.Some? ==> Blames(bytes, h, nx, error.value, machine.allocator.Supply() == {})
  {
    hide Walk, PathOf, Machine.Valid, Untouched, Loaded, LoadedWithStack, SegmentAt, SegmentOk, StackPlaced, ParseHeader, OthersKept, AllOpen, TablesExecute, FrameAllocator.Supply, StackPage;
    ghost var ram0, spaces0, roles0 := machine.ram, machine.spaces, machine.roles;
    error := LoadSegments(machine, id, bytes, h, nx);
    if error.Some? {
      return;
    }
    ghost var ram1, spaces1, roles1 := machine.ram, machine.spaces, machine.roles;
    var stacked := PlaceStack(machine, id, nx);
    OthersKeptThen(ram0, ram1, machine.ram, spaces0, spaces1, machine.spaces, roles0, roles1, machine.roles, id);
    if stacked != Done {
      AllocatorIsValid(machine);
      if machine.allocator.Supply() != {} {
        StackClash(ram1, machine.spaces[id].root, bytes, h, nx);
      }
      return Some(Mapping(stacked.error));
    }
    StackLast(ram1, machine.ram, machine.spaces[id].root, bytes, h, nx);
  }

  /** Every space that was there is there, and sees the same memory. */
  ghost predicate AllKept(ram: Memory, ram': Memory, spaces: map<nat, Space>, spaces': map<nat, Space>,
                          roles: map<nat, Role>, roles': map<nat, Role>) {
    forall b | b in spaces ::
      && b in roles && b in spaces' && b in roles' && spaces'[b] == spaces[b] && roles'[b] == roles[b]
      && Untouched(ram, ram', roles[b])
  }

  lemma AllKeptSelf(machine: Machine)
    requires machine.Valid()
    ensures AllKept(machine.ram, machine.ram, machine.spaces, machine.spaces, machine.roles, machine.roles)
  {
    hide FrameAllocator.Valid, FrameAllocator.Distinct, MachineOk, Untouched;
    SpacesHaveRoles(machine);
    UntouchedSelf(machine.ram, machine.spaces, machine.roles, machine.kernel, machine.kernelRoot, machine.allocator.Supply());
  }

  lemma AllKeptThen(ram0: Memory, ram1: Memory, ram2: Memory, spaces0: map<nat, Space>, spaces1: map<nat, Space>,
                    spaces2: map<nat, Space>, roles0: map<nat, Role>, roles1: map<nat, Role>, roles2: map<nat, Role>, id: nat)
    requires AllKept(ram0, ram1, spaces0, spaces1, roles0, roles1) && id !in spaces0
    requires OthersKept(ram1, ram2, spaces1, spaces2, roles1, roles2, id)
    ensures AllKept(ram0, ram2, spaces0, spaces2, roles0, roles2)
  {
    hide Untouched;
    forall b | b in spaces0 ensures Untouched(ram0, ram2, roles0[b]) {
      UntouchedThen(ram0, ram1, ram2, roles0[b]);
    }
  }

  lemma AllKeptWithout(ram0: Memory, ram: Memory, spaces0: map<nat, Space>, spaces: map<nat, Space>,
                       roles0: map<nat, Role>, roles: map<nat, Role>, id: nat)
    requires AllKept(ram0, ram, spaces0, spaces, roles0, roles) && id !in spaces0 && spaces.Keys == spaces0.Keys + {id}
    ensures AllKept(ram0, ram, spaces0, spaces - {id}, roles0, roles - {id}) && spaces - {id} == spaces0
  {
    hide Untouched;
  }

  lemma AllKeptBorn(ram0: Memory, ram: Memory, spaces0: map<nat, Space>, spaces: map<nat, Space>,
                    roles0: map<nat, Role>, roles: map<nat, Role>, id: nat)
    requires spaces0.Keys == roles0.Keys && id !in spaces0 && id in spaces && id in roles
    requires spaces == spaces0[id := spaces[id]] && roles == roles0[id := roles[id]]
    requires forall b | b in spaces0 :: Untouched(ram0, ram, roles[b])
    ensures AllKept(ram0, ram, spaces0, spaces, roles0, roles)
  {
    hide Untouched;
  }

  /** `load_image`: a private space holding exactly the program and its stack, or an error and no
      space at all. Whatever happens, no other space sees any of it. */
  method LoadImage(machine: Machine, active: Option<nat>, bytes: seq<Byte>, nx: bool) returns (r: LoadResult)
    requires machine.Valid() && (active.Some? ==> active.value in machine.spaces)
    modifies machine, machine.allocator
    ensures machine.Valid()
    ensures AllKept(old(machine.ram), machine.ram, old(machine.spaces), machine.spaces, old(machine.roles), machine.roles)
    ensures ParseHeader(bytes).None? <==> r == Refused(NotAnElf)
    ensures r == Refused(LoadError.OutOfMemory) ==> old(machine.allocator.Supply()) == {}
    ensures r.Refused? && r.error != NotAnElf && r.error != LoadError.OutOfMemory ==>
              ParseHeader(bytes).Some? && HeaderFits(bytes, ParseHeader(bytes).value) && Blames(bytes, ParseHeader(bytes).value, nx, r.error, true)
    ensures r.Refused? && !r.error.Panicked? ==> machine.spaces == old(machine.spaces)
    ensures r.Image? ==>
              && ParseHeader(bytes).Some? && r.entry == ParseHeader(bytes).value.entry
              && r.stackTop == (USER_STACK_BOTTOM_PAGE + USER_STACK_PAGES) * PAGE
              && r.id !in old(machine.spaces) && r.id in machine.spaces && machine.spaces.Keys == old(machine.spaces.Keys) + {r.id}
              && LoadedWithStack(machine.ram, machine.spaces[r.id].root, bytes, ParseHeader(bytes).value, nx)
              && AllOpen(machine.ram, machine.spaces[r.id].root)
  {
    hide Walk, PathOf, Machine.Valid, Untouched, LoadedWithStack, SegmentAt, SegmentOk, ParseHeader, FrameAllocator.Supply,
      AllKept, OthersKept, SharesPage, AllOpen, TablesExecute;
    SpacesHaveRoles(machine);
    AllKeptSelf(machine);
    var header := ParseHeader(bytes);
    if header.None? {
      return Refused(NotAnElf);
    }
    ghost var ram0, spaces0, roles0 := machine.ram, machine.spaces, machine.roles;
    var created := machine.NewSpace(active);
    if created.None? {
      return Refused(LoadError.OutOfMemory);
    }
    var id := created.value;
    ghost var ram1, spaces1, roles1 := machine.ram, machine.spaces, machine.roles;
    SpacesHaveRoles(machine);
    AllKeptBorn(ram0, ram1, spaces0, spaces1, roles0, roles1, id);
    var error := FillSpace(machine, id, bytes, header.value, nx);
    AllKeptThen(ram0, ram1, machine.ram, spaces0, spaces1, machine.spaces, roles0, roles1, machine.roles, id);
    if error.None? {
      return Image(id, header.value.entry, (USER_STACK_BOTTOM_PAGE + USER_STACK_PAGES) * PAGE);
    }
    if !error.value.Panicked? {
      AllKeptWithout(ram0, machine.ram, spaces0, machine.spaces, roles0, machine.roles, id);
      machine.DropSpace(id);
    }
    return Refused(error.value);
  }
}
