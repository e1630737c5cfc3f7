/** The ELF64 headers as bytes: what the loader reads is what a linker writes, field by field
    (kernel/src/loader.rs; "ELF Header" and "Program Header" of the System V ABI). */
module ElfPrinter {
  import opened Options
  import opened Bytes
  import opened PhysicalMemory
  import opened PageTables
  import opened AddressSpaces
  import opened FrameAllocation
  import opened MapPages
  import opened Permissions
  import opened Machines
  import opened ElfLoader

  const IDENT: seq<Byte> := [0x7F, 0x45, 0x4C, 0x46, 2, 1]

  /** Fields of the file header that the loader ignores, in the order of the format. */
  datatype Ignored = Ignored(ident: seq<Byte>, version: seq<Byte>, middle: seq<Byte>, end: seq<Byte>)

  predicate GoodIgnored(g: Ignored) {
    |g.ident| == 10 && |g.version| == 4 && |g.middle| == 14 && |g.end| == 6
  }

  predicate GoodHeader(h: Header) {
    h.entry < TWO_64 && h.phoff < TWO_64 && h.phentsize < 0x1_0000 && h.phnum < 0x1_0000
  }

  /** A static x86-64 executable's file header. */
  function PrintHeader(h: Header, g: Ignored): (r: seq<Byte>)
    requires GoodIgnored(g)
    ensures |r| == 64
  {
    IDENT + g.ident + [2, 0] + [0x3E, 0] + g.version + ToLittleEndian(h.entry, 8) + ToLittleEndian(h.phoff, 8)
    + g.middle + ToLittleEndian(h.phentsize, 2) + ToLittleEndian(h.phnum, 2) + g.end
  }

  function PrintSegment(s: Segment, physical: seq<Byte>, align: seq<Byte>): (r: seq<Byte>)
    requires |physical| == 8 && |align| == 8
    ensures |r| == 56
  {
    ToLittleEndian(s.kind, 4) + ToLittleEndian(s.flags, 4) + ToLittleEndian(s.offset, 8) + ToLittleEndian(s.vaddr, 8)
    + physical + ToLittleEndian(s.filesz, 8) + ToLittleEndian(s.memsz, 8) + align
  }

  predicate GoodSegment(s: Segment) {
    s.kind < TWO_32 && s.flags < TWO_32 && s.offset < TWO_64 && s.vaddr < TWO_64 && s.filesz < TWO_64 && s.memsz < TWO_64
  }

  ghost predicate HeaderBytes(bytes: seq<Byte>, h: Header) {
    && |bytes| >= 64 && GoodHeader(h)
    && bytes[0..6] == IDENT && bytes[16..18] == [2, 0] && bytes[18..20] == [0x3E, 0]
    && bytes[24..32] == ToLittleEndian(h.entry, 8) && bytes[32..40] == ToLittleEndian(h.phoff, 8)
    && bytes[54..56] == ToLittleEndian(h.phentsize, 2) && bytes[56..58] == ToLittleEndian(h.phnum, 2)
  }

  lemma HeaderIsItsBytes(bytes: seq<Byte>, h: Header)
    ensures ParseHeader(bytes) == Some(h) <==> HeaderBytes(bytes, h) && HeaderFits(bytes, h)
  {
    if |bytes| >= 64 {
      hide ToLittleEndian, FromLittleEndian;
      IdentBytes(bytes);
      NumberField(bytes, 16, 2, 2);
      NumberField(bytes, 18, 2, 0x3E);
      TwoBytes();
      NumberField(bytes, 24, 8, h.entry);
      NumberField(bytes, 32, 8, h.phoff);
      NumberField(bytes, 54, 2, h.phentsize);
      NumberField(bytes, 56, 2, h.phnum);
      hide ReadLittleEndian;
    }
  }

  lemma IdentBytes(bytes: seq<Byte>)
    requires |bytes| >= 64
    ensures bytes[0..6] == IDENT <==> bytes[0..4] == [0x7F, 0x45, 0x4C, 0x46] && bytes[4] == 2 && bytes[5] == 1
  {
    assert bytes[0..6] == bytes[0..4] + [bytes[4], bytes[5]];
    assert IDENT[..4] == [0x7F, 0x45, 0x4C, 0x46];
    assert bytes[0..6][..4] == bytes[0..4] && bytes[0..6][4] == bytes[4] && bytes[0..6][5] == bytes[5];
  }

  lemma TwoBytes()
    ensures ToLittleEndian(2, 2) == [2, 0] && ToLittleEndian(0x3E, 2) == [0x3E, 0]
  {
  }

  /** A file is accepted with header `h` exactly when it starts with the printed header, its program
      header table lies inside it, and the table's entries are large enough. */
  lemma HeaderIsPrinted(bytes: seq<Byte>, h: Header)
    ensures ParseHeader(bytes) == Some(h) <==>
            GoodHeader(h) && HeaderFits(bytes, h) && |bytes| >= 64 && exists g: Ignored :: GoodIgnored(g) && bytes[..64] == PrintHeader(h, g)
  {
    hide ParseHeader, ToLittleEndian, HeaderFits;
    HeaderIsItsBytes(bytes, h);
    if HeaderBytes(bytes, h) {
      var g := Ignored(bytes[6..16], bytes[20..24], bytes[40..54], bytes[58..64]);
      assert bytes[..64] == bytes[0..6] + bytes[6..16] + bytes[16..18] + bytes[18..20] + bytes[20..24] + bytes[24..32]
                            + bytes[32..40] + bytes[40..54] + bytes[54..56] + bytes[56..58] + bytes[58..64];
      assert GoodIgnored(g) && bytes[..64] == PrintHeader(h, g);
    }
    if |bytes| >= 64 && GoodHeader(h) {
      if g: Ignored :| GoodIgnored(g) && bytes[..64] == PrintHeader(h, g) {
        PrintedHeader(bytes, h, g);
      }
    }
  }

  lemma PrintedHeader(bytes: seq<Byte>, h: Header, g: Ignored)
    requires |bytes| >= 64 && GoodHeader(h) && GoodIgnored(g) && bytes[..64] == PrintHeader(h, g)
    ensures HeaderBytes(bytes, h)
  {
    hide ToLittleEndian;
    var p := bytes[..64];
    assert bytes[0..6] == p[0..6] && bytes[16..18] == p[16..18] && bytes[18..20] == p[18..20];
    assert bytes[24..32] == p[24..32] && bytes[32..40] == p[32..40];
    assert bytes[54..56] == p[54..56] && bytes[56..58] == p[56..58];
  }

  /** Program header `i` is read as `s` exactly when the bytes there are the printed `s`. */
  lemma SegmentIsPrinted(bytes: seq<Byte>, h: Header, i: nat, s: Segment)
    requires HeaderFits(bytes, h) && i < h.phnum
    ensures h.phoff + i * h.phentsize + 56 <= |bytes|
    ensures
      var at := h.phoff + i * h.phentsize;
      SegmentAt(bytes, h, i) == s <==>
      GoodSegment(s) && exists physical: seq<Byte>, align: seq<Byte> ::
        |physical| == 8 && |align| == 8 && bytes[at..at + 56] == PrintSegment(s, physical, align)
  {
    hide ToLittleEndian, FromLittleEndian, SegmentAt;
    EntryFits(bytes, h, i);
    var at := h.phoff + i * h.phentsize;
    SegmentIsItsBytes(bytes, h, i, s, at);
    var b := bytes[at..at + 56];
    SegmentPieces(bytes, at);
    if SegmentBytes(bytes, at, s) {
      assert b == PrintSegment(s, bytes[at + 24..at + 32], bytes[at + 48..at + 56]);
    }
    if physical: seq<Byte>, align: seq<Byte> :|
      |physical| == 8 && |align| == 8 && bytes[at..at + 56] == PrintSegment(s, physical, align) {
      PrintedSegment(bytes, at, s, physical, align);
    }
  }

  ghost predicate SegmentBytes(bytes: seq<Byte>, at: nat, s: Segment)
    requires at + 56 <= |bytes|
  {
    && bytes[at..at + 4] == ToLittleEndian(s.kind, 4) && bytes[at + 4..at + 8] == ToLittleEndian(s.flags, 4)
    && bytes[at + 8..at + 16] == ToLittleEndian(s.offset, 8) && bytes[at + 16..at + 24] == ToLittleEndian(s.vaddr, 8)
    && bytes[at + 32..at + 40] == ToLittleEndian(s.filesz, 8) && bytes[at + 40..at + 48] == ToLittleEndian(s.memsz, 8)
  }

  lemma SegmentIsItsBytes(bytes: seq<Byte>, h: Header, i: nat, s: Segment, at: nat)
    requires HeaderFits(bytes, h) && i < h.phnum && at == h.phoff + i * h.phentsize && at + 56 <= |bytes|
    ensures SegmentAt(bytes, h, i) == s <==> GoodSegment(s) && SegmentBytes(bytes, at, s)
  {
    hide ToLittleEndian, FromLittleEndian;
    NumberField(bytes, at, 4, s.kind);
    NumberField(bytes, at + 4, 4, s.flags);
    NumberField(bytes, at + 8, 8, s.offset);
    NumberField(bytes, at + 16, 8, s.vaddr);
    NumberField(bytes, at + 32, 8, s.filesz);
    NumberField(bytes, at + 40, 8, s.memsz);
    hide ReadLittleEndian;
  }

  lemma SegmentPieces(bytes: seq<Byte>, at: nat)
    requires at + 56 <= |bytes|
    ensures bytes[at..at + 56] ==
            bytes[at..at + 4] + bytes[at + 4..at + 8] + bytes[at + 8..at + 16] + bytes[at + 16..at + 24] + bytes[at + 24..at + 32]
            + bytes[at + 32..at + 40] + bytes[at + 40..at + 48] + bytes[at + 48..at + 56]
  {
    SliceJoin(bytes, at, at + 4, at + 8);
    SliceJoin(bytes, at, at + 8, at + 16);
    SliceJoin(bytes, at, at + 16, at + 24);
    SliceJoin(bytes, at, at + 24, at + 32);
    SliceJoin(bytes, at, at + 32, at + 40);
    SliceJoin(bytes, at, at + 40, at + 48);
    SliceJoin(bytes, at, at + 48, at + 56);
  }

  lemma PrintedSegment(bytes: seq<Byte>, at: nat, s: Segment, physical: seq<Byte>, align: seq<Byte>)
    requires at + 56 <= |bytes| && |physical| == 8 && |align| == 8 && bytes[at..at + 56] == PrintSegment(s, physical, align)
    ensures SegmentBytes(bytes, at, s)
  {
    hide ToLittleEndian;
    var p := bytes[at..at + 56];
    SliceWithin(bytes, at, at + 56, 0, 4);
    SliceWithin(bytes, at, at + 56, 4, 8);
    SliceWithin(bytes, at, at + 56, 8, 16);
    SliceWithin(bytes, at, at + 56, 16, 24);
    SliceWithin(bytes, at, at + 56, 32, 40);
    SliceWithin(bytes, at, at + 56, 40, 48);
    assert p[0..4] == ToLittleEndian(s.kind, 4) && p[4..8] == ToLittleEndian(s.flags, 4);
  }

  // --- Rights ---------------------------------------------------------------------------------------

  /** Every page of a loaded segment has exactly the rights its program header asks for: bit 1 of the
      flags is write, bit 0 execute, bit 2 read. */
  lemma SegmentRights(ram: Memory, root: Frame, bytes: seq<Byte>, h: Header, nx: bool, i: nat, page: nat)
    requires LoadedWithStack(ram, root, bytes, h, nx) && i < h.phnum && Covers(SegmentAt(bytes, h, i), page)
    ensures Walk(ram, root, PathOf(page)).Some?
    ensures
      var p, flags := SegmentAt(bytes, h, i).flags, Walk(ram, root, PathOf(page)).value.flags;
      && p / 4 % 2 == 1 && flags.present && flags.user
      && (flags.writable <==> p / 2 % 2 == 1)
      && (flags.noExecute <==> nx && p % 2 == 0)
      && !(p / 2 % 2 == 1 && p % 2 == 1)
  {
    hide Walk, PathOf, SegmentAt, ByteAt;
    FlagBits(SegmentAt(bytes, h, i).flags);
    assert !StackPage(page) && PageInPlace(ram, root, bytes, SegmentAt(bytes, h, i), nx, page);
  }

  /** The stack can be written and, with NX, not executed. */
  lemma StackRights(ram: Memory, root: Frame, bytes: seq<Byte>, h: Header, nx: bool, page: nat)
    requires LoadedWithStack(ram, root, bytes, h, nx) && USER_STACK_BOTTOM_PAGE <= page < USER_STACK_BOTTOM_PAGE + 16
    ensures Walk(ram, root, PathOf(page)).Some?
    ensures
      var flags := Walk(ram, root, PathOf(page)).value.flags;
      flags.present && flags.user && flags.writable && (flags.noExecute <==> nx)
  {
    hide Walk, PathOf, ByteAt, SegmentAt;
    assert StackPageInPlace(ram, root, nx, page);
  }

  /** Which segments the loader turns away, in the terms of the header's fields. */
  lemma SegmentRefused(bytes: seq<Byte>, s: Segment, nx: bool)
    ensures !SegmentOk(bytes, s, nx) <==>
            || s.flags % 8 < 4 || s.flags % 4 == 3
            || s.vaddr >= 0x7fff_ffff_f000 || s.filesz > s.memsz || s.offset + s.filesz > |bytes|
            || s.vaddr + s.memsz >= 0x1_0000_0000_0000_0000
  {
    FlagBits(s.flags);
  }

  lemma FlagBits(p: nat)
    ensures p / 4 % 2 == 1 <==> p % 8 >= 4
    ensures p / 2 % 2 == 1 && p % 2 == 1 <==> p % 4 == 3
  {
    var k, r := p / 8, p % 8;
    assert p == 8 * k + r;
    Shifted(k, r);
    EvenPart(k, r / 4);
    EvenPart(2 * k, r / 2);
    EvenPart(4 * k, r);
    FourPart(k, r);
  }

  lemma Shifted(k: nat, r: nat)
    requires r < 8
    ensures (8 * k + r) / 4 == 2 * k + r / 4 && (8 * k + r) / 2 == 4 * k + r / 2
  {
  }

  lemma EvenPart(k: nat, r: nat)
    ensures (2 * k + r) % 2 == r % 2
  {
  }

  lemma FourPart(k: nat, r: nat)
    ensures (8 * k + r) % 4 == r % 4
  {
  }

  /** What a loaded program can touch: by the kernel's own check along the whole walk, exactly the pages
      of its segments and its stack, and for writing exactly those of its writable segments and its
      stack. */
  lemma ProgramAccess(machine: Machine, id: nat, bytes: seq<Byte>, h: Header, nx: bool, page: nat, writing: bool)
    requires machine.Valid() && id in machine.spaces && page * PAGE < LOWER_HALF_END
    requires LoadedWithStack(machine.ram, machine.spaces[id].root, bytes, h, nx) && AllOpen(machine.ram, machine.spaces[id].root)
    ensures PageAccessible(machine.ram, machine.spaces[id].root, PathOf(page), writing) <==>
            StackPage(page)
            || exists i: nat | i < h.phnum :: Covers(SegmentAt(bytes, h, i), page) && (writing ==> SegmentAt(bytes, h, i).flags / 2 % 2 == 1)
  {
    hide Walk, PathOf, SegmentAt, PageAccessible, FrameAllocator.Valid, FrameAllocator.Distinct, MachineOk, Tree, ParentsAllow, ByteAt;
    var ram, root := machine.ram, machine.spaces[id].root;
    MachineFacts(ram, machine.spaces, machine.roles, machine.kernel, machine.kernelRoot, machine.allocator.Supply());
    OkSpaceTree(ram, machine.spaces[id], machine.roles[id]);
    OpenPageAccess(ram, root, machine.roles[id], page, writing);
    hide Machine.Valid, AllOpen;
    if StackPage(page) {
      StackRights(ram, root, bytes, h, nx, page);
    } else {
      CoveredOnce(ram, root, bytes, h, nx, page, writing);
    }
  }

  lemma CoveredOnce(ram: Memory, root: Frame, bytes: seq<Byte>, h: Header, nx: bool, page: nat, writing: bool)
    requires LoadedWithStack(ram, root, bytes, h, nx) && page * PAGE < LOWER_HALF_END && !StackPage(page)
    ensures Walk(ram, root, PathOf(page)).Some? && Allows(Walk(ram, root, PathOf(page)).value, writing) <==>
            exists i: nat | i < h.phnum :: Covers(SegmentAt(bytes, h, i), page) && (writing ==> SegmentAt(bytes, h, i).flags / 2 % 2 == 1)
  {
    hide Walk, PathOf, SegmentAt, Covers, PageInPlace, StackPageInPlace;
    if Walk(ram, root, PathOf(page)).Some? {
      var i: nat :| i < h.phnum && Covers(SegmentAt(bytes, h, i), page);
      SegmentRights(ram, root, bytes, h, nx, i, page);
      forall j: nat | j < h.phnum && Covers(SegmentAt(bytes, h, j), page) ensures j == i {
        assert !(Covers(SegmentAt(bytes, h, i), page) && Covers(SegmentAt(bytes, h, j), page)) || i == j;
      }
    }
  }

  /** With the tables above it open, a page's own entry decides. */
  lemma OpenPageAccess(ram: Memory, root: Frame, role: Role, page: nat, writing: bool)
    requires Tree(ram, root, role) && AllOpen(ram, root) && page * PAGE < LOWER_HALF_END
    ensures PageAccessible(ram, root, PathOf(page), writing) <==>
            Walk(ram, root, PathOf(page)).Some? && Allows(Walk(ram, root, PathOf(page)).value, writing)
  {
    hide Walk, PageAccessible, PathOf, Tree;
    RootServesNothing(ram, root, role);
    PathIsFull(page);
    var path := PathOf(page);
    assert role[root] + path == path && path[..4] == path;
    AccessibleIsAllowed(ram, root, role, root, path, writing);
    if Walk(ram, root, path).Some? && Allows(Walk(ram, root, path).value, writing) {
      WeakerParents(ram, root, path, writing);
      MoreParentsAllow(ram, root, path, writing, 3);
    }
  }

  lemma WeakerParents(ram: Memory, root: Frame, path: seq<nat>, writing: bool)
    requires ParentsAllow(ram, root, path, true, 3)
    ensures ParentsAllow(ram, root, path, writing, 3)
  {
    hide Walk;
  }

  /** May user code execute here? Every entry on the way must be for user code and none may forbid it. */
  ghost predicate Executable(ram: Memory, root: Frame, path: seq<nat>) {
    forall k: nat | 1 <= k <= |path| ::
      && Walk(ram, root, path[..k]).Some? && Walk(ram, root, path[..k]).value.flags.user
      && !Walk(ram, root, path[..k]).value.flags.noExecute
  }

  /** With NX, what a loaded program can execute is exactly the pages of its executable segments. */
  lemma ProgramExecutes(ram: Memory, root: Frame, bytes: seq<Byte>, h: Header, page: nat)
    requires page * PAGE < LOWER_HALF_END && LoadedWithStack(ram, root, bytes, h, true) && AllOpen(ram, root)
    ensures Executable(ram, root, PathOf(page)) <==>
            exists i: nat | i < h.phnum :: Covers(SegmentAt(bytes, h, i), page) && SegmentAt(bytes, h, i).flags % 2 == 1
  {
    hide Walk, PathOf, SegmentAt, Covers, PageInPlace, StackPageInPlace, ParentsAllow, TablesExecute;
    OwnEntryExecutes(ram, root, page);
    hide AllOpen, Executable;
    if Walk(ram, root, PathOf(page)).Some? {
      if StackPage(page) {
        StackRights(ram, root, bytes, h, true, page);
      } else {
        var i: nat :| i < h.phnum && Covers(SegmentAt(bytes, h, i), page);
        SegmentRights(ram, root, bytes, h, true, i, page);
        forall j: nat | j < h.phnum && Covers(SegmentAt(bytes, h, j), page) ensures j == i {
          assert !(Covers(SegmentAt(bytes, h, i), page) && Covers(SegmentAt(bytes, h, j), page)) || i == j;
        }
      }
    }
  }

  lemma OwnEntryExecutes(ram: Memory, root: Frame, page: nat)
    requires page * PAGE < LOWER_HALF_END && AllOpen(ram, root)
    ensures
      var e := Walk(ram, root, PathOf(page));
      Executable(ram, root, PathOf(page)) <==> e.Some? && e.value.flags.user && !e.value.flags.noExecute
  {
    hide Walk, PathOf, LowerPath;
    PathIsFull(page);
    var path := PathOf(page);
    assert path[..4] == path;
    if Walk(ram, root, path).Some? && Walk(ram, root, path).value.flags.user && !Walk(ram, root, path).value.flags.noExecute {
      forall k: nat | 1 <= k <= 4
        ensures Walk(ram, root, path[..k]).Some? && Walk(ram, root, path[..k]).value.flags.user
        ensures !Walk(ram, root, path[..k]).value.flags.noExecute
      {
        if k < 4 {
          PrefixIsLower(path, k);
          assert !Barred(ram, root, path[..k]);
          assert ParentsAllow(ram, root, path, true, 3);
        }
      }
    }
  }

  lemma PrefixIsLower(path: seq<nat>, k: nat)
    requires LowerPath(path) && k <= |path|
    ensures LowerPath(path[..k])
  {
  }
}
