/** Per-process address spaces over shared physical memory (kernel/src/mm/address_space.rs). */
module AddressSpaces {
  import opened Options
  import opened Bytes
  import opened PhysicalMemory
  import opened PageTables
  import opened FrameAllocation
  import opened MapPages
  import opened Permissions

  const USER_SPACE_END: nat := 0x7fff_ffff_f000
  const LOWER_HALF_END: nat := 0x8000_0000_0000

  /** An address space: its top table, and every other frame it owns. */
  datatype Space = Space(root: Frame, owned: seq<Frame>)

  // --- Virtual addresses --------------------------------------------------------------------------

  /** The four table indices of a lower-half page. */
  function PathOf(page: nat): (path: seq<nat>)
    ensures |path| == 4
  {
    [page / 0x800_0000, page / 0x4_0000 % 512, page / 512 % 512, page % 512]
  }

  lemma PathIsFull(page: nat)
    requires page * PAGE < LOWER_HALF_END
    ensures FullPath(PathOf(page))
  {
  }

  /** The indices are the page number's base-512 digits, the top table's first. */
  lemma PathOfDigits(a: nat, b: nat, c: nat, d: nat)
    requires a < 512 && b < 512 && c < 512 && d < 512
    ensures PathOf(((a * 512 + b) * 512 + c) * 512 + d) == [a, b, c, d]
  {
    var abc := (a * 512 + b) * 512 + c;
    var page := abc * 512 + d;
    assert page / 512 == abc && page % 512 == d;
    assert abc / 512 == a * 512 + b && abc % 512 == c;
    assert page / 0x4_0000 == a * 512 + b && page / 0x800_0000 == a;
  }

  lemma PathIsInjective(p: nat, q: nat)
    requires PathOf(p) == PathOf(q)
    ensures p == q
  {
    var a, b := PathOf(p), PathOf(q);
    assert a[0] == b[0] && a[1] == b[1] && a[2] == b[2] && a[3] == b[3];
    Digits(p);
    Digits(q);
  }

  lemma Digits(p: nat)
    ensures p == ((p / 0x800_0000 * 512 + p / 0x4_0000 % 512) * 512 + p / 512 % 512) * 512 + p % 512
  {
    assert p / 0x4_0000 == p / 512 / 512;
    assert p / 0x800_0000 == p / 0x4_0000 / 512;
  }

  /** The byte a process sees at a lower-half address. */
  ghost function ByteAt(ram: Memory, root: Frame, addr: nat): Option<Byte> {
    match Walk(ram, root, PathOf(addr / PAGE))
    case None => None
    case Some(e) => if e.frame in ram && |ram[e.frame]| == PAGE then Some(ram[e.frame][addr % PAGE]) else None
  }

  // --- One space ---------------------------------------------------------------------------------

  ghost predicate SpaceOk(ram: Memory, space: Space, role: Role) {
    && Tree(ram, space.root, role)
    && NoRepeats(space.owned) && space.root !in space.owned
    && role.Keys == {space.root} + SetOf(space.owned)
  }

  /** Pages may be rewritten freely without disturbing any walk of the space. */
  lemma PageWrite(ram: Memory, root: Frame, role: Role, page: nat, bytes: seq<Byte>)
    requires Tree(ram, root, role) && page * PAGE < LOWER_HALF_END && |bytes| == PAGE
    requires Walk(ram, root, PathOf(page)).Some?
    ensures
      var frame := Walk(ram, root, PathOf(page)).value.frame;
      && frame in role && role[frame] == PathOf(page) && frame in ram
      && Tree(ram[frame := bytes], root, role)
      && RightsGrow(ram, ram[frame := bytes], root)
      && forall q: nat | q * PAGE < LOWER_HALF_END ::
           Walk(ram[frame := bytes], root, PathOf(q)) == Walk(ram, root, PathOf(q))
  {
    hide Walk, LowerPath, PathOf, RightsGrow;
    TreeRoot(ram, root, role);
    PathIsFull(page);
    assert role[root] + PathOf(page) == PathOf(page);
    WalkStays(ram, root, role, root, PathOf(page));
    var frame := Walk(ram, root, PathOf(page)).value.frame;
    var ram' := ram[frame := bytes];
    assert SameTables(ram, ram', role);
    TablesKeepTree(ram, ram', root, role);
    SameTablesGrow(ram, ram', root, role);
    forall q: nat | q * PAGE < LOWER_HALF_END ensures Walk(ram', root, PathOf(q)) == Walk(ram, root, PathOf(q)) {
      PathIsFull(q);
      assert role[root] + PathOf(q) == PathOf(q);
      TablesKeepWalks(ram, ram', root, role, root, PathOf(q));
    }
  }

  function Splice(page: seq<Byte>, at: nat, bytes: seq<Byte>): (r: seq<Byte>)
    requires at + |bytes| <= |page|
    ensures |r| == |page|
  {
    page[..at] + bytes + page[at + |bytes|..]
  }

  /** Writing a chunk inside one page changes exactly the bytes addressed. */
  lemma ChunkWritten(ram: Memory, root: Frame, role: Role, target: nat, chunk: seq<Byte>)
    requires Tree(ram, root, role) && target < LOWER_HALF_END && target % PAGE + |chunk| <= PAGE
    requires Walk(ram, root, PathOf(target / PAGE)).Some?
    ensures
      var frame := Walk(ram, root, PathOf(target / PAGE)).value.frame;
      && frame in role && |role[frame]| == 4 && frame in ram && |ram[frame]| == PAGE
      && var ram' := ram[frame := Splice(ram[frame], target % PAGE, chunk)];
         && Tree(ram', root, role) && RightsGrow(ram, ram', root)
         && (forall q: nat | q * PAGE < LOWER_HALF_END :: Walk(ram', root, PathOf(q)) == Walk(ram, root, PathOf(q)))
         && forall a: nat | a < LOWER_HALF_END ::
              ByteAt(ram', root, a) ==
              if target <= a < target + |chunk| then Some(chunk[a - target]) else ByteAt(ram, root, a)
  {
    hide Walk, LowerPath, PathOf, RightsGrow;
    var page := target / PAGE;
    assert page * PAGE <= target;
    TreeRoot(ram, root, role);
    PathIsFull(page);
    assert role[root] + PathOf(page) == PathOf(page);
    WalkStays(ram, root, role, root, PathOf(page));
    var frame := Walk(ram, root, PathOf(page)).value.frame;
    var bytes := Splice(ram[frame], target % PAGE, chunk);
    PageWrite(ram, root, role, page, bytes);
    var ram' := ram[frame := bytes];
    forall a: nat | a < LOWER_HALF_END
      ensures ByteAt(ram', root, a) ==
              if target <= a < target + |chunk| then Some(chunk[a - target]) else ByteAt(ram, root, a)
    {
      OneByte(ram, root, role, target, chunk, a);
    }
  }

  lemma OneByte(ram: Memory, root: Frame, role: Role, target: nat, chunk: seq<Byte>, a: nat)
    requires Tree(ram, root, role) && target < LOWER_HALF_END && target % PAGE + |chunk| <= PAGE && a < LOWER_HALF_END
    requires Walk(ram, root, PathOf(target / PAGE)).Some?
    requires
      var frame := Walk(ram, root, PathOf(target / PAGE)).value.frame;
      && frame in role && role[frame] == PathOf(target / PAGE) && frame in ram && |ram[frame]| == PAGE
      && forall q: nat | q * PAGE < LOWER_HALF_END ::
           Walk(ram[frame := Splice(ram[frame], target % PAGE, chunk)], root, PathOf(q)) == Walk(ram, root, PathOf(q))
    ensures
      var frame := Walk(ram, root, PathOf(target / PAGE)).value.frame;
      ByteAt(ram[frame := Splice(ram[frame], target % PAGE, chunk)], root, a) ==
      if target <= a < target + |chunk| then Some(chunk[a - target]) else ByteAt(ram, root, a)
  {
    hide Walk, LowerPath, PathOf;
    var frame := Walk(ram, root, PathOf(target / PAGE)).value.frame;
    var q := a / PAGE;
    assert q * PAGE <= a;
    TreeRoot(ram, root, role);
    PathIsFull(q);
    assert role[root] + PathOf(q) == PathOf(q);
    WalkStays(ram, root, role, root, PathOf(q));
    var e := Walk(ram, root, PathOf(q));
    if e.Some? && e.value.frame == frame {
      PathIsInjective(q, target / PAGE);
      SamePageOffsets(target, a);
    } else {
      OtherPageOutside(target, |chunk|, a, q == target / PAGE);
    }
  }

  lemma SamePageOffsets(target: nat, a: nat)
    requires target / PAGE == a / PAGE
    ensures a - target == a % PAGE - target % PAGE
  {
  }

  /** An address in another page is not in the chunk. */
  lemma OtherPageOutside(target: nat, len: nat, a: nat, same: bool)
    requires target % PAGE + len <= PAGE && (same <==> a / PAGE == target / PAGE)
    ensures !same ==> !(target <= a < target + len)
  {
  }

  /** Bytes of pages whose mapping and contents were left alone read as before. */
  lemma ByteKept(ram: Memory, ram': Memory, root: Frame, role: Role, a: nat)
    requires Tree(ram, root, role) && a < LOWER_HALF_END
    requires Walk(ram', root, PathOf(a / PAGE)) == Walk(ram, root, PathOf(a / PAGE))
    requires forall f | f in role && |role[f]| == 4 :: f in ram && f in ram' && ram'[f] == ram[f]
    ensures ByteAt(ram', root, a) == ByteAt(ram, root, a)
  {
    hide Walk, LowerPath, PathOf;
    var page := a / PAGE;
    assert page * PAGE <= a;
    TreeRoot(ram, root, role);
    PathIsFull(page);
    assert role[root] + PathOf(page) == PathOf(page);
    WalkStays(ram, root, role, root, PathOf(page));
  }

  /** After mapping or protecting one page, every byte outside it reads as before. */
  lemma BytesOutsideKept(ram: Memory, ram': Memory, root: Frame, role: Role, page: nat)
    requires Tree(ram, root, role) && SameOtherPages(ram, ram', root, PathOf(page))
    requires forall f | f in role && |role[f]| == 4 :: f in ram && f in ram' && ram'[f] == ram[f]
    ensures forall a: nat | a < LOWER_HALF_END && a / PAGE != page :: ByteAt(ram', root, a) == ByteAt(ram, root, a)
    ensures forall q: nat | q * PAGE < LOWER_HALF_END && q != page :: Walk(ram', root, PathOf(q)) == Walk(ram, root, PathOf(q))
  {
    hide Walk, LowerPath, PathOf, ByteAt, Tree, FullPath;
    forall q: nat | q * PAGE < LOWER_HALF_END && q != page ensures Walk(ram', root, PathOf(q)) == Walk(ram, root, PathOf(q)) {
      PathIsFull(q);
      PathsDiffer(q, page);
    }
    forall a: nat | a < LOWER_HALF_END && a / PAGE != page ensures ByteAt(ram', root, a) == ByteAt(ram, root, a) {
      assert a / PAGE * PAGE <= a;
      ByteKept(ram, ram', root, role, a);
    }
  }

  lemma PathsDiffer(p: nat, q: nat)
    requires p != q
    ensures PathOf(p) != PathOf(q)
  {
    if PathOf(p) == PathOf(q) {
      PathIsInjective(p, q);
    }
  }

  /** After an attempt that changed no mapping, every byte reads as before. */
  lemma AllBytesKept(ram: Memory, ram': Memory, root: Frame, role: Role)
    requires Tree(ram, root, role) && SamePages(ram, ram', root)
    requires forall f | f in role && |role[f]| == 4 :: f in ram && f in ram' && ram'[f] == ram[f]
    ensures forall a: nat | a < LOWER_HALF_END :: ByteAt(ram', root, a) == ByteAt(ram, root, a)
    ensures forall q: nat | q * PAGE < LOWER_HALF_END :: Walk(ram', root, PathOf(q)) == Walk(ram, root, PathOf(q))
  {
    hide Walk, LowerPath, PathOf, ByteAt, Tree, FullPath;
    forall q: nat | q * PAGE < LOWER_HALF_END ensures Walk(ram', root, PathOf(q)) == Walk(ram, root, PathOf(q)) {
      PathIsFull(q);
    }
    forall a: nat | a < LOWER_HALF_END ensures ByteAt(ram', root, a) == ByteAt(ram, root, a) {
      assert a / PAGE * PAGE <= a;
      ByteKept(ram, ram', root, role, a);
    }
  }

  /** Protecting a page changes no byte, not even its own. */
  lemma ProtectKeepsBytes(ram: Memory, ram': Memory, root: Frame, role: Role, page: nat)
    requires Tree(ram, root, role) && SameOtherPages(ram, ram', root, PathOf(page)) && page * PAGE < LOWER_HALF_END
    requires Walk(ram, root, PathOf(page)).Some? && Walk(ram', root, PathOf(page)).Some?
    requires Walk(ram', root, PathOf(page)).value.frame == Walk(ram, root, PathOf(page)).value.frame
    requires forall f | f in role && |role[f]| == 4 :: f in ram && f in ram' && ram'[f] == ram[f]
    ensures forall a: nat | a < LOWER_HALF_END :: ByteAt(ram', root, a) == ByteAt(ram, root, a)
  {
    hide Walk, LowerPath, PathOf;
    BytesOutsideKept(ram, ram', root, role, page);
    TreeRoot(ram, root, role);
    PathIsFull(page);
    assert role[root] + PathOf(page) == PathOf(page);
    WalkStays(ram, root, role, root, PathOf(page));
  }
}
