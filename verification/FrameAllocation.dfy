/** Physical frames: the bump cursor over the boot memory map and the free list in front of it
    (kernel/src/mm/memory.rs, kernel/src/mm/frame_pool.rs). */
module FrameAllocation {
  import opened Options
  import opened PhysicalMemory

  datatype Region = Region(start: nat, end: nat, usable: bool)

  /** The whole frames between two addresses, in order. */
  function FramesFrom(addr: nat, end: nat): seq<Frame>
    decreases if addr < end then end - addr else 0
  {
    if addr + PAGE > end then [] else [addr / PAGE] + FramesFrom(addr + PAGE, end)
  }

  function RegionFrames(r: Region): seq<Frame> {
    if r.usable then FramesFrom(r.start, r.end) else []
  }

  /** Every whole frame of every usable region, in map order: what the first version of the
      allocator enumerated on every call. */
  function AllFrames(regions: seq<Region>): seq<Frame> {
    if regions == [] then [] else RegionFrames(regions[0]) + AllFrames(regions[1..])
  }

  ghost function SetOf(frames: seq<Frame>): set<Frame> {
    set f | f in frames
  }

  class FrameAllocator {
    const regions: seq<Region>
    var regionIndex: nat
    var nextAddr: nat
    var free: seq<Frame>
    var released: nat

    ghost predicate Valid()
      reads this
    {
      regionIndex <= |regions| && (regionIndex < |regions| ==> regions[regionIndex].usable)
    }

    /** What the cursor has not handed out yet. */
    ghost function Remaining(): seq<Frame>
      requires Valid()
      reads this
    {
      if regionIndex == |regions| then []
      else FramesFrom(nextAddr, regions[regionIndex].end) + AllFrames(regions[regionIndex + 1..])
    }

    constructor (regions: seq<Region>)
      ensures Valid() && this.regions == regions && free == [] && released == 0
      ensures Remaining() == AllFrames(regions)
    {
      this.regions := regions;
      regionIndex, nextAddr := 0, 0;
      free, released := [], 0;
      new;
      SkipToUsableRegion();
      assert regions[0..] == regions;
    }

    method SkipToUsableRegion()
      requires regionIndex <= |regions|
      modifies this`regionIndex, this`nextAddr
      ensures Valid() && regionIndex >= old(regionIndex)
      ensures Remaining() == AllFrames(regions[old(regionIndex)..])
    {
      hide FramesFrom;
      while regionIndex < |regions|
        invariant old(regionIndex) <= regionIndex <= |regions|
        invariant AllFrames(regions[regionIndex..]) == AllFrames(regions[old(regionIndex)..])
        decreases |regions| - regionIndex
      {
        var region := regions[regionIndex];
        assert regions[regionIndex..][1..] == regions[regionIndex + 1..];
        if region.usable {
          nextAddr := region.start;
          return;
        }
        regionIndex := regionIndex + 1;
      }
    }

    /** `allocate_frame`: the free list first, then the cursor. */
    method AllocateFrame() returns (frame: Option<Frame>)
      requires Valid()
      modifies this`regionIndex, this`nextAddr, this`free
      ensures Valid()
      ensures
        if old(free) != [] then
          && frame == Some(old(free)[|old(free)| - 1]) && free == old(free)[..|old(free)| - 1]
          && Remaining() == old(Remaining())
        else if old(Remaining()) != [] then
          free == [] && frame == Some(old(Remaining())[0]) && Remaining() == old(Remaining())[1..]
        else
          free == [] && frame == None && Remaining() == []
    {
      hide AllFrames;
      if |free| > 0 {
        frame := Some(free[|free| - 1]);
        free := free[..|free| - 1];
        return;
      }
      ghost var remaining := Remaining();
      while true
        invariant Valid() && free == [] && Remaining() == remaining
        decreases |regions| - regionIndex
      {
        if regionIndex >= |regions| {
          return None;
        }
        var region := regions[regionIndex];
        if !region.usable || nextAddr + PAGE > region.end {
          assert FramesFrom(nextAddr, region.end) == [];
          assert Remaining() == AllFrames(regions[regionIndex + 1..]);
          regionIndex := regionIndex + 1;
          SkipToUsableRegion();
        } else {
          var addr := nextAddr;
          ghost var tail := AllFrames(regions[regionIndex + 1..]);
          ghost var here := FramesFrom(addr + PAGE, region.end);
          assert remaining == [addr / PAGE] + here + tail;
          nextAddr := nextAddr + PAGE;
          assert remaining[1..] == here + tail;
          return Some(addr / PAGE);
        }
      }
    }

    /** Everything that can still be handed out. */
    ghost function Supply(): set<Frame>
      requires Valid()
      reads this
    {
      SetOf(free) + SetOf(Remaining())
    }

    /** No frame can be handed out twice. */
    ghost predicate Distinct()
      requires Valid()
      reads this
    {
      NoRepeats(free) && NoRepeats(Remaining()) && forall f | f in free :: f !in Remaining()
    }

    /** `allocate_frame` seen as taking one frame out of the supply. */
    method Take() returns (frame: Option<Frame>)
      requires Valid() && Distinct()
      modifies this`regionIndex, this`nextAddr, this`free
      ensures Valid() && Distinct()
      ensures frame.Some? ==> frame.value in old(Supply()) && Supply() == old(Supply()) - {frame.value}
      ensures frame.None? ==> old(Supply()) == {} && Supply() == {}
    {
      ghost var free0, rest0 := free, Remaining();
      frame := AllocateFrame();
      if free0 != [] {
        TakeLast(free0);
      } else if rest0 != [] {
        TakeFirst(rest0);
      }
    }

    /** `frame_pool::release`: a frame already in the list is refused. */
    method Release(frame: Frame)
      modifies this`free, this`released
      ensures free == if frame in old(free) then old(free) else old(free) + [frame]
      ensures released == old(released) + |free| - |old(free)|
    {
      if frame in free {
        return;
      }
      free := free + [frame];
      released := released + 1;
    }

    /** Releasing frames that are nowhere in the supply: none is refused. */
    method ReleaseAll(frames: seq<Frame>)
      requires Valid() && Distinct() && NoRepeats(frames)
      requires forall f | f in frames :: f !in free && f !in Remaining()
      modifies this`free, this`released
      ensures Valid() && Distinct() && Remaining() == old(Remaining())
      ensures free == old(free) + frames && released == old(released) + |frames|
      ensures Supply() == old(Supply()) + SetOf(frames)
    {
      hide FramesFrom, AllFrames;
      for i := 0 to |frames|
        invariant Valid() && Remaining() == old(Remaining())
        invariant free == old(free) + frames[..i] && released == old(released) + i
      {
        assert frames[i] !in frames[..i];
        Release(frames[i]);
        assert frames[..i + 1] == frames[..i] + [frames[i]];
      }
      assert frames[..|frames|] == frames;
      Joined(old(free), frames);
    }
  }

  lemma Joined(a: seq<Frame>, b: seq<Frame>)
    requires NoRepeats(a) && NoRepeats(b) && forall f | f in b :: f !in a
    ensures NoRepeats(a + b)
  {
    forall i, j | 0 <= i < |a| && 0 <= j < |b| ensures a[i] != b[j] {
      assert b[j] in b;
    }
  }

  lemma TakeLast(frames: seq<Frame>)
    requires NoRepeats(frames) && frames != []
    ensures
      var last := frames[|frames| - 1];
      var rest := frames[..|frames| - 1];
      NoRepeats(rest) && SetOf(frames) == SetOf(rest) + {last} && last !in rest
  {
    assert frames == frames[..|frames| - 1] + [frames[|frames| - 1]];
  }

  lemma TakeFirst(frames: seq<Frame>)
    requires NoRepeats(frames) && frames != []
    ensures NoRepeats(frames[1..]) && SetOf(frames) == SetOf(frames[1..]) + {frames[0]}
    ensures frames[0] !in frames[1..]
  {
    assert frames == [frames[0]] + frames[1..];
  }

  /** The cursor refines the enumerator: the k-th allocation on a fresh allocator is the k-th frame
      of the list, and the allocator is exhausted exactly after the last one. */
  method AllocateMany(regions: seq<Region>, n: nat) returns (frames: seq<Option<Frame>>)
    ensures |frames| == n
    ensures forall k: nat | k < n :: frames[k] == if k < |AllFrames(regions)| then Some(AllFrames(regions)[k]) else None
  {
    hide AllFrames, FramesFrom;
    var allocator := new FrameAllocator(regions);
    frames := [];
    ghost var all := AllFrames(regions);
    for i := 0 to n
      invariant fresh(allocator) && allocator.Valid() && allocator.free == [] && |frames| == i
      invariant allocator.Remaining() == if i <= |all| then all[i..] else []
      invariant forall k: nat | k < i :: frames[k] == if k < |all| then Some(all[k]) else None
    {
      var frame := allocator.AllocateFrame();
      frames := frames + [frame];
    }
  }

  // --- No frame twice ------------------------------------------------------------------------

  predicate NoRepeats(frames: seq<Frame>) {
    forall i, j | 0 <= i < j < |frames| :: frames[i] != frames[j]
  }

  predicate Aligned(r: Region) {
    r.start % PAGE == 0
  }

  predicate Apart(a: Region, b: Region) {
    a.end <= b.start || b.end <= a.start
  }

  /** Page-aligned usable regions that do not overlap. */
  predicate GoodMap(regions: seq<Region>) {
    && (forall i | 0 <= i < |regions| && regions[i].usable :: Aligned(regions[i]))
    && (forall i, j | 0 <= i < j < |regions| && regions[i].usable && regions[j].usable :: Apart(regions[i], regions[j]))
  }

  lemma {:induction false} FramesFromBounds(addr: nat, end: nat)
    requires addr % PAGE == 0
    ensures NoRepeats(FramesFrom(addr, end))
    ensures forall f | f in FramesFrom(addr, end) :: addr <= f * PAGE && f * PAGE + PAGE <= end
    decreases if addr < end then end - addr else 0
  {
    if addr + PAGE <= end {
      FramesFromBounds(addr + PAGE, end);
      assert addr / PAGE * PAGE == addr;
      var rest := FramesFrom(addr + PAGE, end);
      forall j | 0 <= j < |rest| ensures rest[j] != addr / PAGE {
        assert rest[j] in rest;
      }
    }
  }

  lemma {:induction false} AllFramesOrigin(regions: seq<Region>, f: Frame)
    requires GoodMap(regions) && f in AllFrames(regions)
    ensures exists i | 0 <= i < |regions| ::
              regions[i].usable && regions[i].start <= f * PAGE && f * PAGE + PAGE <= regions[i].end
  {
    if f in RegionFrames(regions[0]) {
      FramesFromBounds(regions[0].start, regions[0].end);
      assert regions[0].usable && regions[0].start <= f * PAGE && f * PAGE + PAGE <= regions[0].end;
    } else {
      AllFramesOrigin(regions[1..], f);
      var i :| 0 <= i < |regions[1..]| && regions[1..][i].usable && regions[1..][i].start <= f * PAGE
        && f * PAGE + PAGE <= regions[1..][i].end;
      assert regions[i + 1] == regions[1..][i];
    }
  }

  /** On a good memory map no frame is ever handed out twice by the cursor. */
  lemma {:induction false} AllFramesDistinct(regions: seq<Region>)
    requires GoodMap(regions)
    ensures NoRepeats(AllFrames(regions))
  {
    if regions != [] {
      var first, rest := RegionFrames(regions[0]), AllFrames(regions[1..]);
      AllFramesDistinct(regions[1..]);
      if regions[0].usable {
        FramesFromBounds(regions[0].start, regions[0].end);
      }
      forall i, j | 0 <= i < |first| && 0 <= j < |rest| ensures first[i] != rest[j] {
        assert first[i] in first && rest[j] in rest;
        AllFramesOrigin(regions[1..], rest[j]);
        var k :| 0 <= k < |regions[1..]| && regions[1..][k].usable && regions[1..][k].start <= rest[j] * PAGE
          && rest[j] * PAGE + PAGE <= regions[1..][k].end;
        assert Apart(regions[0], regions[k + 1]);
      }
    }
  }

  /** The frames between two addresses are exactly those that lie whole between them, in order. */
  lemma {:induction false} FramesFromIsExact(addr: nat, end: nat, f: Frame)
    requires addr % PAGE == 0
    ensures f in FramesFrom(addr, end) <==> addr <= f * PAGE && f * PAGE + PAGE <= end
    ensures forall k | 0 <= k < |FramesFrom(addr, end)| :: FramesFrom(addr, end)[k] == addr / PAGE + k
    decreases if addr < end then end - addr else 0
  {
    if addr + PAGE <= end {
      FramesFromIsExact(addr + PAGE, end, f);
      assert addr / PAGE * PAGE == addr && (addr + PAGE) / PAGE == addr / PAGE + 1;
    }
  }

  /** The enumeration is complete: it has exactly the frames that lie whole in a usable region. */
  lemma {:induction false} AllFramesIsExact(regions: seq<Region>, f: Frame)
    requires GoodMap(regions)
    ensures f in AllFrames(regions) <==>
            exists i | 0 <= i < |regions| :: regions[i].usable && regions[i].start <= f * PAGE && f * PAGE + PAGE <= regions[i].end
    decreases |regions|
  {
    if regions != [] {
      var rest := regions[1..];
      AllFramesIsExact(rest, f);
      if regions[0].usable {
        FramesFromIsExact(regions[0].start, regions[0].end, f);
      }
      if i :| 0 <= i < |rest| && rest[i].usable && rest[i].start <= f * PAGE && f * PAGE + PAGE <= rest[i].end {
        assert regions[i + 1] == rest[i];
      }
      if i :| 0 < i < |regions| && regions[i].usable && regions[i].start <= f * PAGE && f * PAGE + PAGE <= regions[i].end {
        assert rest[i - 1] == regions[i];
      }
    }
  }
}
