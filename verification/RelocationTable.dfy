/** The base relocation table of a PE image: the walk over its blocks, and what it must find
    (kernel/src/mirage/pe.rs; ".reloc Section" of the Microsoft PE Format specification). */
module RelocationTable {
  import opened Options
  import opened Bytes

  const MAX_RELOCATIONS: nat := 65_536
  const ABSOLUTE: nat := 0
  const DIR64: nat := 10

  datatype TableError = Unmapped | OutsideFile | BadBlockSize | TooMany | BadKind | Overflow

  datatype Result = Ok(targets: seq<nat>) | Err(error: TableError)

  // --- The format ---------------------------------------------------------------------------------

  /** A page, its 16-bit entries, and at most one stray byte where the size is odd. */
  datatype Block = Block(page: nat, entries: seq<nat>, pad: seq<Byte>)

  function BlockSize(b: Block): nat {
    8 + 2 * |b.entries| + |b.pad|
  }

  predicate GoodBlock(b: Block) {
    && b.page < TWO_32 && |b.pad| <= 1 && BlockSize(b) < TWO_32
    && (forall i | 0 <= i < |b.entries| :: b.entries[i] < 0x1_0000)
  }

  predicate GoodBlocks(blocks: seq<Block>) {
    forall i | 0 <= i < |blocks| :: GoodBlock(blocks[i])
  }

  function EncodeEntries(entries: seq<nat>): (r: seq<Byte>)
    ensures |r| == 2 * |entries|
  {
    if entries == [] then [] else ToLittleEndian(entries[0], 2) + EncodeEntries(entries[1..])
  }

  function EncodeBlock(b: Block): (r: seq<Byte>)
    ensures |r| == BlockSize(b)
  {
    ToLittleEndian(b.page, 4) + ToLittleEndian(BlockSize(b), 4) + EncodeEntries(b.entries) + b.pad
  }

  function EncodeTable(blocks: seq<Block>): seq<Byte> {
    if blocks == [] then [] else EncodeBlock(blocks[0]) + EncodeTable(blocks[1..])
  }

  /** One entry with the page of its block. */
  datatype Fixup = Fixup(page: nat, entry: nat)

  function Kind(f: Fixup): nat {
    f.entry / 0x1000
  }

  function Target(f: Fixup): nat {
    f.page + f.entry % 0x1000
  }

  function BlockFixups(page: nat, entries: seq<nat>): (r: seq<Fixup>)
    ensures |r| == |entries|
  {
    if entries == [] then [] else [Fixup(page, entries[0])] + BlockFixups(page, entries[1..])
  }

  /** Every entry of every block, in file order. */
  function AllFixups(blocks: seq<Block>): seq<Fixup> {
    if blocks == [] then [] else BlockFixups(blocks[0].page, blocks[0].entries) + AllFixups(blocks[1..])
  }

  /** The targets of the DIR64 entries, in order. */
  function Targets(fixups: seq<Fixup>): seq<nat> {
    if fixups == [] then []
    else (if Kind(fixups[0]) == DIR64 then [Target(fixups[0])] else []) + Targets(fixups[1..])
  }

  /** Each entry is padding or a 64-bit fix-up of a 32-bit address. */
  predicate Supported(fixups: seq<Fixup>) {
    forall i | 0 <= i < |fixups| :: Kind(fixups[i]) == ABSOLUTE || (Kind(fixups[i]) == DIR64 && Target(fixups[i]) < TWO_32)
  }

  /** No entry comes after the limit is reached, counting from `n` targets. */
  predicate WithinLimit(fixups: seq<Fixup>, n: nat) {
    forall i | 0 <= i < |fixups| :: n + |Targets(fixups[..i])| < MAX_RELOCATIONS
  }

  // --- The walk -----------------------------------------------------------------------------------

  /** What one entry adds to the list so far. */
  function TakeEntry(acc: seq<nat>, f: Fixup): Result {
    if |acc| >= MAX_RELOCATIONS then Err(TooMany)
    else if Kind(f) == ABSOLUTE then Ok(acc)
    else if Kind(f) != DIR64 then Err(BadKind)
    else if Target(f) >= TWO_32 then Err(Overflow)
    else Ok(acc + [Target(f)])
  }

  function TakeEntries(acc: seq<nat>, fixups: seq<Fixup>): Result
    decreases |fixups|
  {
    if fixups == [] then Ok(acc)
    else
      match TakeEntry(acc, fixups[0])
      case Err(e) => Err(e)
      case Ok(acc') => TakeEntries(acc', fixups[1..])
  }

  function DecodeEntries(t: seq<Byte>): seq<nat> {
    if |t| < 2 then [] else [FromLittleEndian(t[..2])] + DecodeEntries(t[2..])
  }

  function Leftover(t: seq<Byte>): (r: seq<Byte>)
    ensures |r| <= 1
  {
    if |t| < 2 then t else Leftover(t[2..])
  }

  function WalkTable(t: seq<Byte>, acc: seq<nat>): Result
    decreases |t|
  {
    if |t| < 8 then Ok(acc)
    else
      var page, size := FromLittleEndian(t[..4]), FromLittleEndian(t[4..8]);
      if size < 8 || size > |t| then Err(BadBlockSize)
      else
        match TakeEntries(acc, BlockFixups(page, DecodeEntries(t[8..size])))
        case Err(e) => Err(e)
        case Ok(acc') => WalkTable(t[size..], acc')
  }

  // --- The walk finds exactly the DIR64 entries -----------------------------------------------------

  /** Taking entries one by one: it works exactly when all are supported and within the limit, and
      then it adds their targets. */
  lemma {:induction false} TakeEntriesIsExact(acc: seq<nat>, fixups: seq<Fixup>)
    ensures TakeEntries(acc, fixups).Ok? <==> Supported(fixups) && WithinLimit(fixups, |acc|)
    ensures TakeEntries(acc, fixups).Ok? ==> TakeEntries(acc, fixups).targets == acc + Targets(fixups)
    decreases |fixups|
  {
    if fixups != [] {
      hide Supported, WithinLimit, Kind, Target;
      var f, rest := fixups[0], fixups[1..];
      LimitStep(fixups, |acc|);
      SupportedStep(fixups);
      if TakeEntry(acc, f).Ok? {
        TakeEntriesIsExact(TakeEntry(acc, f).targets, rest);
        assert acc + [Target(f)] + Targets(rest) == acc + ([Target(f)] + Targets(rest));
      }
    }
  }

  lemma SupportedStep(fixups: seq<Fixup>)
    requires fixups != []
    ensures Supported(fixups) <==>
            (Kind(fixups[0]) == ABSOLUTE || (Kind(fixups[0]) == DIR64 && Target(fixups[0]) < TWO_32)) && Supported(fixups[1..])
  {
    hide Kind, Target;
    assert fixups == [fixups[0]] + fixups[1..];
  }

  lemma LimitStep(fixups: seq<Fixup>, n: nat)
    requires fixups != []
    ensures WithinLimit(fixups, n) <==>
            n < MAX_RELOCATIONS && WithinLimit(fixups[1..], n + if Kind(fixups[0]) == DIR64 then 1 else 0)
  {
    var rest, add := fixups[1..], if Kind(fixups[0]) == DIR64 then 1 else 0;
    assert |Targets(fixups[..0])| == 0;
    forall i: nat | i < |rest| ensures |Targets(fixups[..i + 1])| == add + |Targets(rest[..i])| {
      assert fixups[..i + 1][1..] == rest[..i];
    }
    if WithinLimit(fixups, n) {
      forall i: nat | i < |rest| ensures n + add + |Targets(rest[..i])| < MAX_RELOCATIONS {
        assert n + |Targets(fixups[..i + 1])| < MAX_RELOCATIONS;
      }
    }
    if n < MAX_RELOCATIONS && WithinLimit(rest, n + add) {
      forall i: nat | i < |fixups| ensures n + |Targets(fixups[..i])| < MAX_RELOCATIONS {
        if i > 0 {
          assert n + add + |Targets(rest[..i - 1])| < MAX_RELOCATIONS;
        }
      }
    }
  }

  lemma {:induction false} TakeEntriesThen(acc: seq<nat>, a: seq<Fixup>, b: seq<Fixup>)
    ensures TakeEntries(acc, a + b) ==
            match TakeEntries(acc, a)
            case Err(e) => Err(e)
            case Ok(acc') => TakeEntries(acc', b)
    decreases |a|
  {
    if a == [] {
      assert a + b == b;
    } else {
      assert (a + b)[1..] == a[1..] + b;
      if TakeEntry(acc, a[0]).Ok? {
        TakeEntriesThen(TakeEntry(acc, a[0]).targets, a[1..], b);
      }
    }
  }

  lemma FirstEntry(entries: seq<nat>, pad: seq<Byte>)
    requires entries != []
    ensures
      var t := EncodeEntries(entries) + pad;
      |t| >= 2 && t[..2] == ToLittleEndian(entries[0], 2) && t[2..] == EncodeEntries(entries[1..]) + pad
  {
    var first, rest := ToLittleEndian(entries[0], 2), EncodeEntries(entries[1..]);
    assert EncodeEntries(entries) == first + rest;
    Peel(first, rest, pad);
  }

  lemma Peel(first: seq<Byte>, rest: seq<Byte>, pad: seq<Byte>)
    requires |first| == 2
    ensures |first + rest + pad| >= 2 && (first + rest + pad)[..2] == first && (first + rest + pad)[2..] == rest + pad
  {
  }

  lemma {:induction false} EntriesRoundTrip(entries: seq<nat>, pad: seq<Byte>)
    requires |pad| <= 1 && forall i | 0 <= i < |entries| :: entries[i] < 0x1_0000
    ensures DecodeEntries(EncodeEntries(entries) + pad) == entries
    decreases |entries|
  {
    hide EncodeEntries, ToLittleEndian, FromLittleEndian;
    if entries == [] {
      NoEntries(pad);
    } else {
      FirstEntry(entries, pad);
      assert Pow256(2) == 0x1_0000 by {
        assert Pow256(1) == 256;
      }
      LittleEndianRoundTrip(entries[0], 2);
      EntriesRoundTrip(entries[1..], pad);
    }
  }

  lemma NoEntries(pad: seq<Byte>)
    requires |pad| <= 1
    ensures DecodeEntries(EncodeEntries([]) + pad) == []
  {
  }

  // --- One target, byte by byte ---------------------------------------------------------------------

  /** A block for one 32-bit target: its page, the size ten, and an entry of kind ten, all low byte first. */
  function PrintTarget(t: nat): (r: seq<Byte>)
    requires t < TWO_32
    ensures |r| == 10
  {
    var q := t / 256;
    var page := q / 16;
    [0, (page % 16 * 16) as Byte, (page / 16 % 256) as Byte, (page / 16 / 256) as Byte, 10, 0, 0, 0,
     (t % 256) as Byte, (160 + q % 16) as Byte]
  }

  function PrintTargets(targets: seq<nat>): seq<Byte>
    requires forall i | 0 <= i < |targets| :: targets[i] < TWO_32
  {
    if targets == [] then [] else PrintTarget(targets[0]) + PrintTargets(targets[1..])
  }

  lemma TargetReads(t: nat, rest: seq<Byte>)
    requires t < TWO_32
    ensures
      var p := PrintTarget(t) + rest;
      && FromLittleEndian(p[..4]) == t - t % 0x1000 && FromLittleEndian(p[4..8]) == 10 && p[10..] == rest
      && DecodeEntries(p[8..10]) == [40960 + t % 0x1000]
  {
    hide FromLittleEndian;
    var q := PrintTarget(t);
    var p := q + rest;
    assert p[..4] == q[..4] && p[4..8] == q[4..8] && p[8..10] == q[8..10];
    FourBytes(q[..4]);
    FourBytes(q[4..8]);
    OneEntry(q[8..10]);
    TargetDigits(t);
  }

  lemma OneEntry(b: seq<Byte>)
    requires |b| == 2
    ensures DecodeEntries(b) == [b[0] as nat + 256 * b[1] as nat]
  {
    TwoBytes(b);
    assert b[..2] == b && b[2..] == [];
  }

  lemma TargetDigits(t: nat)
    ensures
      var q := t / 256;
      var page := q / 16;
      && t % 0x1000 == t % 256 + 256 * (q % 16)
      && 256 * (page % 16 * 16) + 0x1_0000 * (page / 16 % 256) + 0x100_0000 * (page / 16 / 256 % 256) + 0x1_0000_0000 * (page / 16 / 256 / 256)
         == t - t % 0x1000
  {
    var q := t / 256;
    assert t == 0x1000 * (q / 16) + (t % 256 + 256 * (q % 16));
  }

  lemma FourBytes(b: seq<Byte>)
    requires |b| == 4
    ensures FromLittleEndian(b) == b[0] as nat + 256 * b[1] as nat + 0x1_0000 * b[2] as nat + 0x100_0000 * b[3] as nat
  {
    TwoBytes(b[2..]);
    assert b[1..][1..] == b[2..];
    assert FromLittleEndian(b[1..]) == b[1] as nat + 256 * FromLittleEndian(b[2..]);
  }

  lemma TwoBytes(b: seq<Byte>)
    requires |b| == 2
    ensures FromLittleEndian(b) == b[0] as nat + 256 * b[1] as nat
  {
    assert b[1..][1..] == [];
    assert FromLittleEndian(b[1..]) == b[1] as nat;
  }

  /** Up to 65,536 targets, printed so, are read back in order. */
  lemma {:induction false} PrintedTargets(targets: seq<nat>, acc: seq<nat>)
    requires |acc| + |targets| <= 65_536 && forall i | 0 <= i < |targets| :: targets[i] < 0x1_0000_0000
    ensures WalkTable(PrintTargets(targets), acc) == Ok(acc + targets)
    decreases |targets|
  {
    hide PrintTarget, FromLittleEndian, DecodeEntries;
    if targets == [] {
      assert acc + targets == acc;
    } else {
      var t, rest := targets[0], PrintTargets(targets[1..]);
      TargetReads(t, rest);
      TakenIs(acc, t);
      PrintedTargets(targets[1..], acc + [t]);
      assert acc + [t] + targets[1..] == acc + targets;
    }
  }

  lemma TakenIs(acc: seq<nat>, t: nat)
    requires |acc| < 65_536 && t < TWO_32
    ensures TakeEntries(acc, BlockFixups(t - t % 0x1000, [40960 + t % 0x1000])) == Ok(acc + [t])
  {
    var f := Fixup(t - t % 0x1000, 40960 + t % 0x1000);
    assert BlockFixups(f.page, [f.entry][1..]) == [];
    assert BlockFixups(f.page, [f.entry]) == [f];
    assert TakeEntries(acc + [t], [f][1..]) == Ok(acc + [t]);
    assert Kind(f) == DIR64 && Target(f) == t;
  }

  lemma BlockRoundTrip(b: Block, rest: seq<Byte>)
    requires GoodBlock(b)
    ensures
      var t := EncodeBlock(b) + rest;
      && |t| >= 8 && FromLittleEndian(t[..4]) == b.page && FromLittleEndian(t[4..8]) == BlockSize(b)
      && BlockSize(b) <= |t| && t[8..BlockSize(b)] == EncodeEntries(b.entries) + b.pad && t[BlockSize(b)..] == rest
  {
    var t := EncodeBlock(b) + rest;
    assert t[..4] == ToLittleEndian(b.page, 4);
    assert t[4..8] == ToLittleEndian(BlockSize(b), 4);
    assert t[8..BlockSize(b)] == EncodeEntries(b.entries) + b.pad;
    WordSizes();
    LittleEndianRoundTrip(b.page, 4);
    LittleEndianRoundTrip(BlockSize(b), 4);
  }

  /** Every table of blocks, with whatever short tail, is walked entry by entry in file order. */
  lemma {:induction false} WalkTableIsExact(blocks: seq<Block>, tail: seq<Byte>, acc: seq<nat>)
    requires GoodBlocks(blocks) && |tail| < 8
    ensures WalkTable(EncodeTable(blocks) + tail, acc) == TakeEntries(acc, AllFixups(blocks))
    decreases |blocks|
  {
    if blocks == [] {
      assert EncodeTable(blocks) + tail == tail;
    } else {
      var b, rest := blocks[0], EncodeTable(blocks[1..]) + tail;
      assert EncodeTable(blocks) + tail == EncodeBlock(b) + rest;
      BlockRoundTrip(b, rest);
      EntriesRoundTrip(b.entries, b.pad);
      TakeEntriesThen(acc, BlockFixups(b.page, b.entries), AllFixups(blocks[1..]));
      var taken := TakeEntries(acc, BlockFixups(b.page, b.entries));
      if taken.Ok? {
        WalkTableIsExact(blocks[1..], tail, taken.targets);
      }
    }
  }

  /** A table and what is left when no block header fits any more, where every size is possible. */
  datatype Split = Split(blocks: seq<Block>, tail: seq<Byte>)

  function SplitTable(t: seq<Byte>): Option<Split>
    decreases |t|
  {
    if |t| < 8 then Some(Split([], t))
    else
      var size := FromLittleEndian(t[4..8]);
      if size < 8 || size > |t| then None
      else
        var body := t[8..size];
        match SplitTable(t[size..])
        case None => None
        case Some(rest) =>
          Some(Split([Block(FromLittleEndian(t[..4]), DecodeEntries(body), Leftover(body))] + rest.blocks, rest.tail))
  }

  lemma {:induction false} DecodeThenEncode(t: seq<Byte>)
    ensures EncodeEntries(DecodeEntries(t)) + Leftover(t) == t
    ensures forall i | 0 <= i < |DecodeEntries(t)| :: DecodeEntries(t)[i] < 0x1_0000
    decreases |t|
  {
    if |t| >= 2 {
      DecodeThenEncode(t[2..]);
      var first := FromLittleEndian(t[..2]);
      ReadThenWrite(t[..2]);
      FromLittleEndianBound(t[..2]);
      assert Pow256(2) == 0x1_0000 by {
        assert Pow256(1) == 256;
      }
      assert DecodeEntries(t) == [first] + DecodeEntries(t[2..]);
      assert EncodeEntries(DecodeEntries(t)) == ToLittleEndian(first, 2) + EncodeEntries(DecodeEntries(t[2..]));
      assert t == t[..2] + t[2..];
    }
  }

  /** Conversely, where the sizes are possible, the bytes are a table of blocks. */
  lemma {:induction false} SplitTableIsTable(t: seq<Byte>)
    ensures SplitTable(t).Some? ==>
              var split := SplitTable(t).value;
              GoodBlocks(split.blocks) && |split.tail| < 8 && t == EncodeTable(split.blocks) + split.tail
    ensures SplitTable(t).None? ==> forall acc: seq<nat> :: WalkTable(t, acc).Err?
    decreases |t|
  {
    hide FromLittleEndian, DecodeEntries, Leftover, BlockFixups, TakeEntries;
    if |t| >= 8 {
      var page, size := FromLittleEndian(t[..4]), FromLittleEndian(t[4..8]);
      if 8 <= size <= |t| {
        SplitTableIsTable(t[size..]);
        if SplitTable(t[size..]).Some? {
          var b := Block(page, DecodeEntries(t[8..size]), Leftover(t[8..size]));
          BlockFromBytes(t, b, size);
          OneMoreBlock(t, b, SplitTable(t[size..]).value);
        }
      }
    }
  }

  lemma OneMoreBlock(t: seq<Byte>, b: Block, rest: Split)
    requires GoodBlock(b) && GoodBlocks(rest.blocks) && BlockSize(b) <= |t| && EncodeBlock(b) == t[..BlockSize(b)]
    requires t[BlockSize(b)..] == EncodeTable(rest.blocks) + rest.tail
    ensures GoodBlocks([b] + rest.blocks) && t == EncodeTable([b] + rest.blocks) + rest.tail
  {
    var blocks := [b] + rest.blocks;
    assert blocks[1..] == rest.blocks;
    assert t == t[..BlockSize(b)] + t[BlockSize(b)..];
  }

  lemma BlockFromBytes(t: seq<Byte>, b: Block, size: nat)
    requires 8 <= size <= |t| && size == FromLittleEndian(t[4..8]) && b.page == FromLittleEndian(t[..4])
    requires
      var body := t[8..size];
      b.entries == DecodeEntries(body) && b.pad == Leftover(body)
    ensures GoodBlock(b) && BlockSize(b) == size && EncodeBlock(b) == t[..size]
  {
    var body := t[8..size];
    DecodeThenEncode(body);
    WordSizes();
    FromLittleEndianBound(t[..4]);
    FromLittleEndianBound(t[4..8]);
    ReadThenWrite(t[..4]);
    ReadThenWrite(t[4..8]);
    assert BlockSize(b) == size;
    assert t[..size] == t[..4] + t[4..8] + body;
  }

  /** A successful walk: the bytes are a table of blocks, and the result is exactly the targets of
      its DIR64 entries in file order; and every such table is walked successfully. */
  lemma TableIsExact(t: seq<Byte>, targets: seq<nat>)
    ensures WalkTable(t, []) == Ok(targets) <==>
            exists blocks: seq<Block>, tail: seq<Byte> :: IsTable(t, blocks, tail, targets)
  {
    hide WalkTable, SplitTable, EncodeTable, AllFixups, Supported, WithinLimit, Targets, TakeEntries;
    SplitTableIsTable(t);
    if WalkTable(t, []) == Ok(targets) {
      var split := SplitTable(t).value;
      WalkTableIsExact(split.blocks, split.tail, []);
      TakeEntriesIsExact([], AllFixups(split.blocks));
      assert [] + Targets(AllFixups(split.blocks)) == Targets(AllFixups(split.blocks));
      assert IsTable(t, split.blocks, split.tail, targets);
    }
    if blocks: seq<Block>, tail: seq<Byte> :| IsTable(t, blocks, tail, targets) {
      WalkTableIsExact(blocks, tail, []);
      TakeEntriesIsExact([], AllFixups(blocks));
      assert [] + Targets(AllFixups(blocks)) == Targets(AllFixups(blocks));
    }
  }

  ghost predicate IsTable(t: seq<Byte>, blocks: seq<Block>, tail: seq<Byte>, targets: seq<nat>) {
    && GoodBlocks(blocks) && |tail| < 8 && t == EncodeTable(blocks) + tail
    && Supported(AllFixups(blocks)) && WithinLimit(AllFixups(blocks), 0) && targets == Targets(AllFixups(blocks))
  }

  // --- The parser -----------------------------------------------------------------------------------

  /** What `parse_relocations` returns for a directory of a file. */
  function TableOf(bytes: seq<Byte>, rva: nat, size: nat, toOffset: nat -> Option<nat>): Result {
    if rva == 0 || size == 0 then Ok([])
    else
      match toOffset(rva)
      case None => Err(Unmapped)
      case Some(start) =>
        if start + size > |bytes| then Err(OutsideFile) else WalkTable(bytes[start..start + size], [])
  }

  method ParseRelocations(bytes: seq<Byte>, rva: nat, size: nat, toOffset: nat -> Option<nat>) returns (r: Result)
    ensures r == TableOf(bytes, rva, size, toOffset)
  {
    hide WalkTable, DecodeEntries, BlockFixups, TakeEntries, FromLittleEndian;
    if rva == 0 || size == 0 {
      return Ok([]);
    }
    var mapped := toOffset(rva);
    if mapped.None? {
      return Err(Unmapped);
    }
    var start := mapped.value;
    var end := start + size;
    if end > |bytes| {
      return Err(OutsideFile);
    }
    var relocations: seq<nat> := [];
    var at := start;
    while at + 8 <= end
      invariant start <= at <= end
      invariant WalkTable(bytes[at..end], relocations) == WalkTable(bytes[start..end], [])
      decreases end - at
    {
      var page := ReadLittleEndian(bytes, at, 4);
      var blockSize := ReadLittleEndian(bytes, at + 4, 4);
      WalkStep(bytes, at, end, relocations);
      if blockSize < 8 || at + blockSize > end {
        return Err(BadBlockSize);
      }
      var taken := ParseBlock(bytes, at, blockSize, page, relocations);
      if taken.Err? {
        return taken;
      }
      relocations := taken.targets;
      at := at + blockSize;
    }
    WalkEnd(bytes[at..end], relocations);
    return Ok(relocations);
  }

  lemma WalkEnd(t: seq<Byte>, acc: seq<nat>)
    requires |t| < 8
    ensures WalkTable(t, acc) == Ok(acc)
  {
  }

  lemma WalkStep(bytes: seq<Byte>, at: nat, end: nat, acc: seq<nat>)
    requires at + 8 <= end <= |bytes|
    ensures
      var page, size := ReadLittleEndian(bytes, at, 4), ReadLittleEndian(bytes, at + 4, 4);
      WalkTable(bytes[at..end], acc) ==
      if size < 8 || at + size > end then Err(BadBlockSize)
      else
        match TakeEntries(acc, BlockFixups(page, DecodeEntries(bytes[at + 8..at + size])))
        case Err(e) => Err(e)
        case Ok(acc') => WalkTable(bytes[at + size..end], acc')
  {
    var t := bytes[at..end];
    SliceWithin(bytes, at, end, 0, 4);
    SliceWithin(bytes, at, end, 4, 8);
    assert t[0..4] == t[..4];
    var size := FromLittleEndian(t[4..8]);
    if 8 <= size <= |t| {
      SliceWithin(bytes, at, end, 8, size);
      SliceWithin(bytes, at, end, size, |t|);
      assert t[size..|t|] == t[size..];
    }
  }

  /** The entries of one block. */
  method ParseBlock(bytes: seq<Byte>, at: nat, blockSize: nat, page: nat, relocations: seq<nat>) returns (r: Result)
    requires 8 <= blockSize && at + blockSize <= |bytes|
    ensures r == TakeEntries(relocations, BlockFixups(page, DecodeEntries(bytes[at + 8..at + blockSize])))
  {
    hide TakeEntries, DecodeEntries, BlockFixups, FromLittleEndian;
    var entries := (blockSize - 8) / 2;
    var found: seq<nat> := relocations;
    ghost var body := bytes[at + 8..at + blockSize];
    ghost var all := TakeFrom(body, page, relocations);
    assert body[2 * 0..] == body;
    for index := 0 to entries
      invariant TakeFrom(body[2 * index..], page, found) == all
    {
      ghost var rest := body[2 * index..];
      SliceWithin(bytes, at + 8, at + blockSize, 2 * index, 2 * index + 2);
      assert rest[..2] == body[2 * index..2 * index + 2];
      assert rest[2..] == body[2 * (index + 1)..];
      var entry := ReadLittleEndian(bytes, at + 8 + 2 * index, 2);
      TakeFromStep(rest, page, found);
      if |found| >= MAX_RELOCATIONS {
        return Err(TooMany);
      }
      var kind := entry / 0x1000;
      var offset := entry % 0x1000;
      if kind == ABSOLUTE {
      } else if kind == DIR64 {
        if page + offset >= TWO_32 {
          return Err(Overflow);
        }
        found := found + [page + offset];
      } else {
        return Err(BadKind);
      }
    }
    TakeFromShort(body[2 * entries..], page, found);
    return Ok(found);
  }

  /** The entries in a block's bytes, taken in order. */
  function TakeFrom(t: seq<Byte>, page: nat, acc: seq<nat>): Result {
    TakeEntries(acc, BlockFixups(page, DecodeEntries(t)))
  }

  lemma TakeFromStep(t: seq<Byte>, page: nat, acc: seq<nat>)
    requires |t| >= 2
    ensures TakeFrom(t, page, acc) ==
            match TakeEntry(acc, Fixup(page, FromLittleEndian(t[..2])))
            case Err(e) => Err(e)
            case Ok(acc') => TakeFrom(t[2..], page, acc')
  {
    hide FromLittleEndian;
    var entries := DecodeEntries(t);
    assert entries[1..] == DecodeEntries(t[2..]);
    assert BlockFixups(page, entries)[1..] == BlockFixups(page, entries[1..]);
  }

  lemma TakeFromShort(t: seq<Byte>, page: nat, acc: seq<nat>)
    requires |t| < 2
    ensures TakeFrom(t, page, acc) == Ok(acc)
  {
  }
}
