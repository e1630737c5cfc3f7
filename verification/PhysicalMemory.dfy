/** Physical frames as bytes, and the page-table entries stored in them (section 4.5 of the Intel
    SDM, Volume 3A: 512 eight-byte entries to a table). */
module PhysicalMemory {
  import opened Options
  import opened Bytes

  /** A 4 KiB physical frame, by number. */
  type Frame = nat

  type Memory = map<Frame, seq<Byte>>

  const PAGE: nat := 4096
  const MAX_FRAMES: nat := 0x100_0000_0000

  predicate MemoryOk(mem: Memory) {
    forall f | f in mem :: f < MAX_FRAMES && |mem[f]| == PAGE
  }

  datatype Flags = Flags(present: bool, writable: bool, user: bool, huge: bool, noExecute: bool)

  datatype Pte = Pte(frame: Frame, flags: Flags)

  function Bit(b: bool): nat {
    if b then 1 else 0
  }

  function Encode(e: Pte): nat {
    Bit(e.flags.present) + 2 * Bit(e.flags.writable) + 4 * Bit(e.flags.user) + 128 * Bit(e.flags.huge)
    + 4096 * e.frame + 0x8000_0000_0000_0000 * Bit(e.flags.noExecute)
  }

  function Decode(x: nat): Pte {
    Pte(x / 4096 % MAX_FRAMES,
        Flags(x % 2 == 1, x / 2 % 2 == 1, x / 4 % 2 == 1, x / 128 % 2 == 1, x / 0x8000_0000_0000_0000 % 2 == 1))
  }

  lemma DecodeLow(low: nat, frame: nat, high: nat)
    requires low < 4096 && frame < MAX_FRAMES && high <= 1
    ensures
      var x := low + 4096 * frame + 0x8000_0000_0000_0000 * high;
      && x / 4096 % MAX_FRAMES == frame
      && x % 4096 == low
      && x / 0x8000_0000_0000_0000 == high
  {
    var x := low + 4096 * frame + 0x8000_0000_0000_0000 * high;
    assert x / 4096 == frame + 0x8_0000_0000_0000 * high;
    assert frame + 0x8_0000_0000_0000 * high == frame + MAX_FRAMES * (0x800 * high);
  }

  lemma LowBits(x: nat, a: nat, b: nat, c: nat, d: nat)
    requires a <= 1 && b <= 1 && c <= 1 && d <= 1
    requires x % 4096 == a + 2 * b + 4 * c + 128 * d
    ensures x % 2 == a && x / 2 % 2 == b && x / 4 % 2 == c && x / 128 % 2 == d
  {
    var k := x / 4096;
    assert x == 2 * (2048 * k + b + 2 * c + 64 * d) + a;
    HalfOf(2048 * k + b + 2 * c + 64 * d, a);
    assert x / 2 == 2 * (1024 * k + c + 32 * d) + b;
    HalfOf(1024 * k + c + 32 * d, b);
    assert x / 4 == x / 2 / 2;
    assert x / 4 == 2 * (512 * k + 16 * d) + c;
    HalfOf(512 * k + 16 * d, c);
    assert x == 128 * (32 * k + d) + (a + 2 * b + 4 * c);
    assert x / 128 == 2 * (16 * k) + d;
    HalfOf(16 * k, d);
  }

  lemma HalfOf(h: nat, bit: nat)
    requires bit <= 1
    ensures (2 * h + bit) / 2 == h && (2 * h + bit) % 2 == bit
  {
  }

  lemma DecodeIs(x: nat, e: Pte)
    requires x / 4096 % MAX_FRAMES == e.frame && x / 0x8000_0000_0000_0000 == Bit(e.flags.noExecute)
    requires x % 4096 == Bit(e.flags.present) + 2 * Bit(e.flags.writable) + 4 * Bit(e.flags.user) + 128 * Bit(e.flags.huge)
    ensures Decode(x) == e
  {
    var fl := e.flags;
    LowBits(x, Bit(fl.present), Bit(fl.writable), Bit(fl.user), Bit(fl.huge));
  }

  lemma EntryEncoding(e: Pte)
    requires e.frame < MAX_FRAMES
    ensures Decode(Encode(e)) == e && Encode(e) < TWO_64
    ensures e.flags.present ==> Encode(e) != 0
  {
    hide Decode;
    var fl := e.flags;
    var low := Bit(fl.present) + 2 * Bit(fl.writable) + 4 * Bit(fl.user) + 128 * Bit(fl.huge);
    DecodeLow(low, e.frame, Bit(fl.noExecute));
    DecodeIs(Encode(e), e);
  }

  /** The bits of an entry (tables 4-15 and 4-20 of the SDM): present is bit 0, writable bit 1, user bit 2,
      page size bit 7, the frame bits 12 to 51, execute-disable bit 63. */
  lemma EntryBits(e: Pte)
    requires e.frame < MAX_FRAMES
    ensures
      var x, fl := Encode(e), e.flags;
      && (x % 2 == 1 <==> fl.present) && (x / 2 % 2 == 1 <==> fl.writable) && (x / 4 % 2 == 1 <==> fl.user)
      && (x / 128 % 2 == 1 <==> fl.huge) && (x / 0x8000_0000_0000_0000 == 1 <==> fl.noExecute)
      && x / 0x1000 % 0x100_0000_0000 == e.frame
  {
    var fl := e.flags;
    var low := Bit(fl.present) + 2 * Bit(fl.writable) + 4 * Bit(fl.user) + 128 * Bit(fl.huge);
    DecodeLow(low, e.frame, Bit(fl.noExecute));
    LowBits(Encode(e), Bit(fl.present), Bit(fl.writable), Bit(fl.user), Bit(fl.huge));
  }

  // --- Entries of a table -------------------------------------------------------------------------

  function RawEntry(table: seq<Byte>, i: nat): nat
    requires |table| == PAGE && i < 512
  {
    FromLittleEndian(table[8 * i..8 * i + 8])
  }

  /** The entry at index `i`, or `None` if it is unused (all zero). */
  function EntryAt(table: seq<Byte>, i: nat): Option<Pte>
    requires |table| == PAGE && i < 512
  {
    if RawEntry(table, i) == 0 then None else Some(Decode(RawEntry(table, i)))
  }

  function SetEntry(table: seq<Byte>, i: nat, e: Pte): (r: seq<Byte>)
    requires |table| == PAGE && i < 512
    ensures |r| == PAGE
  {
    table[..8 * i] + ToLittleEndian(Encode(e), 8) + table[8 * i + 8..]
  }

  function ZeroFrame(): (z: seq<Byte>)
    ensures |z| == PAGE
  {
    seq(PAGE, i => 0)
  }

  lemma SetThenGet(table: seq<Byte>, i: nat, e: Pte)
    requires |table| == PAGE && i < 512 && e.frame < MAX_FRAMES && e.flags.present
    ensures EntryAt(SetEntry(table, i, e), i) == Some(e)
  {
    hide Encode, Decode, FromLittleEndian, ToLittleEndian;
    EntryEncoding(e);
    WordSizes();
    LittleEndianRoundTrip(Encode(e), 8);
    assert SetEntry(table, i, e)[8 * i..8 * i + 8] == ToLittleEndian(Encode(e), 8);
  }

  lemma SetKeepsOthers(table: seq<Byte>, i: nat, e: Pte, j: nat)
    requires |table| == PAGE && i < 512 && j < 512 && i != j
    ensures EntryAt(SetEntry(table, i, e), j) == EntryAt(table, j)
  {
    hide Encode, Decode, FromLittleEndian, ToLittleEndian;
    var r := SetEntry(table, i, e);
    assert r[8 * j..8 * j + 8] == table[8 * j..8 * j + 8];
  }

  /** The upper 256 entries of a table, as bytes. */
  function UpperHalf(table: seq<Byte>): seq<Byte>
    requires |table| == PAGE
  {
    table[2048..]
  }

  lemma SetKeepsUpperHalf(table: seq<Byte>, i: nat, e: Pte)
    requires |table| == PAGE && i < 256
    ensures UpperHalf(SetEntry(table, i, e)) == UpperHalf(table)
  {
    hide Encode, ToLittleEndian;
    var r := SetEntry(table, i, e);
    assert forall k | 2048 <= k < PAGE :: r[k] == table[k];
  }

  lemma ZeroHasNoEntries(i: nat)
    requires i < 512
    ensures EntryAt(ZeroFrame(), i) == None
  {
    AllZero(ZeroFrame()[8 * i..8 * i + 8]);
  }

  lemma {:induction false} AllZero(bytes: seq<Byte>)
    requires forall k | 0 <= k < |bytes| :: bytes[k] == 0
    ensures FromLittleEndian(bytes) == 0
  {
    if bytes != [] {
      AllZero(bytes[1..]);
    }
  }
}
