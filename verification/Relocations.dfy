/** Moving a PE image from its preferred base: adding one difference to many words of a space
    (kernel/src/mirage.rs). */
module Relocations {
  import opened Options
  import opened Bytes
  import opened PhysicalMemory
  import opened PageTables
  import opened FrameAllocation
  import opened AddressSpaces
  import opened Machines

  /** Memory as a program sees it. */
  type View = nat -> Option<Byte>

  ghost predicate Same(v: View, w: View) {
    forall x: nat :: v(x) == w(x)
  }

  ghost predicate Mapped(v: View, a: nat) {
    forall x: nat | a <= x < a + 8 :: v(x).Some?
  }

  ghost function WordBytes(v: View, a: nat): (r: seq<Byte>)
    requires Mapped(v, a)
    ensures |r| == 8
  {
    seq(8, k requires 0 <= k < 8 => v(a + k).value)
  }

  ghost function WordAt(v: View, a: nat): nat
    requires Mapped(v, a)
  {
    FromLittleEndian(WordBytes(v, a))
  }

  ghost function Put(v: View, a: nat, bytes: seq<Byte>): View {
    (x: nat) => if a <= x < a + |bytes| then Some(bytes[x - a]) else v(x)
  }

  /** One word moved by `d`, modulo 2^64. */
  ghost function AddWord(v: View, a: nat, d: nat): View {
    if Mapped(v, a) then Put(v, a, ToLittleEndian((WordAt(v, a) + d) % TWO_64, 8)) else v
  }

  /** Each word of a list moved in turn. */
  ghost function Relocate(v: View, targets: seq<nat>, d: nat): View {
    if targets == [] then v else AddWord(Relocate(v, targets[..|targets| - 1], d), targets[|targets| - 1], d)
  }

  // --- One word -----------------------------------------------------------------------------------

  lemma PutWord(v: View, a: nat, bytes: seq<Byte>)
    requires |bytes| == 8
    ensures Mapped(Put(v, a, bytes), a) && WordBytes(Put(v, a, bytes), a) == bytes
  {
  }

  lemma AddedWord(v: View, a: nat, d: nat)
    requires Mapped(v, a)
    ensures Mapped(AddWord(v, a, d), a) && WordAt(AddWord(v, a, d), a) == (WordAt(v, a) + d) % TWO_64
  {
    hide WordAt, Put;
    var word := (WordAt(v, a) + d) % TWO_64;
    PutWord(v, a, ToLittleEndian(word, 8));
    WordSizes();
    LittleEndianRoundTrip(word, 8);
    WordIs(AddWord(v, a, d), a);
  }

  lemma WordIs(v: View, a: nat)
    requires Mapped(v, a)
    ensures WordAt(v, a) == FromLittleEndian(WordBytes(v, a))
  {
  }

  ghost predicate SameThere(v: View, w: View, a: nat) {
    forall x: nat | a <= x < a + 8 :: v(x) == w(x)
  }

  /** The same bytes make the same word. */
  lemma SameWord(v: View, w: View, a: nat)
    requires SameThere(v, w, a)
    ensures Mapped(v, a) <==> Mapped(w, a)
    ensures Mapped(v, a) ==> WordAt(v, a) == WordAt(w, a)
  {
    if Mapped(v, a) {
      assert Mapped(w, a);
      assert WordBytes(v, a) == WordBytes(w, a);
    }
  }

  lemma AddWordCongruent(v: View, w: View, a: nat, d: nat)
    requires Same(v, w)
    ensures Same(AddWord(v, a, d), AddWord(w, a, d))
  {
    hide Mapped, WordAt;
    assert SameThere(v, w, a);
    SameWord(v, w, a);
    if Mapped(v, a) {
      PutCongruent(v, w, a, ToLittleEndian((WordAt(v, a) + d) % TWO_64, 8));
    }
  }

  lemma PutCongruent(v: View, w: View, a: nat, bytes: seq<Byte>)
    requires Same(v, w)
    ensures Same(Put(v, a, bytes), Put(w, a, bytes))
  {
  }

  lemma AddWordElsewhere(v: View, a: nat, d: nat, x: nat)
    requires !(a <= x < a + 8)
    ensures AddWord(v, a, d)(x) == v(x)
  {
    hide WordAt, Mapped;
  }

  lemma AddWordKeepsMapped(v: View, a: nat, d: nat, b: nat)
    ensures Mapped(AddWord(v, a, d), b) <==> Mapped(v, b)
  {
    hide WordAt;
    if Mapped(v, a) {
      PutKeepsMapped(v, a, ToLittleEndian((WordAt(v, a) + d) % TWO_64, 8), b);
    }
  }

  lemma PutKeepsMapped(v: View, a: nat, bytes: seq<Byte>, b: nat)
    requires Mapped(v, a) && |bytes| == 8
    ensures Mapped(Put(v, a, bytes), b) <==> Mapped(v, b)
  {
    var w := Put(v, a, bytes);
    forall x: nat ensures w(x).Some? <==> v(x).Some? {
      assert a <= x < a + 8 ==> v(x).Some?;
    }
  }

  function Negated(d: nat): (r: nat)
    requires d < TWO_64
    ensures r < TWO_64
  {
    (TWO_64 - d) % TWO_64
  }

  /** Adding the difference and taking it away again leaves every byte as it was. */
  lemma AddWordUndone(v: View, a: nat, d: nat)
    requires d < TWO_64
    ensures Same(AddWord(AddWord(v, a, d), a, Negated(d)), v)
  {
    hide Put, Mapped, WordAt;
    if Mapped(v, a) {
      var w := AddWord(v, a, d);
      AddedWord(v, a, d);
      WordInRange(v, a);
      Cancels(WordAt(v, a), d);
      WordBytesAgain(v, a);
      PutBack(v, a, ToLittleEndian((WordAt(v, a) + d) % TWO_64, 8));
    }
  }

  lemma Cancels(word: nat, d: nat)
    requires word < TWO_64 && d < TWO_64
    ensures ((word + d) % TWO_64 + Negated(d)) % TWO_64 == word
  {
  }

  lemma WordInRange(v: View, a: nat)
    requires Mapped(v, a)
    ensures WordAt(v, a) < TWO_64
  {
    WordSizes();
    FromLittleEndianBound(WordBytes(v, a));
  }

  lemma WordBytesAgain(v: View, a: nat)
    requires Mapped(v, a)
    ensures ToLittleEndian(WordAt(v, a), 8) == WordBytes(v, a)
  {
    ReadThenWrite(WordBytes(v, a));
  }

  lemma PutBack(v: View, a: nat, bytes: seq<Byte>)
    requires Mapped(v, a) && |bytes| == 8
    ensures Same(Put(Put(v, a, bytes), a, WordBytes(v, a)), v)
  {
    var w := Put(Put(v, a, bytes), a, WordBytes(v, a));
    forall x: nat ensures w(x) == v(x) {
      if a <= x < a + 8 {
        ByteOfWord(v, a, x);
      }
    }
  }

  lemma ByteOfWord(v: View, a: nat, x: nat)
    requires Mapped(v, a) && a <= x < a + 8
    ensures v(x) == Some(WordBytes(v, a)[x - a])
  {
    assert a + (x - a) == x;
  }

  // --- Many words ---------------------------------------------------------------------------------

  /** No two of the words share a byte. */
  predicate Spread(targets: seq<nat>) {
    forall i, j | 0 <= i < j < |targets| :: targets[i] + 8 <= targets[j] || targets[j] + 8 <= targets[i]
  }

  ghost predicate InWord(targets: seq<nat>, x: nat) {
    exists i :: 0 <= i < |targets| && targets[i] <= x < targets[i] + 8
  }

  lemma PrefixInWord(targets: seq<nat>, n: nat, x: nat)
    requires n <= |targets|
    ensures InWord(targets[..n], x) ==> InWord(targets, x)
  {
    if i :| 0 <= i < n && targets[..n][i] <= x < targets[..n][i] + 8 {
      assert targets[i] <= x < targets[i] + 8;
    }
  }

  lemma {:induction false} RelocateElsewhere(v: View, targets: seq<nat>, d: nat, x: nat)
    requires !InWord(targets, x)
    ensures Relocate(v, targets, d)(x) == v(x)
    decreases |targets|
  {
    hide AddWord;
    if targets != [] {
      var n := |targets| - 1;
      PrefixInWord(targets, n, x);
      assert targets[n] == targets[|targets| - 1];
      RelocateElsewhere(v, targets[..n], d, x);
      AddWordElsewhere(Relocate(v, targets[..n], d), targets[n], d, x);
    }
  }

  lemma {:induction false} RelocateKeepsMapped(v: View, targets: seq<nat>, d: nat, b: nat)
    ensures Mapped(Relocate(v, targets, d), b) <==> Mapped(v, b)
    decreases |targets|
  {
    hide AddWord, Mapped;
    if targets != [] {
      var n := |targets| - 1;
      RelocateKeepsMapped(v, targets[..n], d, b);
      AddWordKeepsMapped(Relocate(v, targets[..n], d), targets[n], d, b);
    }
  }

  /** Every target moves by exactly the difference. */
  lemma {:induction false} RelocatedTarget(v: View, targets: seq<nat>, d: nat, i: nat)
    requires Spread(targets) && i < |targets| && Mapped(v, targets[i])
    ensures Mapped(Relocate(v, targets, d), targets[i])
    ensures WordAt(Relocate(v, targets, d), targets[i]) == (WordAt(v, targets[i]) + d) % TWO_64
    decreases |targets|
  {
    hide AddWord, Mapped, WordAt;
    var n := |targets| - 1;
    var before, a := Relocate(v, targets[..n], d), targets[i];
    assert Spread(targets[..n]);
    RelocateKeepsMapped(v, targets, d, a);
    if i < n {
      assert targets[..n][i] == a;
      RelocatedTarget(v, targets[..n], d, i);
      var after := AddWord(before, targets[n], d);
      forall x: nat | a <= x < a + 8 ensures after(x) == before(x) {
        AddWordElsewhere(before, targets[n], d, x);
      }
      SameWord(after, before, a);
    } else {
      RelocateKeepsMapped(v, targets[..n], d, a);
      forall x: nat | a <= x < a + 8 ensures before(x) == v(x) {
        assert !InWord(targets[..n], x);
        RelocateElsewhere(v, targets[..n], d, x);
      }
      SameWord(before, v, a);
      AddedWord(before, a, d);
    }
  }

  /** The order of the list does not matter: two lists of the same words, no two sharing a byte,
      leave the same memory. */
  lemma OrderIndependent(v: View, s: seq<nat>, t: seq<nat>, d: nat)
    requires Spread(s) && Spread(t) && (forall a :: a in s <==> a in t) && forall a | a in s :: Mapped(v, a)
    ensures Same(Relocate(v, s, d), Relocate(v, t, d))
  {
    hide Relocate, Mapped, WordAt;
    forall x: nat ensures Relocate(v, s, d)(x) == Relocate(v, t, d)(x) {
      if InWord(s, x) {
        var i :| 0 <= i < |s| && s[i] <= x < s[i] + 8;
        assert s[i] in t;
        var j :| 0 <= j < |t| && t[j] == s[i];
        RelocatedTarget(v, s, d, i);
        RelocatedTarget(v, t, d, j);
        SameByte(Relocate(v, s, d), Relocate(v, t, d), s[i], x);
      } else {
        SubsetInWord(t, s, x);
        RelocateElsewhere(v, s, d, x);
        RelocateElsewhere(v, t, d, x);
      }
    }
  }

  lemma SubsetInWord(t: seq<nat>, s: seq<nat>, x: nat)
    requires forall a | a in t :: a in s
    ensures InWord(t, x) ==> InWord(s, x)
  {
    if j :| 0 <= j < |t| && t[j] <= x < t[j] + 8 {
      assert t[j] in s;
      var i :| 0 <= i < |s| && s[i] == t[j];
      assert s[i] <= x < s[i] + 8;
    }
  }

  lemma SameByte(v: View, w: View, a: nat, x: nat)
    requires Mapped(v, a) && Mapped(w, a) && WordAt(v, a) == WordAt(w, a) && a <= x < a + 8
    ensures v(x) == w(x)
  {
    WordBytesAgain(v, a);
    WordBytesAgain(w, a);
    ByteOfWord(v, a, x);
    ByteOfWord(w, a, x);
  }

  function Reversed(s: seq<nat>): (r: seq<nat>)
    ensures |r| == |s|
  {
    if s == [] then [] else [s[|s| - 1]] + Reversed(s[..|s| - 1])
  }

  lemma {:induction false} RelocateThen(v: View, a: nat, rest: seq<nat>, d: nat)
    ensures Relocate(v, [a] + rest, d) == Relocate(AddWord(v, a, d), rest, d)
    decreases |rest|
  {
    hide AddWord;
    var all := [a] + rest;
    if rest == [] {
      assert all == [a] && all[..0] == [];
      assert Relocate(v, all[..0], d) == v;
    } else {
      var n := |rest| - 1;
      assert all[..|all| - 1] == [a] + rest[..n];
      RelocateThen(v, a, rest[..n], d);
    }
  }

  lemma {:induction false} RelocateCongruent(v: View, w: View, targets: seq<nat>, d: nat)
    requires Same(v, w)
    ensures Same(Relocate(v, targets, d), Relocate(w, targets, d))
    decreases |targets|
  {
    hide AddWord, Same;
    if targets != [] {
      var n := |targets| - 1;
      RelocateCongruent(v, w, targets[..n], d);
      AddWordCongruent(Relocate(v, targets[..n], d), Relocate(w, targets[..n], d), targets[n], d);
    }
  }

  /** Relocating back, last target first, restores memory whatever the targets, overlapping or not. */
  lemma {:induction false} RelocateUndone(v: View, targets: seq<nat>, d: nat)
    requires d < TWO_64
    ensures Same(Relocate(Relocate(v, targets, d), Reversed(targets), Negated(d)), v)
    decreases |targets|
  {
    hide AddWord, Negated;
    if targets != [] {
      var n := |targets| - 1;
      var mid := Relocate(v, targets[..n], d);
      RelocateThen(AddWord(mid, targets[n], d), targets[n], Reversed(targets[..n]), Negated(d));
      AddWordUndone(mid, targets[n], d);
      RelocateCongruent(AddWord(AddWord(mid, targets[n], d), targets[n], Negated(d)), mid, Reversed(targets[..n]), Negated(d));
      RelocateUndone(v, targets[..n], d);
    }
  }

  lemma {:induction false} ReversedAt(s: seq<nat>, k: nat)
    requires k < |s|
    ensures Reversed(s)[k] == s[|s| - 1 - k]
    decreases |s|
  {
    if k > 0 {
      ReversedAt(s[..|s| - 1], k - 1);
    }
  }

  lemma ReversedSpread(s: seq<nat>)
    requires Spread(s)
    ensures Spread(Reversed(s)) && forall a :: a in Reversed(s) <==> a in s
  {
    var r := Reversed(s);
    forall k: nat | k < |s| ensures r[k] == s[|s| - 1 - k] {
      ReversedAt(s, k);
    }
    forall a | a in s ensures a in r {
      var i :| 0 <= i < |s| && s[i] == a;
      assert r[|s| - 1 - i] == a;
    }
  }

  /** For targets that share no byte, relocating back in file order restores memory as well. */
  lemma RelocateUndoneInOrder(v: View, targets: seq<nat>, d: nat)
    requires d < TWO_64 && Spread(targets) && forall a | a in targets :: Mapped(v, a)
    ensures Same(Relocate(Relocate(v, targets, d), targets, Negated(d)), v)
  {
    hide Relocate, Mapped, Negated, Spread;
    var w := Relocate(v, targets, d);
    forall a | a in targets ensures Mapped(w, a) {
      RelocateKeepsMapped(v, targets, d, a);
    }
    ReversedSpread(targets);
    OrderIndependent(w, targets, Reversed(targets), Negated(d));
    RelocateUndone(v, targets, d);
  }

  // --- apply_relocations ----------------------------------------------------------------------------

  ghost function ViewOf(ram: Memory, root: Frame): View {
    (x: nat) => if x < LOWER_HALF_END then ByteAt(ram, root, x) else None
  }

  function Addresses(base: nat, rvas: seq<nat>): (r: seq<nat>)
    ensures |r| == |rvas| && forall i | 0 <= i < |r| :: r[i] == base + rvas[i]
  {
    seq(|rvas|, i requires 0 <= i < |rvas| => base + rvas[i])
  }

  datatype ApplyResult = Applied | Outside(rva: nat) | Straddles(rva: nat)

  predicate CrossesPage(a: nat) {
    a % PAGE > PAGE - 8
  }

  /** The word at a mapped address, read through its frame. */
  lemma WordInFrame(ram: Memory, root: Frame, a: nat)
    requires a + 8 <= LOWER_HALF_END && !CrossesPage(a) && Walk(ram, root, PathOf(a / PAGE)).Some?
    requires
      var frame := Walk(ram, root, PathOf(a / PAGE)).value.frame;
      frame in ram && |ram[frame]| == PAGE
    ensures
      var frame := Walk(ram, root, PathOf(a / PAGE)).value.frame;
      var v := ViewOf(ram, root);
      Mapped(v, a) && WordAt(v, a) == FromLittleEndian(ram[frame][a % PAGE..a % PAGE + 8])
  {
    hide Walk, PathOf;
    var frame := Walk(ram, root, PathOf(a / PAGE)).value.frame;
    var v := ViewOf(ram, root);
    forall x: nat | a <= x < a + 8 ensures v(x) == Some(ram[frame][a % PAGE + (x - a)]) {
      assert x / PAGE == a / PAGE && x % PAGE == a % PAGE + (x - a);
    }
    assert WordBytes(v, a) == ram[frame][a % PAGE..a % PAGE + 8];
  }

  ghost predicate OthersSame(ram: Memory, ram': Memory, spaces: map<nat, Space>, roles: map<nat, Role>, id: nat) {
    forall b | b in spaces && b in roles && b != id :: Untouched(ram, ram', roles[b])
  }

  ghost predicate SameWalks(ram: Memory, ram': Memory, root: Frame) {
    forall q: nat | q * PAGE < LOWER_HALF_END :: Walk(ram', root, PathOf(q)) == Walk(ram, root, PathOf(q))
  }

  /** The difference between where the image is and where it was meant to be, modulo 2^64. */
  function Delta(base: nat, preferred: nat): (d: nat)
    requires base < TWO_64 && preferred < TWO_64
    ensures d < TWO_64 && (preferred + d) % TWO_64 == base
  {
    if base >= preferred then base - preferred else base + (TWO_64 - preferred)
  }

  /** What relocation is for: a word that pointed `t` bytes into the image where it was meant to be
      points `t` bytes into it where it is. */
  lemma PointersFollow(v: View, targets: seq<nat>, i: nat, base: nat, preferred: nat, t: nat)
    requires base < TWO_64 && preferred < TWO_64 && Spread(targets) && i < |targets| && Mapped(v, targets[i])
    requires WordAt(v, targets[i]) == (preferred + t) % TWO_64
    ensures
      var w := Relocate(v, targets, Delta(base, preferred));
      Mapped(w, targets[i]) && WordAt(w, targets[i]) == (base + t) % TWO_64
  {
    hide WordAt, Mapped, Relocate;
    RelocatedTarget(v, targets, Delta(base, preferred), i);
    Shifted(preferred, t, base);
  }

  lemma Shifted(preferred: nat, t: nat, base: nat)
    requires base < TWO_64 && preferred < TWO_64
    ensures ((preferred + t) % TWO_64 + Delta(base, preferred)) % TWO_64 == (base + t) % TWO_64
  {
    var k := (preferred + t) / TWO_64;
    assert preferred + t == k * TWO_64 + (preferred + t) % TWO_64;
  }

  ghost predicate AllReachable(ram: Memory, root: Frame, base: nat, rvas: seq<nat>) {
    forall i | 0 <= i < |rvas| :: !CrossesPage(base + rvas[i]) && Walk(ram, root, PathOf((base + rvas[i]) / PAGE)).Some?
  }

  /** What each answer says about memory before and after. */
  ghost predicate Explains(r: ApplyResult, ram: Memory, ram': Memory, root: Frame, base: nat, rvas: seq<nat>, d: nat) {
    match r
    case Applied =>
      && Same(ViewOf(ram', root), Relocate(ViewOf(ram, root), Addresses(base, rvas), d))
      && (d != 0 ==> AllReachable(ram, root, base, rvas))
    case Outside(rva) => rva in rvas && Walk(ram, root, PathOf((base + rva) / PAGE)).None?
    case Straddles(rva) => rva in rvas && CrossesPage(base + rva)
  }

  /** A word crosses a page when its first and last bytes are in different pages. */
  lemma CrossingIsTwoPages(a: nat)
    ensures CrossesPage(a) <==> a / PAGE != (a + 7) / PAGE
  {
  }

  /** With a difference to add, relocation succeeds exactly when every target is mapped and lies in one
      page. */
  lemma AppliedIsExact(r: ApplyResult, ram: Memory, ram': Memory, root: Frame, base: nat, rvas: seq<nat>, d: nat)
    requires Explains(r, ram, ram', root, base, rvas, d) && d != 0
    ensures r == Applied <==>
            forall i | 0 <= i < |rvas| ::
              (base + rvas[i]) / PAGE == (base + rvas[i] + 7) / PAGE && Walk(ram, root, PathOf((base + rvas[i]) / PAGE)).Some?
  {
    hide Walk, PathOf, Same, Relocate, ViewOf, CrossesPage;
    forall i | 0 <= i < |rvas| ensures CrossesPage(base + rvas[i]) <==> (base + rvas[i]) / PAGE != (base + rvas[i] + 7) / PAGE {
      CrossingIsTwoPages(base + rvas[i]);
    }
  }

  lemma {:induction false} RelocateByNothing(v: View, targets: seq<nat>)
    ensures Same(Relocate(v, targets, 0), v)
    decreases |targets|
  {
    hide AddWord;
    if targets != [] {
      var n := |targets| - 1;
      RelocateByNothing(v, targets[..n]);
      AddNothing(Relocate(v, targets[..n], 0), targets[n]);
    }
  }

  lemma AddNothing(v: View, a: nat)
    ensures Same(AddWord(v, a, 0), v)
  {
    hide WordAt, WordBytes, Put;
    if Mapped(v, a) {
      WordInRange(v, a);
      WordBytesAgain(v, a);
      PutItself(v, a);
    }
  }

  lemma PutItself(v: View, a: nat)
    requires Mapped(v, a)
    ensures Same(Put(v, a, WordBytes(v, a)), v)
  {
    var w := Put(v, a, WordBytes(v, a));
    forall x: nat ensures w(x) == v(x) {
      if a <= x < a + 8 {
        ByteOfWord(v, a, x);
      }
    }
  }

  /** The frame of a mapped lower-half page is in memory, and whole. */
  lemma FrameThere(machine: Machine, id: nat, a: nat)
    requires machine.Valid() && id in machine.spaces && a < LOWER_HALF_END
    requires Walk(machine.ram, machine.spaces[id].root, PathOf(a / PAGE)).Some?
    ensures
      var frame := Walk(machine.ram, machine.spaces[id].root, PathOf(a / PAGE)).value.frame;
      frame in machine.ram && |machine.ram[frame]| == PAGE
  {
    hide Walk, PathOf, FrameAllocator.Valid, FrameAllocator.Distinct, MachineOk, Tree;
    MachineFacts(machine.ram, machine.spaces, machine.roles, machine.kernel, machine.kernelRoot, machine.allocator.Supply());
    OkSpaceTree(machine.ram, machine.spaces[id], machine.roles[id]);
    ChunkWritten(machine.ram, machine.spaces[id].root, machine.roles[id], a, []);
  }

  /** One fix-up: the word is read through its frame, moved, and written back. */
  method MoveWord(machine: Machine, id: nat, address: nat, delta: nat) returns (ok: bool)
    requires machine.Valid() && id in machine.spaces && address + 8 <= LOWER_HALF_END && !CrossesPage(address)
    requires Walk(machine.ram, machine.spaces[id].root, PathOf(address / PAGE)).Some?
    modifies machine`ram
    ensures ok && machine.Valid()
    ensures OthersSame(old(machine.ram), machine.ram, machine.spaces, machine.roles, id)
    ensures SameWalks(old(machine.ram), machine.ram, machine.spaces[id].root)
    ensures Same(ViewOf(machine.ram, machine.spaces[id].root), AddWord(ViewOf(old(machine.ram), machine.spaces[id].root), address, delta))
  {
    hide Walk, PathOf, Untouched, ByteAt, Machine.Valid, Mapped, WordAt;
    ghost var ram0, root := machine.ram, machine.spaces[id].root;
    FrameThere(machine, id, address);
    WordInFrame(machine.ram, root, address);
    var frame := Walk(machine.ram, machine.spaces[id].root, PathOf(address / PAGE)).value.frame;
    var at := address % PAGE;
    var value := ReadLittleEndian(machine.ram[frame], at, 8);
    var word := ToLittleEndian((value + delta) % TWO_64, 8);
    MappedByte(ram0, root, address);
    var written := machine.WriteAt(id, address, word);
    ok := written == Done;
    assert ok;
    assert Same(ViewOf(machine.ram, root), Put(ViewOf(ram0, root), address, word));
  }

  /** Every byte of a word that stays in its page is there. */
  lemma MappedByte(ram: Memory, root: Frame, a: nat)
    requires a + 8 <= LOWER_HALF_END && Mapped(ViewOf(ram, root), a)
    ensures forall x: nat | a <= x < a + 8 :: ByteAt(ram, root, x).Some?
  {
    hide ByteAt;
    var v := ViewOf(ram, root);
    forall x: nat | a <= x < a + 8 ensures ByteAt(ram, root, x).Some? {
      assert v(x).Some?;
    }
  }

  lemma Onward(ram0: Memory, ram1: Memory, ram2: Memory, root: Frame, targets: seq<nat>, a: nat, d: nat)
    requires Same(ViewOf(ram1, root), Relocate(ViewOf(ram0, root), targets, d))
    requires Same(ViewOf(ram2, root), AddWord(ViewOf(ram1, root), a, d))
    ensures Same(ViewOf(ram2, root), Relocate(ViewOf(ram0, root), targets + [a], d))
  {
    hide AddWord, ViewOf;
    assert (targets + [a])[..|targets|] == targets;
    AddWordCongruent(ViewOf(ram1, root), Relocate(ViewOf(ram0, root), targets, d), a, d);
  }

  lemma OthersSameThen(ram0: Memory, ram1: Memory, ram2: Memory, spaces: map<nat, Space>, roles: map<nat, Role>, id: nat)
    requires OthersSame(ram0, ram1, spaces, roles, id) && OthersSame(ram1, ram2, spaces, roles, id)
    ensures OthersSame(ram0, ram2, spaces, roles, id)
  {
    hide Untouched;
    forall b | b in spaces && b in roles && b != id ensures Untouched(ram0, ram2, roles[b]) {
      UntouchedThen(ram0, ram1, ram2, roles[b]);
    }
  }

  lemma OthersSameSelf(machine: Machine, id: nat)
    requires machine.Valid()
    ensures OthersSame(machine.ram, machine.ram, machine.spaces, machine.roles, id)
  {
    hide FrameAllocator.Valid, FrameAllocator.Distinct, MachineOk, Untouched;
    UntouchedSelf(machine.ram, machine.spaces, machine.roles, machine.kernel, machine.kernelRoot, machine.allocator.Supply());
  }

  /** `apply_relocations`: the space afterwards is the relocated one, no other space sees any of it,
      and no page moves. */
  method ApplyRelocations(machine: Machine, id: nat, rvas: seq<nat>, base: nat, preferred: nat) returns (r: ApplyResult)
    requires machine.Valid() && id in machine.spaces
    requires preferred < TWO_64 && base + TWO_32 + 8 <= LOWER_HALF_END && forall i | 0 <= i < |rvas| :: rvas[i] < TWO_32
    modifies machine`ram
    ensures machine.Valid()
    ensures OthersSame(old(machine.ram), machine.ram, machine.spaces, machine.roles, id)
    ensures SameWalks(old(machine.ram), machine.ram, machine.spaces[id].root)
    ensures Explains(r, old(machine.ram), machine.ram, machine.spaces[id].root, base, rvas, Delta(base, preferred))
    ensures Delta(base, preferred) == 0 || rvas == [] ==> r == Applied && machine.ram == old(machine.ram)
  {
    hide Walk, PathOf, Machine.Valid, ViewOf, Relocate, OthersSame, CrossesPage, Same, Addresses, Delta;
    var delta := Delta(base, preferred);
    ghost var ram0, root := machine.ram, machine.spaces[id].root;
    OthersSameSelf(machine, id);
    if delta == 0 || rvas == [] {
      NothingToDo(ViewOf(ram0, root), base, rvas, delta);
      return Applied;
    }
    NothingToDo(ViewOf(ram0, root), base, [], delta);
    for i := 0 to |rvas|
      invariant machine.Valid() && OthersSame(ram0, machine.ram, machine.spaces, machine.roles, id)
      invariant SameWalks(ram0, machine.ram, root)
      invariant Same(ViewOf(machine.ram, root), Relocate(ViewOf(ram0, root), Addresses(base, rvas[..i]), delta))
      invariant AllReachable(ram0, root, base, rvas[..i])
    {
      var address := base + rvas[i];
      assert address / PAGE * PAGE <= address;
      if Walk(machine.ram, machine.spaces[id].root, PathOf(address / PAGE)).None? {
        return Outside(rvas[i]);
      }
      if CrossesPage(address) {
        return Straddles(rvas[i]);
      }
      ghost var ram1 := machine.ram;
      var ok := MoveWord(machine, id, address, delta);
      OthersSameThen(ram0, ram1, machine.ram, machine.spaces, machine.roles, id);
      Onward(ram0, ram1, machine.ram, root, Addresses(base, rvas[..i]), address, delta);
      AddressesGrow(base, rvas, i);
    }
    assert rvas[..|rvas|] == rvas;
    return Applied;
  }

  lemma AddressesGrow(base: nat, rvas: seq<nat>, i: nat)
    requires i < |rvas|
    ensures Addresses(base, rvas[..i + 1]) == Addresses(base, rvas[..i]) + [base + rvas[i]]
  {
  }

  lemma NothingToDo(v: View, base: nat, rvas: seq<nat>, d: nat)
    requires d == 0 || rvas == []
    ensures Same(v, Relocate(v, Addresses(base, rvas), d))
  {
    if d == 0 {
      RelocateByNothing(v, Addresses(base, rvas));
    }
  }
}
