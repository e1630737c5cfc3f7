/** The two SHA-256 implementations of the repository, updated in place: the kernel's streaming
    one (kernel/src/security/sha256.rs) and the image builder's batch one (runner/build.rs). Both
    are proved to compute the standard's function. */
module Sha256Kernel {
  import opened Bytes
  import opened Sha256Standard

  /** The code adds the four schedule terms in the opposite order to the standard. */
  lemma SumOrder(a: Word, b: Word, c: Word, d: Word)
    ensures Sum4(a, b, c, d) == Sum4(d, c, b, a)
  {
  }

  // --- `compress`, whose loops are the same text in the kernel and in the builder ----------------

  method BuildSchedule(block: seq<Byte>) returns (w: array<Word>)
    requires |block| == 64
    ensures fresh(w) && w.Length == 64
    ensures forall t | 0 <= t < 64 :: w[t] == Schedule(block, t)
  {
    hide SmallSigma0, SmallSigma1, WordAt, Sum4;
    w := new Word[64](i => 0);
    for index := 0 to 16
      invariant forall t | 0 <= t < index :: w[t] == Schedule(block, t)
    {
      w[index] := WordAt(block, index);
    }
    for index := 16 to 64
      invariant forall t | 0 <= t < index :: w[t] == Schedule(block, t)
    {
      var s0 := SmallSigma0(w[index - 15]);
      var s1 := SmallSigma1(w[index - 2]);
      SumOrder(w[index - 16], s0, w[index - 7], s1);
      w[index] := Sum4(w[index - 16], s0, w[index - 7], s1);
    }
  }

  method RunRounds(v: array<Word>, w: array<Word>, block: seq<Byte>)
    requires v != w && v.Length == 8 && w.Length == 64 && |block| == 64
    requires forall t | 0 <= t < 64 :: w[t] == Schedule(block, t)
    modifies v
    ensures ToWorking(v[..]) == Rounds(old(ToWorking(v[..])), block, 64)
  {
    hide K, Round, Schedule;
    ghost var start := ToWorking(v[..]);
    for index := 0 to 64
      invariant ToWorking(v[..]) == Rounds(start, block, index)
    {
      OneRound(v, K()[index], w[index]);
    }
  }

  method OneRound(v: array<Word>, k: Word, w: Word)
    requires v.Length == 8
    modifies v
    ensures ToWorking(v[..]) == Round(old(ToWorking(v[..])), k, w)
  {
    hide BigSigma0, BigSigma1, Ch, Maj, Add;
    var temp1 := Add(Add(Add(Add(v[7], BigSigma1(v[4])), Ch(v[4], v[5], v[6])), k), w);
    var temp2 := Add(BigSigma0(v[0]), Maj(v[0], v[1], v[2]));
    v[7] := v[6];
    v[6] := v[5];
    v[5] := v[4];
    v[4] := Add(v[3], temp1);
    v[3] := v[2];
    v[2] := v[1];
    v[1] := v[0];
    v[0] := Add(temp1, temp2);
  }

  method CopyWords(state: array<Word>) returns (v: array<Word>)
    requires state.Length == 8
    ensures fresh(v) && v[..] == state[..]
  {
    v := new Word[8];
    for slot := 0 to 8
      invariant forall i | 0 <= i < slot :: v[i] == state[i]
      invariant unchanged(state)
    {
      v[slot] := state[slot];
    }
  }

  method AddWords(state: array<Word>, v: array<Word>)
    requires state != v && state.Length == 8 && v.Length == 8
    modifies state
    ensures forall i | 0 <= i < 8 :: state[i] == Add(old(state[i]), v[i])
  {
    hide Add;
    for slot := 0 to 8
      invariant forall i | slot <= i < 8 :: state[i] == old(state[i])
      invariant forall i | 0 <= i < slot :: state[i] == Add(old(state[i]), v[i])
    {
      state[slot] := Add(state[slot], v[slot]);
    }
  }

  method CompressBlock(state: array<Word>, block: seq<Byte>)
    requires state.Length == 8 && |block| == 64
    modifies state
    ensures state[..] == Compress(old(state[..]), block)
  {
    hide Round, Rounds, Schedule, Add;
    var w := BuildSchedule(block);
    var v := CopyWords(state);
    RunRounds(v, w, block);
    AddWords(state, v);
  }

  // --- The kernel's streaming hasher ---------------------------------------------------------------

  lemma ModSum(a: nat, b: nat)
    ensures (a + b % TWO_64) % TWO_64 == (a + b) % TWO_64
  {
    assert b == b / TWO_64 * TWO_64 + b % TWO_64;
  }

  class Hasher {
    const state: array<Word>
    const buffer: array<Byte>
    var buffered: nat
    var lengthBits: nat
    /** The whole blocks compressed so far, and everything fed in so far. */
    ghost var done: seq<Byte>
    ghost var absorbed: seq<Byte>

    ghost predicate Valid()
      reads this, state, buffer
    {
      && state.Length == 8 && buffer.Length == 64
      && buffered < 64 && lengthBits < TWO_64
      && absorbed == done + buffer[..buffered]
      && Whole(done) && state[..] == HashBlocks(H0(), done)
    }

    constructor ()
      ensures Valid() && fresh(state) && fresh(buffer)
      ensures absorbed == [] && lengthBits == 0
    {
      hide Compress, H0;
      var words := H0();
      state := new Word[8](i requires 0 <= i < 8 => words[i]);
      buffer := new Byte[64](i => 0);
      buffered, lengthBits := 0, 0;
      done, absorbed := [], [];
      new;
      assert state[..] == words;
    }

    /** `update`: whatever the split of the input into calls, the bytes are absorbed in order. */
    method Update(data: seq<Byte>)
      requires Valid()
      modifies this, state, buffer
      ensures Valid()
      ensures absorbed == old(absorbed) + data
      ensures lengthBits == (old(lengthBits) + 8 * |data|) % TWO_64
    {
      hide HashBlocks, Compress, H0, Whole;
      ModSum(lengthBits, 8 * |data|);
      lengthBits := (lengthBits + 8 * |data| % TWO_64) % TWO_64;

      var rest := data;
      if buffered > 0 {
        var want := if 64 - buffered < |rest| then 64 - buffered else |rest|;
        Fill(rest[..want]);
        rest := rest[want..];
        assert data == data[..want] + rest;
      }
      if rest != [] {
        while |rest| >= 64
          invariant Valid() && buffered == 0
          invariant |rest| <= |data| && absorbed + rest == old(absorbed) + data
          invariant lengthBits == (old(lengthBits) + 8 * |data|) % TWO_64
          decreases |rest|
        {
          assert rest == rest[..64] + rest[64..];
          WholeBlock(rest[..64]);
          rest := rest[64..];
        }
        Fill(rest);
      }
    }

    /** Appends to the partial block, and compresses it once it is full. */
    method Fill(piece: seq<Byte>)
      requires Valid() && buffered + |piece| <= 64
      modifies this`buffered, this`done, this`absorbed, state, buffer
      ensures Valid()
      ensures absorbed == old(absorbed) + piece
      ensures buffered == if old(buffered) + |piece| == 64 then 0 else old(buffered) + |piece|
    {
      hide HashBlocks, Compress, H0, Whole;
      ghost var held, h := buffer[..buffered], state[..];
      forall i | 0 <= i < |piece| {
        buffer[buffered + i] := piece[i];
      }
      assert buffer[..buffered + |piece|] == held + piece;
      absorbed := absorbed + piece;
      buffered := buffered + |piece|;
      assert absorbed == done + (held + piece);
      if buffered == 64 {
        var block := buffer[..];
        assert block == held + piece;
        assert done + block == absorbed;
        assert state[..] == h;
        NextBlock(H0(), done, block);
        CompressBlock(state, block);
        assert state[..] == Compress(h, block);
        done := absorbed;
        buffered := 0;
        assert absorbed == done + buffer[..buffered];
        assert state[..] == HashBlocks(H0(), done);
      }
    }

    method WholeBlock(block: seq<Byte>)
      requires Valid() && buffered == 0 && |block| == 64
      modifies this`done, this`absorbed, state
      ensures Valid()
      ensures absorbed == old(absorbed) + block
    {
      hide HashBlocks, Compress, H0, Whole;
      assert absorbed == done;
      NextBlock(H0(), done, block);
      CompressBlock(state, block);
      absorbed := absorbed + block;
      done := absorbed;
    }

    /** `update_without_length`. */
    method AbsorbPadding(data: seq<Byte>)
      requires Valid()
      modifies this, state, buffer
      ensures Valid()
      ensures absorbed == old(absorbed) + data
      ensures lengthBits == old(lengthBits)
    {
      hide HashBlocks, Compress, H0, Whole;
      var before := lengthBits;
      Update(data);
      lengthBits := before;
    }

    /** A hasher fed exactly `message` since it was made. */
    ghost predicate Fed(message: seq<Byte>)
      reads this, state, buffer
    {
      Valid() && absorbed == message && lengthBits == 8 * |message| % TWO_64
    }

    /** `finish`: the digest the standard gives everything fed in. */
    method Finish() returns (digest: seq<Byte>)
      requires Fed(absorbed)
      modifies this, state, buffer
      ensures digest == Sha256(old(absorbed))
    {
      hide HashBlocks, Compress, H0, BigEndian64;
      ghost var message := absorbed;
      var bits := lengthBits;
      AbsorbPadding([0x80]);
      ghost var zeros := 0;
      while buffered != 56
        invariant Valid() && zeros <= ZeroCount(|message|)
        invariant absorbed == message + [0x80] + Zeros(zeros)
        invariant buffered == 56 <==> zeros == ZeroCount(|message|)
        decreases ZeroCount(|message|) - zeros
      {
        AbsorbPadding([0x00]);
        assert Zeros(zeros) + [0x00] == Zeros(zeros + 1);
        zeros := zeros + 1;
        BufferedIs(this);
        PaddingStops(|message|, zeros);
      }
      AbsorbPadding(BigEndian64(bits));
      assert absorbed == Pad(message);
      BufferedIs(this);
      assert done + buffer[..0] == done;
      digest := DigestOf(state);
    }
  }

  lemma BufferedIs(hasher: Hasher)
    requires hasher.Valid()
    ensures hasher.buffered == |hasher.absorbed| % 64
  {
    hide HashBlocks, Compress, H0;
  }

  /** After `n` zero bytes the block position is 56 for the first time when `n` is the pad count. */
  lemma PaddingStops(length: nat, n: nat)
    requires n <= ZeroCount(length)
    ensures (length + 1 + n) % 64 == 56 <==> n == ZeroCount(length)
  {
  }

  method DigestOf(state: array<Word>) returns (digest: seq<Byte>)
    requires state.Length == 8
    ensures digest == DigestBytes(state[..])
  {
    hide WordBytes;
    digest := [];
    for index := 0 to 8
      invariant digest == DigestBytes(state[..index])
    {
      digest := digest + WordBytes(state[index]);
      assert state[..index + 1][..index] == state[..index];
    }
    assert state[..8] == state[..];
  }

  function Concat(parts: seq<seq<Byte>>): seq<Byte> {
    if parts == [] then [] else Concat(parts[..|parts| - 1]) + parts[|parts| - 1]
  }

  /** Streaming: however the message is cut into `update` calls, the digest is that of the whole. */
  method HashParts(parts: seq<seq<Byte>>) returns (digest: seq<Byte>)
    ensures digest == Sha256(Concat(parts))
  {
    hide HashBlocks, Compress, H0, Whole, Sha256;
    var hasher := new Hasher();
    for i := 0 to |parts|
      invariant fresh(hasher) && fresh(hasher.state) && fresh(hasher.buffer)
      invariant hasher.Fed(Concat(parts[..i]))
    {
      LengthStep(|hasher.absorbed|, |parts[i]|);
      hasher.Update(parts[i]);
      assert parts[..i + 1][..i] == parts[..i];
    }
    assert parts[..|parts|] == parts;
    digest := hasher.Finish();
  }

  lemma LengthStep(a: nat, b: nat)
    ensures (8 * a % TWO_64 + 8 * b) % TWO_64 == 8 * (a + b) % TWO_64
  {
    ModSum(8 * b, 8 * a);
  }

  // --- The builder's batch hasher ---------------------------------------------------------------

  /** The builder buffers the whole message, pads it in place, then hashes chunk by chunk. */
  class BatchHasher {
    const state: array<Word>
    var buffer: seq<Byte>

    ghost predicate Fed(message: seq<Byte>)
      reads this, state
    {
      buffer == message && state[..] == H0()
    }

    constructor ()
      ensures Fed([]) && fresh(state)
    {
      hide H0;
      var words := H0();
      state := new Word[8](i requires 0 <= i < 8 => words[i]);
      buffer := [];
      new;
      assert state[..] == words;
    }

    method Update(data: seq<Byte>)
      modifies this`buffer
      ensures buffer == old(buffer) + data
    {
      buffer := buffer + data;
    }

    /** The multiplication by 8 is exact below 2^61 bytes, which is the standard's own limit. */
    method Finish() returns (digest: seq<Byte>)
      requires Fed(buffer) && 8 * |buffer| < TWO_64
      modifies this, state
      ensures digest == Sha256(old(buffer))
    {
      hide HashBlocks, Compress, H0, BigEndian64;
      ghost var message := buffer;
      var bits := 8 * |buffer|;
      buffer := buffer + [0x80];
      ghost var zeros := 0;
      PaddingStops(|message|, 0);
      while |buffer| % 64 != 56
        invariant zeros <= ZeroCount(|message|)
        invariant buffer == message + [0x80] + Zeros(zeros)
        invariant |buffer| % 64 == 56 <==> zeros == ZeroCount(|message|)
        invariant state[..] == H0()
        decreases ZeroCount(|message|) - zeros
      {
        buffer := buffer + [0];
        assert Zeros(zeros) + [0] == Zeros(zeros + 1);
        zeros := zeros + 1;
        PaddingStops(|message|, zeros);
      }
      buffer := buffer + BigEndian64(bits);
      assert buffer == Pad(message);
      HashChunks();
      digest := DigestOf(state);
    }

    method HashChunks()
      requires state.Length == 8 && Whole(buffer)
      modifies state
      ensures state[..] == HashBlocks(old(state[..]), buffer)
    {
      hide HashBlocks, Compress;
      ghost var h := state[..];
      var at := 0;
      EmptyHash(h);
      assert buffer[..0] == [];
      while at < |buffer|
        invariant at <= |buffer| && at % 64 == 0
        invariant Whole(buffer[..at]) && state[..] == HashBlocks(h, buffer[..at])
      {
        var block := buffer[at..at + 64];
        assert buffer[..at + 64] == buffer[..at] + block;
        NextBlock(h, buffer[..at], block);
        CompressBlock(state, block);
        at := at + 64;
      }
      assert buffer[..at] == buffer;
    }
  }

  lemma EmptyHash(h: seq<Word>)
    requires |h| == 8
    ensures HashBlocks(h, []) == h
  {
  }
}
