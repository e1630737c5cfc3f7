/** SHA-256 as FIPS 180-4 defines it: a function of the whole message, with no state. */
module Sha256Standard {

  import opened Bytes

  type Word = bv32

  // --- Section 4.1.2: the six logical functions --------------------------------------------------

  /** Addition modulo 2^32. */
  function Add(x: Word, y: Word): Word { x + y }

  function Sum4(x: Word, y: Word, z: Word, w: Word): Word { x + y + z + w }

  function Ch(x: Word, y: Word, z: Word): Word { (x & y) ^ (!x & z) }

  function Maj(x: Word, y: Word, z: Word): Word { (x & y) ^ (x & z) ^ (y & z) }

  function BigSigma0(x: Word): Word { x.RotateRight(2) ^ x.RotateRight(13) ^ x.RotateRight(22) }

  function BigSigma1(x: Word): Word { x.RotateRight(6) ^ x.RotateRight(11) ^ x.RotateRight(25) }

  function SmallSigma0(x: Word): Word { x.RotateRight(7) ^ x.RotateRight(18) ^ (x >> 3) }

  function SmallSigma1(x: Word): Word { x.RotateRight(17) ^ x.RotateRight(19) ^ (x >> 10) }

  // --- Section 4.2.2 and 5.3.3: constants --------------------------------------------------------

  function K(): (k: seq<Word>)
    ensures |k| == 64
  {
    [0x428a2f98, 0x71374491, 0xb5c0fbcf, 0xe9b5dba5, 0x3956c25b, 0x59f111f1, 0x923f82a4, 0xab1c5ed5]
    + [0xd807aa98, 0x12835b01, 0x243185be, 0x550c7dc3, 0x72be5d74, 0x80deb1fe, 0x9bdc06a7, 0xc19bf174]
    + [0xe49b69c1, 0xefbe4786, 0x0fc19dc6, 0x240ca1cc, 0x2de92c6f, 0x4a7484aa, 0x5cb0a9dc, 0x76f988da]
    + [0x983e5152, 0xa831c66d, 0xb00327c8, 0xbf597fc7, 0xc6e00bf3, 0xd5a79147, 0x06ca6351, 0x14292967]
    + [0x27b70a85, 0x2e1b2138, 0x4d2c6dfc, 0x53380d13, 0x650a7354, 0x766a0abb, 0x81c2c92e, 0x92722c85]
    + [0xa2bfe8a1, 0xa81a664b, 0xc24b8b70, 0xc76c51a3, 0xd192e819, 0xd6990624, 0xf40e3585, 0x106aa070]
    + [0x19a4c116, 0x1e376c08, 0x2748774c, 0x34b0bcb5, 0x391c0cb3, 0x4ed8aa4a, 0x5b9cca4f, 0x682e6ff3]
    + [0x748f82ee, 0x78a5636f, 0x84c87814, 0x8cc70208, 0x90befffa, 0xa4506ceb, 0xbef9a3f7, 0xc67178f2]
  }

  function H0(): (h: seq<Word>)
    ensures |h| == 8
  {
    [0x6a09e667, 0xbb67ae85, 0x3c6ef372, 0xa54ff53a, 0x510e527f, 0x9b05688c, 0x1f83d9ab, 0x5be0cd19]
  }

  // --- Section 5.1.1: padding --------------------------------------------------------------------

  /** The big-endian bytes of a 64-bit number. */
  function BigEndian64(x: nat): (bytes: seq<Byte>)
    requires x < TWO_64
    ensures |bytes| == 8
  {
    [(x / 0x100_0000_0000_0000 % 0x100) as Byte, (x / 0x1_0000_0000_0000 % 0x100) as Byte,
     (x / 0x100_0000_0000 % 0x100) as Byte, (x / 0x1_0000_0000 % 0x100) as Byte,
     (x / 0x100_0000 % 0x100) as Byte, (x / 0x1_0000 % 0x100) as Byte,
     (x / 0x100 % 0x100) as Byte, (x % 0x100) as Byte]
  }

  /** The least number of zero bytes that brings a message of this length, its 1 bit and its
      eight length bytes to whole blocks. */
  function ZeroCount(length: nat): (k: nat)
    ensures (length + 1 + k + 8) % 64 == 0
    ensures k < 64
  {
    (119 - length % 64) % 64
  }

  function Zeros(n: nat): (z: seq<Byte>)
    ensures |z| == n
  {
    seq(n, i => 0)
  }

  /** The padded message. The bit length is taken modulo 2^64, which is exact for every message
      the standard allows. */
  function Pad(message: seq<Byte>): (padded: seq<Byte>)
    ensures Whole(padded)
  {
    message + [0x80] + Zeros(ZeroCount(|message|)) + BigEndian64(8 * |message| % TWO_64)
  }

  // --- Section 6.2.2: the hash computation ---------------------------------------------------

  function WordAt(bytes: seq<Byte>, i: nat): Word
    requires 4 * i + 4 <= |bytes|
  {
    ((bytes[4 * i] as Word) << 24) | ((bytes[4 * i + 1] as Word) << 16)
    | ((bytes[4 * i + 2] as Word) << 8) | (bytes[4 * i + 3] as Word)
  }

  /** Step 1: word `t` of the message schedule of a block. */
  function Schedule(block: seq<Byte>, t: nat): Word
    requires |block| == 64
  {
    if t < 16 then WordAt(block, t)
    else Sum4(SmallSigma1(Schedule(block, t - 2)), Schedule(block, t - 7),
              SmallSigma0(Schedule(block, t - 15)), Schedule(block, t - 16))
  }

  datatype Working = Working(a: Word, b: Word, c: Word, d: Word, e: Word, f: Word, g: Word, h: Word)

  /** Step 3: one round. */
  function Round(v: Working, k: Word, w: Word): Working {
    var t1 := Add(Add(Add(Add(v.h, BigSigma1(v.e)), Ch(v.e, v.f, v.g)), k), w);
    var t2 := Add(BigSigma0(v.a), Maj(v.a, v.b, v.c));
    Working(Add(t1, t2), v.a, v.b, v.c, Add(v.d, t1), v.e, v.f, v.g)
  }

  function Rounds(v: Working, block: seq<Byte>, t: nat): Working
    requires |block| == 64 && t <= 64
  {
    if t == 0 then v else Round(Rounds(v, block, t - 1), K()[t - 1], Schedule(block, t - 1))
  }

  function ToWorking(h: seq<Word>): Working
    requires |h| == 8
  {
    Working(h[0], h[1], h[2], h[3], h[4], h[5], h[6], h[7])
  }

  /** Steps 2 to 4 for one block. */
  function Compress(h: seq<Word>, block: seq<Byte>): (r: seq<Word>)
    requires |h| == 8 && |block| == 64
    ensures |r| == 8
  {
    var v := Rounds(ToWorking(h), block, 64);
    [Add(h[0], v.a), Add(h[1], v.b), Add(h[2], v.c), Add(h[3], v.d),
     Add(h[4], v.e), Add(h[5], v.f), Add(h[6], v.g), Add(h[7], v.h)]
  }

  /** A sequence of whole blocks. */
  predicate Whole(data: seq<Byte>) {
    |data| % 64 == 0
  }

  lemma WholeSplit(data: seq<Byte>)
    requires Whole(data) && data != []
    ensures |data| >= 64 && Whole(data[64..])
  {
  }

  /** All the blocks of `data` in order. */
  function HashBlocks(h: seq<Word>, data: seq<Byte>): (r: seq<Word>)
    requires |h| == 8 && Whole(data)
    ensures |r| == 8
    decreases |data|
  {
    if data == [] then h
    else
      WholeSplit(data);
      HashBlocks(Compress(h, data[..64]), data[64..])
  }

  function WordBytes(x: Word): (bytes: seq<Byte>)
    ensures |bytes| == 4
  {
    [((x >> 24) & 0xFF) as bv8 as Byte, ((x >> 16) & 0xFF) as bv8 as Byte,
     ((x >> 8) & 0xFF) as bv8 as Byte, (x & 0xFF) as bv8 as Byte]
  }

  function DigestBytes(h: seq<Word>): (bytes: seq<Byte>)
    ensures |bytes| == 4 * |h|
  {
    if h == [] then [] else DigestBytes(h[..|h| - 1]) + WordBytes(h[|h| - 1])
  }

  function Sha256(message: seq<Byte>): (digest: seq<Byte>)
    ensures |digest| == 32
  {
    DigestBytes(HashBlocks(H0(), Pad(message)))
  }

  lemma {:induction false} HashBlocksConcat(h: seq<Word>, a: seq<Byte>, b: seq<Byte>)
    requires |h| == 8 && Whole(a) && Whole(b)
    ensures Whole(a + b)
    ensures HashBlocks(h, a + b) == HashBlocks(HashBlocks(h, a), b)
    decreases |a|
  {
    hide Compress;
    if a == [] {
      assert a + b == b;
    } else {
      assert (a + b)[..64] == a[..64] && (a + b)[64..] == a[64..] + b;
      HashBlocksConcat(Compress(h, a[..64]), a[64..], b);
    }
  }

  lemma OneBlock(h: seq<Word>, block: seq<Byte>)
    requires |h| == 8 && |block| == 64
    ensures HashBlocks(h, block) == Compress(h, block)
  {
    hide Compress;
    assert block[..64] == block && block[64..] == [];
  }

  lemma NextBlock(h: seq<Word>, done: seq<Byte>, block: seq<Byte>)
    requires |h| == 8 && Whole(done) && |block| == 64
    ensures Whole(done + block)
    ensures HashBlocks(h, done + block) == Compress(HashBlocks(h, done), block)
  {
    hide Compress, HashBlocks;
    HashBlocksConcat(h, done, block);
    OneBlock(HashBlocks(h, done), block);
  }
}
