/** Bytes, and little-endian numbers as the on-disk formats store them. */
module Bytes {

  newtype Byte = x: int | 0 <= x < 256

  const TWO_32: nat := 0x1_0000_0000
  const TWO_64: nat := 0x1_0000_0000_0000_0000

  function Pow256(n: nat): (p: nat)
    ensures p > 0
  {
    if n == 0 then 1 else 256 * Pow256(n - 1)
  }

  /** The low `n` bytes of `x`, least significant first. */
  function ToLittleEndian(x: nat, n: nat): (bytes: seq<Byte>)
    ensures |bytes| == n
  {
    if n == 0 then [] else [(x % 256) as Byte] + ToLittleEndian(x / 256, n - 1)
  }

  function FromLittleEndian(bytes: seq<Byte>): nat {
    if bytes == [] then 0 else bytes[0] as nat + 256 * FromLittleEndian(bytes[1..])
  }

  /** The number stored in the `n` bytes at `at`. */
  function ReadLittleEndian(bytes: seq<Byte>, at: nat, n: nat): nat
    requires at + n <= |bytes|
  {
    FromLittleEndian(bytes[at..at + n])
  }

  lemma {:induction false} FromLittleEndianBound(bytes: seq<Byte>)
    ensures FromLittleEndian(bytes) < Pow256(|bytes|)
  {
    if bytes != [] {
      FromLittleEndianBound(bytes[1..]);
    }
  }

  lemma {:induction false} LittleEndianRoundTrip(x: nat, n: nat)
    requires x < Pow256(n)
    ensures FromLittleEndian(ToLittleEndian(x, n)) == x
  {
    if n > 0 {
      var bytes := ToLittleEndian(x, n);
      LittleEndianRoundTrip(x / 256, n - 1);
      assert bytes[1..] == ToLittleEndian(x / 256, n - 1);
    }
  }

  /** The other way round: bytes survive being read as a number. */
  lemma {:induction false} ReadThenWrite(t: seq<Byte>)
    ensures ToLittleEndian(FromLittleEndian(t), |t|) == t
    decreases |t|
  {
    if t != [] {
      ReadThenWrite(t[1..]);
      LowByte(t[0], FromLittleEndian(t[1..]));
      assert t == [t[0]] + t[1..];
    }
  }

  lemma LowByte(low: Byte, high: nat)
    ensures ((low as nat + 256 * high) % 256) as Byte == low && (low as nat + 256 * high) / 256 == high
  {
  }

  lemma WordSizes()
    ensures Pow256(4) == TWO_32 && Pow256(8) == TWO_64
  {
    assert Pow256(1) == 256;
    assert Pow256(2) == 256 * 256;
    assert Pow256(3) == 256 * 256 * 256;
    assert Pow256(4) == TWO_32;
    assert Pow256(5) == 256 * TWO_32;
    assert Pow256(6) == 256 * 256 * TWO_32;
    assert Pow256(7) == 256 * 256 * 256 * TWO_32;
  }

  lemma SliceJoin(bytes: seq<Byte>, from: nat, mid: nat, to: nat)
    requires from <= mid <= to <= |bytes|
    ensures bytes[from..to] == bytes[from..mid] + bytes[mid..to]
  {
  }

  /** A slice of a slice is a slice. */
  lemma SliceWithin(bytes: seq<Byte>, at: nat, end: nat, i: nat, j: nat)
    requires at <= end <= |bytes| && i <= j <= end - at
    ensures bytes[at..end][i..j] == bytes[at + i..at + j]
  {
    var a, b := bytes[at..end][i..j], bytes[at + i..at + j];
    assert |a| == |b|;
    forall k | 0 <= k < |a| ensures a[k] == b[k] {
      assert a[k] == bytes[at..end][i + k];
      assert b[k] == bytes[at + i + k];
    }
  }

  /** A field holds a number exactly when its bytes are that number's. */
  lemma NumberField(bytes: seq<Byte>, at: nat, n: nat, x: nat)
    requires at + n <= |bytes| && (n == 2 || n == 4 || n == 8)
    ensures
      var limit := if n == 2 then 0x1_0000 else if n == 4 then TWO_32 else TWO_64;
      ReadLittleEndian(bytes, at, n) == x <==> x < limit && bytes[at..at + n] == ToLittleEndian(x, n)
  {
    WordSizes();
    assert Pow256(2) == 0x1_0000 by {
      assert Pow256(1) == 256;
    }
    FromLittleEndianBound(bytes[at..at + n]);
    ReadThenWrite(bytes[at..at + n]);
    if x < Pow256(n) {
      LittleEndianRoundTrip(x, n);
    }
  }
}
