/** Packages: the builder writes them (runner/build.rs `build_package`), the store checks them
    (kernel/src/store.rs). */
module StorePackage {
  import opened Options
  import opened Bytes
  import opened Sha256Standard
  import opened Sha256Kernel

  const PACKAGE_MAGIC: seq<Byte> := [78, 65, 74, 77, 80, 75, 71, 0]
  const PACKAGE_VERSION: nat := 1
  const PACKAGE_HEADER: nat := 48

  // --- Comparing digests ----------------------------------------------------------------------

  /** The exclusive or of two `n`-bit numbers. */
  function Xor(a: nat, b: nat, n: nat): nat {
    if n == 0 then 0 else (if a % 2 != b % 2 then 1 else 0) + 2 * Xor(a / 2, b / 2, n - 1)
  }

  /** The inclusive or of two `n`-bit numbers. */
  function Or(a: nat, b: nat, n: nat): nat {
    if n == 0 then 0 else (if a % 2 == 1 || b % 2 == 1 then 1 else 0) + 2 * Or(a / 2, b / 2, n - 1)
  }

  function Power2(n: nat): nat {
    if n == 0 then 1 else 2 * Power2(n - 1)
  }

  lemma {:induction false} XorZero(a: nat, b: nat, n: nat)
    requires a < Power2(n) && b < Power2(n)
    ensures Xor(a, b, n) == 0 <==> a == b
    ensures Xor(a, b, n) < Power2(n)
  {
    if n > 0 {
      XorZero(a / 2, b / 2, n - 1);
    }
  }

  lemma {:induction false} OrZero(a: nat, b: nat, n: nat)
    requires a < Power2(n) && b < Power2(n)
    ensures Or(a, b, n) == 0 <==> a == 0 && b == 0
    ensures Or(a, b, n) < Power2(n)
  {
    if n > 0 {
      OrZero(a / 2, b / 2, n - 1);
    }
  }

  lemma EightBits()
    ensures Power2(8) == 256
  {
    assert Power2(4) == 16;
  }

  /** `digests_equal`: every byte is looked at, and the answer is equality. */
  method DigestsEqual(a: seq<Byte>, b: seq<Byte>) returns (same: bool)
    requires |a| == 32 && |b| == 32
    ensures same <==> a == b
  {
    hide Or, Xor;
    var difference: nat := 0;
    EightBits();
    for index := 0 to 32
      invariant difference < 256
      invariant difference == 0 <==> a[..index] == b[..index]
    {
      XorZero(a[index] as nat, b[index] as nat, 8);
      var bits := Xor(a[index] as nat, b[index] as nat, 8);
      OrZero(difference, bits, 8);
      difference := Or(difference, bits, 8);
      assert a[..index + 1] == a[..index] + [a[index]];
      assert b[..index + 1] == b[..index] + [b[index]];
    }
    assert a[..32] == a && b[..32] == b;
    return difference == 0;
  }

  // --- The builder -------------------------------------------------------------------------------

  function PackageBytes(manifest: seq<Byte>, digest: seq<Byte>, payload: seq<Byte>): seq<Byte> {
    PACKAGE_MAGIC + ToLittleEndian(PACKAGE_VERSION, 4) + ToLittleEndian(|manifest| % TWO_32, 4) + digest + manifest + payload
  }

  function FlipLowBit(b: Byte): Byte {
    if b % 2 == 0 then b + 1 else b - 1
  }

  /** `build_package` from the archive onwards: the digest is taken before any corruption. */
  method WritePackage(manifest: seq<Byte>, archive: seq<Byte>, corrupt: bool) returns (package: seq<Byte>)
    requires 8 * (|manifest| + |archive|) < TWO_64 && archive != []
    ensures
      var payload := if corrupt then archive[|archive| - 1 := FlipLowBit(archive[|archive| - 1])] else archive;
      package == PackageBytes(manifest, Sha256(manifest + archive), payload)
  {
    hide Sha256;
    var hasher := new BatchHasher();
    hasher.Update(manifest);
    hasher.Update(archive);
    assert hasher.buffer == manifest + archive;
    var digest := hasher.Finish();
    var payload := archive;
    if corrupt {
      var target := |payload| - 1;
      payload := payload[target := FlipLowBit(payload[target])];
    }
    package := PACKAGE_MAGIC;
    package := package + ToLittleEndian(PACKAGE_VERSION, 4);
    package := package + ToLittleEndian(|manifest| % TWO_32, 4);
    package := package + digest;
    package := package + manifest;
    package := package + payload;
  }

  // --- The store ---------------------------------------------------------------------------------

  datatype StoreError = TooSmall | BadMagic | UnsupportedVersion(version: nat) | Malformed | BadManifest

  datatype Verified = Verdict(integrityOk: bool) | Rejected(error: StoreError)

  /** `verify`, up to what the manifest says; `parses` stands for the manifest text parser. */
  function VerdictOn(bytes: seq<Byte>, parses: seq<Byte> -> bool): Verified {
    if |bytes| < PACKAGE_HEADER then Rejected(TooSmall)
    else if bytes[0..8] != PACKAGE_MAGIC then Rejected(BadMagic)
    else if ReadLittleEndian(bytes, 8, 4) != PACKAGE_VERSION then
      Rejected(UnsupportedVersion(ReadLittleEndian(bytes, 8, 4)))
    else
      var manifestLen := ReadLittleEndian(bytes, 12, 4);
      var body := bytes[PACKAGE_HEADER..];
      if manifestLen > |body| then Rejected(Malformed)
      else if !parses(body[..manifestLen]) then Rejected(BadManifest)
      else Verdict(Sha256(body) == bytes[16..48])
  }

  lemma OnePart(body: seq<Byte>)
    ensures Concat([body]) == body
  {
    var parts := [body];
    assert parts[..0] == [];
    assert Concat(parts[..0]) + body == body;
  }

  method Verify(bytes: seq<Byte>, parses: seq<Byte> -> bool) returns (r: Verified)
    ensures r == VerdictOn(bytes, parses)
  {
    hide Sha256, FromLittleEndian;
    if |bytes| < PACKAGE_HEADER {
      return Rejected(TooSmall);
    }
    if bytes[0..8] != PACKAGE_MAGIC {
      return Rejected(BadMagic);
    }
    var version := ReadLittleEndian(bytes, 8, 4);
    if version != PACKAGE_VERSION {
      return Rejected(UnsupportedVersion(version));
    }
    var manifestLen := ReadLittleEndian(bytes, 12, 4);
    var expected := bytes[16..48];
    var body := bytes[PACKAGE_HEADER..];
    if manifestLen > |body| {
      return Rejected(Malformed);
    }
    var actual := HashParts([body]);
    OnePart(body);
    var integrityOk := DigestsEqual(actual, expected);
    if !parses(body[..manifestLen]) {
      return Rejected(BadManifest);
    }
    return Verdict(integrityOk);
  }

  /** `payload`. */
  function Payload(bytes: seq<Byte>): Option<seq<Byte>> {
    if |bytes| < PACKAGE_HEADER then None
    else
      var start := PACKAGE_HEADER + ReadLittleEndian(bytes, 12, 4);
      if start > |bytes| then None else Some(bytes[start..])
  }

  // --- Both sides together -----------------------------------------------------------------------

  lemma PackageFields(manifest: seq<Byte>, digest: seq<Byte>, payload: seq<Byte>)
    requires |digest| == 32
    ensures
      var p := PackageBytes(manifest, digest, payload);
      && |p| == PACKAGE_HEADER + |manifest| + |payload|
      && p[0..8] == PACKAGE_MAGIC
      && p[8..12] == ToLittleEndian(PACKAGE_VERSION, 4)
      && p[12..16] == ToLittleEndian(|manifest| % TWO_32, 4)
      && p[16..48] == digest
      && p[PACKAGE_HEADER..] == manifest + payload
  {
    hide ToLittleEndian;
  }

  lemma PackageNumbers(manifest: seq<Byte>, digest: seq<Byte>, payload: seq<Byte>)
    requires |digest| == 32
    ensures
      var p := PackageBytes(manifest, digest, payload);
      && |p| >= PACKAGE_HEADER
      && ReadLittleEndian(p, 8, 4) == PACKAGE_VERSION
      && ReadLittleEndian(p, 12, 4) == |manifest| % TWO_32
  {
    hide ToLittleEndian, FromLittleEndian, PackageBytes;
    PackageFields(manifest, digest, payload);
    WordSizes();
    LittleEndianRoundTrip(PACKAGE_VERSION, 4);
    LittleEndianRoundTrip(|manifest| % TWO_32, 4);
  }

  /** The verdict on a package is decided by its digest alone: integrity holds exactly when the
      recorded digest is that of the manifest and payload actually in the package. */
  lemma PackageVerdict(manifest: seq<Byte>, digest: seq<Byte>, payload: seq<Byte>, parses: seq<Byte> -> bool)
    requires |digest| == 32 && |manifest| < TWO_32 && parses(manifest)
    ensures
      var p := PackageBytes(manifest, digest, payload);
      && VerdictOn(p, parses) == Verdict(digest == Sha256(manifest + payload))
      && Payload(p) == Some(payload)
  {
    hide Sha256, PackageBytes, ReadLittleEndian;
    PackageFields(manifest, digest, payload);
    PackageNumbers(manifest, digest, payload);
    assert (manifest + payload)[..|manifest|] == manifest;
    var p := PackageBytes(manifest, digest, payload);
    assert p[PACKAGE_HEADER + |manifest|..] == p[PACKAGE_HEADER..][|manifest|..];
    assert (manifest + payload)[|manifest|..] == payload;
  }

  /** A verdict is given exactly on the bytes of a package with a manifest that parses, and it says
      whether the recorded digest is that of the rest. */
  lemma VerdictIsExact(bytes: seq<Byte>, parses: seq<Byte> -> bool, intact: bool)
    ensures VerdictOn(bytes, parses) == Verdict(intact) <==>
            exists manifest: seq<Byte>, digest: seq<Byte>, payload: seq<Byte> ::
              && |digest| == 32 && |manifest| < TWO_32 && parses(manifest) && bytes == PackageBytes(manifest, digest, payload)
              && intact == (digest == Sha256(manifest + payload))
  {
    hide Sha256, PackageBytes, FromLittleEndian;
    if VerdictOn(bytes, parses) == Verdict(intact) {
      var n := ReadLittleEndian(bytes, 12, 4);
      var body := bytes[PACKAGE_HEADER..];
      var manifest, digest, payload := body[..n], bytes[16..48], body[n..];
      NumberField(bytes, 8, 4, PACKAGE_VERSION);
      NumberField(bytes, 12, 4, n);
      assert body == manifest + payload;
      PackageIs(bytes, manifest, digest, payload);
    }
    if manifest: seq<Byte>, digest: seq<Byte>, payload: seq<Byte> :|
      && |digest| == 32 && |manifest| < TWO_32 && parses(manifest) && bytes == PackageBytes(manifest, digest, payload)
      && intact == (digest == Sha256(manifest + payload)) {
      PackageVerdict(manifest, digest, payload, parses);
    }
  }

  /** The header: "NAJMPKG" and a NUL, version 1, the manifest's length low byte first, the digest. */
  lemma PackageHeader(manifest: seq<Byte>, digest: seq<Byte>, payload: seq<Byte>)
    requires |digest| == 32 && |manifest| < 0x1_0000
    ensures
      var p := PackageBytes(manifest, digest, payload);
      && |p| == 48 + |manifest| + |payload|
      && p[..16] == [78, 65, 74, 77, 80, 75, 71, 0, 1, 0, 0, 0, (|manifest| % 256) as Byte, (|manifest| / 256) as Byte, 0, 0]
  {
    var n := |manifest|;
    assert ToLittleEndian(1, 4) == [1, 0, 0, 0];
    LengthBytes(n);
  }

  lemma LengthBytes(n: nat)
    requires n < 0x1_0000
    ensures ToLittleEndian(n, 4) == [(n % 256) as Byte, (n / 256) as Byte, 0, 0]
  {
    assert ToLittleEndian(0, 2) == [0, 0];
    assert ToLittleEndian(n / 256, 3) == [(n / 256) as Byte] + ToLittleEndian(0, 2);
  }

  lemma PackageIs(bytes: seq<Byte>, manifest: seq<Byte>, digest: seq<Byte>, payload: seq<Byte>)
    requires |bytes| >= PACKAGE_HEADER && |digest| == 32 && |manifest| < TWO_32
    requires bytes[0..8] == PACKAGE_MAGIC && bytes[8..12] == ToLittleEndian(PACKAGE_VERSION, 4)
    requires bytes[12..16] == ToLittleEndian(|manifest|, 4) && bytes[16..48] == digest && bytes[PACKAGE_HEADER..] == manifest + payload
    ensures bytes == PackageBytes(manifest, digest, payload)
  {
    hide ToLittleEndian;
    assert bytes == bytes[0..8] + bytes[8..12] + bytes[12..16] + bytes[16..48] + bytes[48..];
  }

  /** Every uncorrupted package verifies, by the two hash implementations and the two ends of the
      format, and its payload is the archive it was built from. */
  method BuildThenVerify(manifest: seq<Byte>, archive: seq<Byte>, parses: seq<Byte> -> bool) returns (r: Verified, package: seq<Byte>)
    requires |manifest| < TWO_32 && 8 * (|manifest| + |archive|) < TWO_64 && archive != []
    requires parses(manifest)
    ensures r == Verdict(true)
    ensures Payload(package) == Some(archive)
  {
    hide Sha256, PackageBytes, VerdictOn, Payload;
    package := WritePackage(manifest, archive, false);
    PackageVerdict(manifest, Sha256(manifest + archive), archive, parses);
    r := Verify(package, parses);
  }
}
