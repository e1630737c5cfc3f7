/** The constants of SHA-256 are what FIPS 180-4 says they are: the first 32 bits of the fractional
    parts of the cube roots of the first sixty-four primes (section 4.2.2), and of the square roots of
    the first eight (section 5.3.3). */
module Sha256Constants {
  import opened Sha256Standard

  // --- The first sixty-four primes --------------------------------------------------------------------

  predicate IsPrime(n: nat) {
    n >= 2 && forall d: nat | 2 <= d < n :: n % d != 0
  }

  function Primes(): (p: seq<nat>)
    ensures |p| == 64
  {
    [2, 3, 5, 7, 11, 13, 17, 19]
    + [23, 29, 31, 37, 41, 43, 47, 53]
    + [59, 61, 67, 71, 73, 79, 83, 89]
    + [97, 101, 103, 107, 109, 113, 127, 131]
    + [137, 139, 149, 151, 157, 163, 167, 173]
    + [179, 181, 191, 193, 197, 199, 211, 223]
    + [227, 229, 233, 239, 241, 251, 257, 263]
    + [269, 271, 277, 281, 283, 293, 307, 311]
  }

  /** No divisor among the primes up to 17, but perhaps itself. */
  predicate Sieved(n: nat) {
    && (n % 2 == 0 ==> n == 2) && (n % 3 == 0 ==> n == 3) && (n % 5 == 0 ==> n == 5) && (n % 7 == 0 ==> n == 7)
    && (n % 11 == 0 ==> n == 11) && (n % 13 == 0 ==> n == 13) && (n % 17 == 0 ==> n == 17)
  }

  /** That is enough below 361, the square of 19. */
  lemma SieveIsExact(n: nat)
    requires 2 <= n < 361
    ensures IsPrime(n) <==> Sieved(n)
  {
    if Sieved(n) {
      forall d: nat | 2 <= d < n ensures n % d != 0 {
        NoDivisor(n, d);
      }
    }
  }

  lemma NoDivisor(n: nat, d: nat)
    requires 2 <= d < n < 361 && Sieved(n)
    ensures n % d != 0
  {
    var e := n / d;
    if n % d == 0 {
      if d >= 19 {
        CofactorIsSmall(d, e);
        SmallFactor(n, e, d);
      } else {
        SmallFactor(n, d, e);
      }
    }
  }

  lemma AtLeast(a: nat, b: nat, k: nat)
    ensures a <= b ==> a * k <= b * k
  {
  }

  lemma CofactorIsSmall(d: nat, e: nat)
    requires d >= 19 && d * e < 361
    ensures e < 19
  {
    AtLeast(19, d, e);
  }

  lemma SmallMultiple(n: nat, k: nat)
    requires k >= 2 && (n == 2 * k || n == 3 * k || n == 5 * k || n == 7 * k || n == 11 * k || n == 13 * k || n == 17 * k)
    ensures !Sieved(n)
  {
    if
    case n == 2 * k => assert n % 2 == 0;
    case n == 3 * k => assert n % 3 == 0;
    case n == 5 * k => assert n % 5 == 0;
    case n == 7 * k => assert n % 7 == 0;
    case n == 11 * k => assert n % 11 == 0;
    case n == 13 * k => assert n % 13 == 0;
    case n == 17 * k => assert n % 17 == 0;
  }

  /** A factor below 19 has a prime factor up to 17. */
  lemma SmallFactor(n: nat, d: nat, e: nat)
    requires 2 <= d < 19 && n == d * e && e >= 2
    ensures !Sieved(n)
  {
    if
    case d == 2 => SmallMultiple(n, e);
    case d == 3 => SmallMultiple(n, e);
    case d == 4 => SmallMultiple(n, 2 * e);
    case d == 5 => SmallMultiple(n, e);
    case d == 6 => SmallMultiple(n, 3 * e);
    case d == 7 => SmallMultiple(n, e);
    case d == 8 => SmallMultiple(n, 4 * e);
    case d == 9 => SmallMultiple(n, 3 * e);
    case d == 10 => SmallMultiple(n, 5 * e);
    case d == 11 => SmallMultiple(n, e);
    case d == 12 => SmallMultiple(n, 6 * e);
    case d == 13 => SmallMultiple(n, e);
    case d == 14 => SmallMultiple(n, 7 * e);
    case d == 15 => SmallMultiple(n, 5 * e);
    case d == 16 => SmallMultiple(n, 8 * e);
    case d == 17 => SmallMultiple(n, e);
    case d == 18 => SmallMultiple(n, 9 * e);
  }

  /** The i-th prime: the next after the one before. */
  ghost predicate IsNextPrime(i: nat)
    requires i < 64
  {
    && IsPrime(Primes()[i])
    && forall m: nat | (if i == 0 then 0 else Primes()[i - 1]) < m < Primes()[i] :: !IsPrime(m)
  }

  predicate NoneSieved(low: nat, high: nat)
    decreases high - low
  {
    low >= high || (!Sieved(low) && NoneSieved(low + 1, high))
  }

  lemma {:induction false} NoneSievedBetween(low: nat, high: nat, m: nat)
    requires NoneSieved(low, high) && low <= m < high
    ensures !Sieved(m)
    decreases high - low
  {
    if m > low {
      NoneSievedBetween(low + 1, high, m);
    }
  }

  lemma PrimeAt(i: nat, low: nat, p: nat)
    requires i < 64 && Primes()[i] == p && low == if i == 0 then 2 else Primes()[i - 1] + 1
    requires 2 <= p < 361 && Sieved(p) && NoneSieved(low, p)
    ensures IsNextPrime(i)
  {
    hide Sieved, Primes, IsPrime, NoneSieved;
    SieveIsExact(p);
    forall m: nat | (if i == 0 then 0 else low - 1) < m < p ensures !IsPrime(m) {
      if m >= 2 {
        NoneSievedBetween(low, p, m);
        SieveIsExact(m);
      } else {
        OneIsNotPrime();
      }
    }
  }

  lemma OneIsNotPrime()
    ensures !IsPrime(0) && !IsPrime(1)
  {
  }

  lemma Primes0()
    ensures forall i | 0 <= i < 4 :: IsNextPrime(i)
  {
    PrimeAt(0, 2, 2);
    PrimeAt(1, 3, 3);
    PrimeAt(2, 4, 5);
    PrimeAt(3, 6, 7);
  }

  lemma Primes4()
    ensures forall i | 4 <= i < 8 :: IsNextPrime(i)
  {
    PrimeAt(4, 8, 11);
    PrimeAt(5, 12, 13);
    PrimeAt(6, 14, 17);
    PrimeAt(7, 18, 19);
  }

  lemma Primes8()
    ensures forall i | 8 <= i < 12 :: IsNextPrime(i)
  {
    PrimeAt(8, 20, 23);
    PrimeAt(9, 24, 29);
    PrimeAt(10, 30, 31);
    PrimeAt(11, 32, 37);
  }

  lemma Primes12()
    ensures forall i | 12 <= i < 16 :: IsNextPrime(i)
  {
    PrimeAt(12, 38, 41);
    PrimeAt(13, 42, 43);
    PrimeAt(14, 44, 47);
    PrimeAt(15, 48, 53);
  }

  lemma Primes16()
    ensures forall i | 16 <= i < 20 :: IsNextPrime(i)
  {
    PrimeAt(16, 54, 59);
    PrimeAt(17, 60, 61);
    PrimeAt(18, 62, 67);
    PrimeAt(19, 68, 71);
  }

  lemma Primes20()
    ensures forall i | 20 <= i < 24 :: IsNextPrime(i)
  {
    PrimeAt(20, 72, 73);
    PrimeAt(21, 74, 79);
    PrimeAt(22, 80, 83);
    PrimeAt(23, 84, 89);
  }

  lemma Primes24()
    ensures forall i | 24 <= i < 28 :: IsNextPrime(i)
  {
    PrimeAt(24, 90, 97);
    PrimeAt(25, 98, 101);
    PrimeAt(26, 102, 103);
    PrimeAt(27, 104, 107);
  }

  lemma Primes28()
    ensures forall i | 28 <= i < 32 :: IsNextPrime(i)
  {
    PrimeAt(28, 108, 109);
    PrimeAt(29, 110, 113);
    PrimeAt(30, 114, 127);
    PrimeAt(31, 128, 131);
  }

  lemma Primes32()
    ensures forall i | 32 <= i < 36 :: IsNextPrime(i)
  {
    PrimeAt(32, 132, 137);
    PrimeAt(33, 138, 139);
    PrimeAt(34, 140, 149);
    PrimeAt(35, 150, 151);
  }

  lemma Primes36()
    ensures forall i | 36 <= i < 40 :: IsNextPrime(i)
  {
    PrimeAt(36, 152, 157);
    PrimeAt(37, 158, 163);
    PrimeAt(38, 164, 167);
    PrimeAt(39, 168, 173);
  }

  lemma Primes40()
    ensures forall i | 40 <= i < 44 :: IsNextPrime(i)
  {
    PrimeAt(40, 174, 179);
    PrimeAt(41, 180, 181);
    PrimeAt(42, 182, 191);
    PrimeAt(43, 192, 193);
  }

  lemma Primes44()
    ensures forall i | 44 <= i < 48 :: IsNextPrime(i)
  {
    PrimeAt(44, 194, 197);
    PrimeAt(45, 198, 199);
    PrimeAt(46, 200, 211);
    PrimeAt(47, 212, 223);
  }

  lemma Primes48()
    ensures forall i | 48 <= i < 52 :: IsNextPrime(i)
  {
    PrimeAt(48, 224, 227);
    PrimeAt(49, 228, 229);
    PrimeAt(50, 230, 233);
    PrimeAt(51, 234, 239);
  }

  lemma Primes52()
    ensures forall i | 52 <= i < 56 :: IsNextPrime(i)
  {
    PrimeAt(52, 240, 241);
    PrimeAt(53, 242, 251);
    PrimeAt(54, 252, 257);
    PrimeAt(55, 258, 263);
  }

  lemma Primes56()
    ensures forall i | 56 <= i < 60 :: IsNextPrime(i)
  {
    PrimeAt(56, 264, 269);
    PrimeAt(57, 270, 271);
    PrimeAt(58, 272, 277);
    PrimeAt(59, 278, 281);
  }

  lemma Primes60()
    ensures forall i | 60 <= i < 64 :: IsNextPrime(i)
  {
    PrimeAt(60, 282, 283);
    PrimeAt(61, 284, 293);
    PrimeAt(62, 294, 307);
    PrimeAt(63, 308, 311);
  }

  /** The table is the first sixty-four primes, in order and without a gap. */
  lemma PrimesAreThePrimes(i: nat)
    requires i < 64
    ensures IsNextPrime(i)
  {
    hide IsNextPrime;
    Primes0();
    Primes4();
    Primes8();
    Primes12();
    Primes16();
    Primes20();
    Primes24();
    Primes28();
    Primes32();
    Primes36();
    Primes40();
    Primes44();
    Primes48();
    Primes52();
    Primes56();
    Primes60();
  }

  // --- Cube roots and square roots ----------------------------------------------------------------------

  const UNIT: nat := 0x1_0000_0000

  /** `n` and the fraction `k` / 2^32 is the cube root of `p`, cut off after 32 bits. */
  predicate CubeRoot(n: nat, k: nat, p: nat) {
    var x := n * UNIT + k;
    x * x * x <= p * 0x1_0000_0000_0000_0000_0000_0000 < (x + 1) * (x + 1) * (x + 1)
  }

  predicate SquareRoot(n: nat, k: nat, p: nat) {
    var x := n * UNIT + k;
    x * x <= p * 0x1_0000_0000_0000_0000 < (x + 1) * (x + 1)
  }

  ghost predicate HasCubeRoot(i: nat)
    requires i < 64
  {
    var k: nat, p := K()[i] as nat, Primes()[i];
    exists n: nat :: CubeRoot(n, k, p)
  }

  ghost predicate HasSquareRoot(i: nat)
    requires i < 8
  {
    var k: nat, p := H0()[i] as nat, Primes()[i];
    exists n: nat :: SquareRoot(n, k, p)
  }

  lemma CubeRootAt(i: nat, n: nat, w: Word, k: nat, p: nat)
    requires i < 64 && K()[i] == w && w as nat == k && Primes()[i] == p && CubeRoot(n, k, p)
    ensures HasCubeRoot(i)
  {
    hide K, Primes, CubeRoot;
  }

  lemma SquareRootAt(i: nat, n: nat, k: nat, p: nat)
    requires i < 8 && H0()[i] as nat == k && Primes()[i] == p && SquareRoot(n, k, p)
    ensures HasSquareRoot(i)
  {
    hide H0, Primes, SquareRoot;
  }

  lemma CubeRoots0()
    ensures forall i | 0 <= i < 4 :: HasCubeRoot(i)
  {
    hide HasCubeRoot;
    assert HasCubeRoot(0) by { CubeRootAt(0, 1, 0x428a2f98, 0x428a2f98, 2); }
    assert HasCubeRoot(1) by { CubeRootAt(1, 1, 0x71374491, 0x71374491, 3); }
    assert HasCubeRoot(2) by { CubeRootAt(2, 1, 0xb5c0fbcf, 0xb5c0fbcf, 5); }
    assert HasCubeRoot(3) by { CubeRootAt(3, 1, 0xe9b5dba5, 0xe9b5dba5, 7); }
  }

  lemma CubeRoots4()
    ensures forall i | 4 <= i < 8 :: HasCubeRoot(i)
  {
    hide HasCubeRoot;
    assert HasCubeRoot(4) by { CubeRootAt(4, 2, 0x3956c25b, 0x3956c25b, 11); }
    assert HasCubeRoot(5) by { CubeRootAt(5, 2, 0x59f111f1, 0x59f111f1, 13); }
    assert HasCubeRoot(6) by { CubeRootAt(6, 2, 0x923f82a4, 0x923f82a4, 17); }
    assert HasCubeRoot(7) by { CubeRootAt(7, 2, 0xab1c5ed5, 0xab1c5ed5, 19); }
  }

  lemma CubeRoots8()
    ensures forall i | 8 <= i < 12 :: HasCubeRoot(i)
  {
    hide HasCubeRoot;
    assert HasCubeRoot(8) by { CubeRootAt(8, 2, 0xd807aa98, 0xd807aa98, 23); }
    assert HasCubeRoot(9) by { CubeRootAt(9, 3, 0x12835b01, 0x12835b01, 29); }
    assert HasCubeRoot(10) by { CubeRootAt(10, 3, 0x243185be, 0x243185be, 31); }
    assert HasCubeRoot(11) by { CubeRootAt(11, 3, 0x550c7dc3, 0x550c7dc3, 37); }
  }

  lemma CubeRoots12()
    ensures forall i | 12 <= i < 16 :: HasCubeRoot(i)
  {
    hide HasCubeRoot;
    assert HasCubeRoot(12) by { CubeRootAt(12, 3, 0x72be5d74, 0x72be5d74, 41); }
    assert HasCubeRoot(13) by { CubeRootAt(13, 3, 0x80deb1fe, 0x80deb1fe, 43); }
    assert HasCubeRoot(14) by { CubeRootAt(14, 3, 0x9bdc06a7, 0x9bdc06a7, 47); }
    assert HasCubeRoot(15) by { CubeRootAt(15, 3, 0xc19bf174, 0xc19bf174, 53); }
  }

  lemma CubeRoots16()
    ensures forall i | 16 <= i < 20 :: HasCubeRoot(i)
  {
    hide HasCubeRoot;
    assert HasCubeRoot(16) by { CubeRootAt(16, 3, 0xe49b69c1, 0xe49b69c1, 59); }
    assert HasCubeRoot(17) by { CubeRootAt(17, 3, 0xefbe4786, 0xefbe4786, 61); }
    assert HasCubeRoot(18) by { CubeRootAt(18, 4, 0x0fc19dc6, 0x0fc19dc6, 67); }
    assert HasCubeRoot(19) by { CubeRootAt(19, 4, 0x240ca1cc, 0x240ca1cc, 71); }
  }

  lemma CubeRoots20()
    ensures forall i | 20 <= i < 24 :: HasCubeRoot(i)
  {
    hide HasCubeRoot;
    assert HasCubeRoot(20) by { CubeRootAt(20, 4, 0x2de92c6f, 0x2de92c6f, 73); }
    assert HasCubeRoot(21) by { CubeRootAt(21, 4, 0x4a7484aa, 0x4a7484aa, 79); }
    assert HasCubeRoot(22) by { CubeRootAt(22, 4, 0x5cb0a9dc, 0x5cb0a9dc, 83); }
    assert HasCubeRoot(23) by { CubeRootAt(23, 4, 0x76f988da, 0x76f988da, 89); }
  }

  lemma CubeRoots24()
    ensures forall i | 24 <= i < 28 :: HasCubeRoot(i)
  {
    hide HasCubeRoot;
    assert HasCubeRoot(24) by { CubeRootAt(24, 4, 0x983e5152, 0x983e5152, 97); }
    assert HasCubeRoot(25) by { CubeRootAt(25, 4, 0xa831c66d, 0xa831c66d, 101); }
    assert HasCubeRoot(26) by { CubeRootAt(26, 4, 0xb00327c8, 0xb00327c8, 103); }
    assert HasCubeRoot(27) by { CubeRootAt(27, 4, 0xbf597fc7, 0xbf597fc7, 107); }
  }

  lemma CubeRoots28()
    ensures forall i | 28 <= i < 32 :: HasCubeRoot(i)
  {
    hide HasCubeRoot;
    assert HasCubeRoot(28) by { CubeRootAt(28, 4, 0xc6e00bf3, 0xc6e00bf3, 109); }
    assert HasCubeRoot(29) by { CubeRootAt(29, 4, 0xd5a79147, 0xd5a79147, 113); }
    assert HasCubeRoot(30) by { CubeRootAt(30, 5, 0x06ca6351, 0x06ca6351, 127); }
    assert HasCubeRoot(31) by { CubeRootAt(31, 5, 0x14292967, 0x14292967, 131); }
  }

  lemma CubeRoots32()
    ensures forall i | 32 <= i < 36 :: HasCubeRoot(i)
  {
    hide HasCubeRoot;
    assert HasCubeRoot(32) by { CubeRootAt(32, 5, 0x27b70a85, 0x27b70a85, 137); }
    assert HasCubeRoot(33) by { CubeRootAt(33, 5, 0x2e1b2138, 0x2e1b2138, 139); }
    assert HasCubeRoot(34) by { CubeRootAt(34, 5, 0x4d2c6dfc, 0x4d2c6dfc, 149); }
    assert HasCubeRoot(35) by { CubeRootAt(35, 5, 0x53380d13, 0x53380d13, 151); }
  }

  lemma CubeRoots36()
    ensures forall i | 36 <= i < 40 :: HasCubeRoot(i)
  {
    hide HasCubeRoot;
    assert HasCubeRoot(36) by { CubeRootAt(36, 5, 0x650a7354, 0x650a7354, 157); }
    assert HasCubeRoot(37) by { CubeRootAt(37, 5, 0x766a0abb, 0x766a0abb, 163); }
    assert HasCubeRoot(38) by { CubeRootAt(38, 5, 0x81c2c92e, 0x81c2c92e, 167); }
    assert HasCubeRoot(39) by { CubeRootAt(39, 5, 0x92722c85, 0x92722c85, 173); }
  }

  lemma CubeRoots40()
    ensures forall i | 40 <= i < 44 :: HasCubeRoot(i)
  {
    hide HasCubeRoot;
    assert HasCubeRoot(40) by { CubeRootAt(40, 5, 0xa2bfe8a1, 0xa2bfe8a1, 179); }
    assert HasCubeRoot(41) by { CubeRootAt(41, 5, 0xa81a664b, 0xa81a664b, 181); }
    assert HasCubeRoot(42) by { CubeRootAt(42, 5, 0xc24b8b70, 0xc24b8b70, 191); }
    assert HasCubeRoot(43) by { CubeRootAt(43, 5, 0xc76c51a3, 0xc76c51a3, 193); }
  }

  lemma CubeRoots44()
    ensures forall i | 44 <= i < 48 :: HasCubeRoot(i)
  {
    hide HasCubeRoot;
    assert HasCubeRoot(44) by { CubeRootAt(44, 5, 0xd192e819, 0xd192e819, 197); }
    assert HasCubeRoot(45) by { CubeRootAt(45, 5, 0xd6990624, 0xd6990624, 199); }
    assert HasCubeRoot(46) by { CubeRootAt(46, 5, 0xf40e3585, 0xf40e3585, 211); }
    assert HasCubeRoot(47) by { CubeRootAt(47, 6, 0x106aa070, 0x106aa070, 223); }
  }

  lemma CubeRoots48()
    ensures forall i | 48 <= i < 52 :: HasCubeRoot(i)
  {
    hide HasCubeRoot;
    assert HasCubeRoot(48) by { CubeRootAt(48, 6, 0x19a4c116, 0x19a4c116, 227); }
    assert HasCubeRoot(49) by { CubeRootAt(49, 6, 0x1e376c08, 0x1e376c08, 229); }
    assert HasCubeRoot(50) by { CubeRootAt(50, 6, 0x2748774c, 0x2748774c, 233); }
    assert HasCubeRoot(51) by { CubeRootAt(51, 6, 0x34b0bcb5, 0x34b0bcb5, 239); }
  }

  lemma CubeRoots52()
    ensures forall i | 52 <= i < 56 :: HasCubeRoot(i)
  {
    hide HasCubeRoot;
    assert HasCubeRoot(52) by { CubeRootAt(52, 6, 0x391c0cb3, 0x391c0cb3, 241); }
    assert HasCubeRoot(53) by { CubeRootAt(53, 6, 0x4ed8aa4a, 0x4ed8aa4a, 251); }
    assert HasCubeRoot(54) by { CubeRootAt(54, 6, 0x5b9cca4f, 0x5b9cca4f, 257); }
    assert HasCubeRoot(55) by { CubeRootAt(55, 6, 0x682e6ff3, 0x682e6ff3, 263); }
  }

  lemma CubeRoots56()
    ensures forall i | 56 <= i < 60 :: HasCubeRoot(i)
  {
    hide HasCubeRoot;
    assert HasCubeRoot(56) by { CubeRootAt(56, 6, 0x748f82ee, 0x748f82ee, 269); }
    assert HasCubeRoot(57) by { CubeRootAt(57, 6, 0x78a5636f, 0x78a5636f, 271); }
    assert HasCubeRoot(58) by { CubeRootAt(58, 6, 0x84c87814, 0x84c87814, 277); }
    assert HasCubeRoot(59) by { CubeRootAt(59, 6, 0x8cc70208, 0x8cc70208, 281); }
  }

  lemma CubeRoots60()
    ensures forall i | 60 <= i < 64 :: HasCubeRoot(i)
  {
    hide HasCubeRoot;
    assert HasCubeRoot(60) by { CubeRootAt(60, 6, 0x90befffa, 0x90befffa, 283); }
    assert HasCubeRoot(61) by { CubeRootAt(61, 6, 0xa4506ceb, 0xa4506ceb, 293); }
    assert HasCubeRoot(62) by { CubeRootAt(62, 6, 0xbef9a3f7, 0xbef9a3f7, 307); }
    assert HasCubeRoot(63) by { CubeRootAt(63, 6, 0xc67178f2, 0xc67178f2, 311); }
  }

  /** Section 4.2.2: the round constants. */
  lemma RoundConstants(i: nat)
    requires i < 64
    ensures HasCubeRoot(i)
  {
    hide HasCubeRoot;
    CubeRoots0();
    CubeRoots4();
    CubeRoots8();
    CubeRoots12();
    CubeRoots16();
    CubeRoots20();
    CubeRoots24();
    CubeRoots28();
    CubeRoots32();
    CubeRoots36();
    CubeRoots40();
    CubeRoots44();
    CubeRoots48();
    CubeRoots52();
    CubeRoots56();
    CubeRoots60();
  }

  /** Section 5.3.3: the initial hash value. */
  lemma InitialHash(i: nat)
    requires i < 8
    ensures HasSquareRoot(i)
  {
    hide HasSquareRoot;
    assert HasSquareRoot(0) by { SquareRootAt(0, 1, 0x6a09e667, 2); }
    assert HasSquareRoot(1) by { SquareRootAt(1, 1, 0xbb67ae85, 3); }
    assert HasSquareRoot(2) by { SquareRootAt(2, 2, 0x3c6ef372, 5); }
    assert HasSquareRoot(3) by { SquareRootAt(3, 2, 0xa54ff53a, 7); }
    assert HasSquareRoot(4) by { SquareRootAt(4, 3, 0x510e527f, 11); }
    assert HasSquareRoot(5) by { SquareRootAt(5, 3, 0x9b05688c, 13); }
    assert HasSquareRoot(6) by { SquareRootAt(6, 4, 0x1f83d9ab, 17); }
    assert HasSquareRoot(7) by { SquareRootAt(7, 4, 0x5be0cd19, 19); }
  }
}
