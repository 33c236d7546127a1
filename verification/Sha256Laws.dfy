/**
  What the functions and constants behind SHA-256 are, in terms of bits, prime numbers and a known digest:
  the definitions that the code and its specification share are pinned down without them.
 */
module Sha256Laws {
  import opened Sha256

  // ---- Bits, sections 3.2 and 4.1.2 of FIPS 180-4; bit 0 is the least significant ----

  predicate Bit(x: bv32, i: bv32)
    requires i < 32
  {
    (x >> i) & 1 == 1
  }

  /** Rotating right by n moves bit i + n to place i, around the word: for every n that is used. */
  lemma Rotr2Bits(x: bv32, i: bv32)
    requires i < 32
    ensures (i + 2) % 32 < 32 && Bit(Rotr(x, 2), i) == Bit(x, (i + 2) % 32)
  {
  }

  lemma Rotr6Bits(x: bv32, i: bv32)
    requires i < 32
    ensures (i + 6) % 32 < 32 && Bit(Rotr(x, 6), i) == Bit(x, (i + 6) % 32)
  {
  }

  lemma Rotr7Bits(x: bv32, i: bv32)
    requires i < 32
    ensures (i + 7) % 32 < 32 && Bit(Rotr(x, 7), i) == Bit(x, (i + 7) % 32)
  {
  }

  lemma Rotr11Bits(x: bv32, i: bv32)
    requires i < 32
    ensures (i + 11) % 32 < 32 && Bit(Rotr(x, 11), i) == Bit(x, (i + 11) % 32)
  {
  }

  lemma Rotr13Bits(x: bv32, i: bv32)
    requires i < 32
    ensures (i + 13) % 32 < 32 && Bit(Rotr(x, 13), i) == Bit(x, (i + 13) % 32)
  {
  }

  lemma Rotr17Bits(x: bv32, i: bv32)
    requires i < 32
    ensures (i + 17) % 32 < 32 && Bit(Rotr(x, 17), i) == Bit(x, (i + 17) % 32)
  {
  }

  lemma Rotr18Bits(x: bv32, i: bv32)
    requires i < 32
    ensures (i + 18) % 32 < 32 && Bit(Rotr(x, 18), i) == Bit(x, (i + 18) % 32)
  {
  }

  lemma Rotr19Bits(x: bv32, i: bv32)
    requires i < 32
    ensures (i + 19) % 32 < 32 && Bit(Rotr(x, 19), i) == Bit(x, (i + 19) % 32)
  {
  }

  lemma Rotr22Bits(x: bv32, i: bv32)
    requires i < 32
    ensures (i + 22) % 32 < 32 && Bit(Rotr(x, 22), i) == Bit(x, (i + 22) % 32)
  {
  }

  lemma Rotr25Bits(x: bv32, i: bv32)
    requires i < 32
    ensures (i + 25) % 32 < 32 && Bit(Rotr(x, 25), i) == Bit(x, (i + 25) % 32)
  {
  }

  lemma RotationBits(x: bv32, i: bv32)
    requires i < 32
    ensures (i + 2) % 32 < 32 && Bit(Rotr(x, 2), i) == Bit(x, (i + 2) % 32)
    ensures (i + 6) % 32 < 32 && Bit(Rotr(x, 6), i) == Bit(x, (i + 6) % 32)
    ensures (i + 7) % 32 < 32 && Bit(Rotr(x, 7), i) == Bit(x, (i + 7) % 32)
    ensures (i + 11) % 32 < 32 && Bit(Rotr(x, 11), i) == Bit(x, (i + 11) % 32)
    ensures (i + 13) % 32 < 32 && Bit(Rotr(x, 13), i) == Bit(x, (i + 13) % 32)
    ensures (i + 17) % 32 < 32 && Bit(Rotr(x, 17), i) == Bit(x, (i + 17) % 32)
    ensures (i + 18) % 32 < 32 && Bit(Rotr(x, 18), i) == Bit(x, (i + 18) % 32)
    ensures (i + 19) % 32 < 32 && Bit(Rotr(x, 19), i) == Bit(x, (i + 19) % 32)
    ensures (i + 22) % 32 < 32 && Bit(Rotr(x, 22), i) == Bit(x, (i + 22) % 32)
    ensures (i + 25) % 32 < 32 && Bit(Rotr(x, 25), i) == Bit(x, (i + 25) % 32)
  {
    hide Bit, Rotr;
    Rotr2Bits(x, i);
    Rotr6Bits(x, i);
    Rotr7Bits(x, i);
    Rotr11Bits(x, i);
    Rotr13Bits(x, i);
    Rotr17Bits(x, i);
    Rotr18Bits(x, i);
    Rotr19Bits(x, i);
    Rotr22Bits(x, i);
    Rotr25Bits(x, i);
  }

  /** Shifting right does the same, with zeros coming in. */
  lemma ShiftBits(x: bv32, i: bv32)
    requires i < 32
    ensures (i + 3) % 32 < 32 && Bit(x >> 3, i) == (i < 29 && Bit(x, (i + 3) % 32))
    ensures (i + 10) % 32 < 32 && Bit(x >> 10, i) == (i < 22 && Bit(x, (i + 10) % 32))
  {
  }

  function And(x: bv32, y: bv32): bv32 { x & y }

  function Or(x: bv32, y: bv32): bv32 { x | y }

  function Not(x: bv32): bv32 { !x }

  function Xor(x: bv32, y: bv32): bv32 { x ^ y }

  lemma AndBits(x: bv32, y: bv32, i: bv32)
    requires i < 32
    ensures Bit(And(x, y), i) <==> Bit(x, i) && Bit(y, i)
  {
  }

  lemma OrBits(x: bv32, y: bv32, i: bv32)
    requires i < 32
    ensures Bit(Or(x, y), i) <==> Bit(x, i) || Bit(y, i)
  {
  }

  lemma NotBits(x: bv32, i: bv32)
    requires i < 32
    ensures Bit(Not(x), i) == !Bit(x, i)
  {
  }

  lemma XorIsOr(x: bv32, y: bv32)
    ensures Xor(x, y) == Or(And(x, Not(y)), And(Not(x), y))
  {
  }

  lemma XorBits(x: bv32, y: bv32, i: bv32)
    requires i < 32
    ensures Bit(Xor(x, y), i) == (Bit(x, i) != Bit(y, i))
  {
    hide Bit, And, Or, Not, Xor;
    XorIsOr(x, y);
    NotBits(x, i);
    NotBits(y, i);
    AndBits(x, Not(y), i);
    AndBits(Not(x), y, i);
    OrBits(And(x, Not(y)), And(Not(x), y), i);
  }

  lemma ChAsGates(x: bv32, y: bv32, z: bv32)
    ensures Ch(x, y, z) == Xor(And(x, y), And(Not(x), z))
  {
  }

  lemma MajAsGates(x: bv32, y: bv32, z: bv32)
    ensures Maj(x, y, z) == Xor(Xor(And(x, y), And(x, z)), And(y, z))
  {
    hide Xor;
    XorsAsGates(x & y, x & z, y & z);
  }

  lemma XorsAsGates(x: bv32, y: bv32, z: bv32)
    ensures x ^ y ^ z == Xor(Xor(x, y), z)
  {
  }

  /** Choose. */
  lemma ChBits(x: bv32, y: bv32, z: bv32, i: bv32)
    requires i < 32
    ensures Bit(Ch(x, y, z), i) == if Bit(x, i) then Bit(y, i) else Bit(z, i)
  {
    ChAsGates(x, y, z);
    hide Bit, And, Not, Xor, Ch, Maj;
    AndBits(x, y, i);
    NotBits(x, i);
    AndBits(Not(x), z, i);
    XorBits(And(x, y), And(Not(x), z), i);
  }

  /** Majority. */
  lemma MajBits(x: bv32, y: bv32, z: bv32, i: bv32)
    requires i < 32
    ensures Bit(Maj(x, y, z), i) <==>
              (Bit(x, i) && Bit(y, i)) || (Bit(x, i) && Bit(z, i)) || (Bit(y, i) && Bit(z, i))
  {
    MajAsGates(x, y, z);
    hide Bit, And, Not, Xor, Ch, Maj;
    AndBits(x, y, i);
    AndBits(x, z, i);
    AndBits(y, z, i);
    XorBits(And(x, y), And(x, z), i);
    XorBits(Xor(And(x, y), And(x, z)), And(y, z), i);
  }

  /** Exclusive or of three. */
  predicate OddlyMany(a: bool, b: bool, c: bool) {
    (a != b) != c
  }

  lemma XorThreeBits(x: bv32, y: bv32, z: bv32, i: bv32)
    requires i < 32
    ensures Bit(Xor(Xor(x, y), z), i) == OddlyMany(Bit(x, i), Bit(y, i), Bit(z, i))
  {
    hide Bit, Xor;
    XorBits(x, y, i);
    XorBits(Xor(x, y), z, i);
  }

  lemma BigSigma0Bits(x: bv32, i: bv32)
    requires i < 32
    ensures (i + 2) % 32 < 32 && (i + 13) % 32 < 32 && (i + 22) % 32 < 32
    ensures Bit(BigSigma0(x), i) == OddlyMany(Bit(x, (i + 2) % 32), Bit(x, (i + 13) % 32), Bit(x, (i + 22) % 32))
  {
    hide Bit, Rotr, Xor;
    Rotr2Bits(x, i);
    Rotr13Bits(x, i);
    Rotr22Bits(x, i);
    XorsAsGates(Rotr(x, 2), Rotr(x, 13), Rotr(x, 22));
    XorThreeBits(Rotr(x, 2), Rotr(x, 13), Rotr(x, 22), i);
  }

  lemma BigSigma1Bits(x: bv32, i: bv32)
    requires i < 32
    ensures (i + 6) % 32 < 32 && (i + 11) % 32 < 32 && (i + 25) % 32 < 32
    ensures Bit(BigSigma1(x), i) == OddlyMany(Bit(x, (i + 6) % 32), Bit(x, (i + 11) % 32), Bit(x, (i + 25) % 32))
  {
    hide Bit, Rotr, Xor;
    Rotr6Bits(x, i);
    Rotr11Bits(x, i);
    Rotr25Bits(x, i);
    XorsAsGates(Rotr(x, 6), Rotr(x, 11), Rotr(x, 25));
    XorThreeBits(Rotr(x, 6), Rotr(x, 11), Rotr(x, 25), i);
  }

  lemma SmallSigma0Bits(x: bv32, i: bv32)
    requires i < 32
    ensures (i + 7) % 32 < 32 && (i + 18) % 32 < 32 && (i + 3) % 32 < 32
    ensures Bit(SmallSigma0(x), i)
         == OddlyMany(Bit(x, (i + 7) % 32), Bit(x, (i + 18) % 32), i < 29 && Bit(x, (i + 3) % 32))
  {
    hide Bit, Rotr, Xor;
    Rotr7Bits(x, i);
    Rotr18Bits(x, i);
    ShiftBits(x, i);
    XorsAsGates(Rotr(x, 7), Rotr(x, 18), x >> 3);
    XorThreeBits(Rotr(x, 7), Rotr(x, 18), x >> 3, i);
  }

  lemma SmallSigma1Bits(x: bv32, i: bv32)
    requires i < 32
    ensures (i + 17) % 32 < 32 && (i + 19) % 32 < 32 && (i + 10) % 32 < 32
    ensures Bit(SmallSigma1(x), i)
         == OddlyMany(Bit(x, (i + 17) % 32), Bit(x, (i + 19) % 32), i < 22 && Bit(x, (i + 10) % 32))
  {
    hide Bit, Rotr, Xor;
    Rotr17Bits(x, i);
    Rotr19Bits(x, i);
    ShiftBits(x, i);
    XorsAsGates(Rotr(x, 17), Rotr(x, 19), x >> 10);
    XorThreeBits(Rotr(x, 17), Rotr(x, 19), x >> 10, i);
  }

  // ---- The constants, sections 4.2.2 and 5.3.3 ----

  ghost predicate Prime(p: nat) {
    p >= 2 && forall d: nat | 2 <= d < p :: p % d != 0
  }

  const PRIMES: seq<seq<nat>> := [
    [2, 3, 5, 7, 11, 13, 17, 19],
    [23, 29, 31, 37, 41, 43, 47, 53],
    [59, 61, 67, 71, 73, 79, 83, 89],
    [97, 101, 103, 107, 109, 113, 127, 131],
    [137, 139, 149, 151, 157, 163, 167, 173],
    [179, 181, 191, 193, 197, 199, 211, 223],
    [227, 229, 233, 239, 241, 251, 257, 263],
    [269, 271, 277, 281, 283, 293, 307, 311]]

  function PrimeAt(t: nat): nat
    requires t < 64
  {
    PRIMES[t / 8][t % 8]
  }

  /** Divisible by one of the primes up to 17 without being it. */
  predicate SmallMultiple(n: nat) {
    || (n % 2 == 0 && n > 2) || (n % 3 == 0 && n > 3) || (n % 5 == 0 && n > 5) || (n % 7 == 0 && n > 7)
    || (n % 11 == 0 && n > 11) || (n % 13 == 0 && n > 13) || (n % 17 == 0 && n > 17)
  }

  lemma SmallFactor(f: nat, n: nat)
    requires 2 <= f < 18 && n % f == 0 && n > f
    ensures SmallMultiple(n)
  {
    if f % 2 == 0 {
      EvenFactor(f, n);
    } else if f == 9 || f == 15 {
      assert n % 3 == 0;
    }
  }

  lemma EvenFactor(f: nat, n: nat)
    requires 2 <= f < 18 && f % 2 == 0 && n % f == 0
    ensures n % 2 == 0
  {
    var h, q := f / 2, n / f;
    assert n == f * q == 2 * (h * q);
  }

  /** Below 18 squared, the small primes find every composite number. */
  lemma SieveFindsPrimes(n: nat)
    requires 2 <= n < 324
    ensures Prime(n) <==> !SmallMultiple(n)
  {
    if SmallMultiple(n) {
      SmallMultipleIsComposite(n);
    } else {
      hide SmallMultiple;
      forall d: nat | 2 <= d < n
        ensures n % d != 0
      {
        if n % d == 0 {
          SmallerFactor(n, d);
        }
      }
    }
  }

  lemma SmallMultipleIsComposite(n: nat)
    requires SmallMultiple(n)
    ensures !Prime(n)
  {
    var d := if n % 2 == 0 && n > 2 then 2 else if n % 3 == 0 && n > 3 then 3 else if n % 5 == 0 && n > 5 then 5
             else if n % 7 == 0 && n > 7 then 7 else if n % 11 == 0 && n > 11 then 11
             else if n % 13 == 0 && n > 13 then 13 else 17;
    assert 2 <= d < n && n % d == 0;
  }

  lemma SmallerFactor(n: nat, d: nat)
    requires 2 <= d < n < 324 && n % d == 0
    ensures SmallMultiple(n)
  {
    hide SmallMultiple;
    var e := n / d;
    assert n == d * e;
    assert e >= 2 by {
      assert e != 0 && e != 1;
    }
    if d < 18 {
      SmallFactor(d, n);
    } else {
      BothAreNotLarge(d, e);
      FactorDivides(d, e);
      SmallFactor(e, n);
    }
  }

  lemma BothAreNotLarge(d: nat, e: nat)
    requires d * e < 324 && d >= 18
    ensures e < 18
  {
    if e >= 18 {
      EighteenSquared(d, e);
    }
  }

  lemma EighteenSquared(d: nat, e: nat)
    requires d >= 18 && e >= 18
    ensures d * e >= 324
  {
    assert d * e >= d * 18;
  }

  lemma FactorDivides(d: nat, e: nat)
    requires d >= 2 && e >= 2
    ensures (d * e) % e == 0 && d * e > e
  {
    var q, r := d * e / e, d * e % e;
    assert e * (d - q) == r;
    LargeProduct(e, d - q);
    assert d * e >= 2 * e;
  }

  lemma LargeProduct(e: nat, k: int)
    requires e > 0
    ensures k >= 1 ==> e * k >= e
    ensures k <= -1 ==> e * k <= -(e as int)
  {
  }

  /** `p` is the next prime after `q`. */
  ghost predicate Follows(q: nat, p: nat) {
    q < p && Prime(p) && forall r: nat | q < r < p :: !Prime(r)
  }

  /** Everything from `lo` up to `hi` is sieved away. */
  predicate AllSieved(lo: nat, hi: nat)
    decreases hi - lo
  {
    lo >= hi || (SmallMultiple(lo) && AllSieved(lo + 1, hi))
  }

  lemma {:induction false} AllSievedMeaning(lo: nat, hi: nat, r: nat)
    requires AllSieved(lo, hi) && lo <= r < hi
    ensures SmallMultiple(r)
    decreases hi - lo
  {
    if r == lo {
    } else {
      AllSievedMeaning(lo + 1, hi, r);
    }
  }

  predicate Gap(q: nat, p: nat) {
    2 <= q < p < 324 && !SmallMultiple(p) && AllSieved(q + 1, p)
  }

  lemma GapIsFollows(q: nat, p: nat)
    requires Gap(q, p)
    ensures Follows(q, p)
  {
    hide SmallMultiple, Prime;
    SieveFindsPrimes(p);
    forall r: nat | q < r < p
      ensures !Prime(r)
    {
      AllSievedMeaning(q + 1, p, r);
      SieveFindsPrimes(r);
    }
  }

  lemma Gaps0()
    ensures Gap(2, 3) && Gap(3, 5) && Gap(5, 7)
    ensures Gap(7, 11) && Gap(11, 13) && Gap(13, 17) && Gap(17, 19)
  {
  }

  lemma Gaps1()
    ensures Gap(19, 23) && Gap(23, 29) && Gap(29, 31) && Gap(31, 37)
    ensures Gap(37, 41) && Gap(41, 43) && Gap(43, 47) && Gap(47, 53)
  {
  }

  lemma Gaps2()
    ensures Gap(53, 59) && Gap(59, 61) && Gap(61, 67) && Gap(67, 71)
    ensures Gap(71, 73) && Gap(73, 79) && Gap(79, 83) && Gap(83, 89)
  {
  }

  lemma Gaps3()
    ensures Gap(89, 97) && Gap(97, 101) && Gap(101, 103) && Gap(103, 107)
    ensures Gap(107, 109) && Gap(109, 113) && Gap(113, 127) && Gap(127, 131)
  {
  }

  lemma Gaps4()
    ensures Gap(131, 137) && Gap(137, 139) && Gap(139, 149) && Gap(149, 151)
    ensures Gap(151, 157) && Gap(157, 163) && Gap(163, 167) && Gap(167, 173)
  {
  }

  lemma Gaps5()
    ensures Gap(173, 179) && Gap(179, 181) && Gap(181, 191) && Gap(191, 193)
    ensures Gap(193, 197) && Gap(197, 199) && Gap(199, 211) && Gap(211, 223)
  {
  }

  lemma Gaps6()
    ensures Gap(223, 227) && Gap(227, 229) && Gap(229, 233) && Gap(233, 239)
    ensures Gap(239, 241) && Gap(241, 251) && Gap(251, 257) && Gap(257, 263)
  {
  }

  lemma Gaps7()
    ensures Gap(263, 269) && Gap(269, 271) && Gap(271, 277) && Gap(277, 281)
    ensures Gap(281, 283) && Gap(283, 293) && Gap(293, 307) && Gap(307, 311)
  {
  }

  /** The table lists the first 64 primes in order. */
  lemma PrimesInOrder(t: nat)
    requires 1 <= t < 64
    ensures PrimeAt(0) == 2 && Follows(PrimeAt(t - 1), PrimeAt(t))
  {
    hide Gap, Follows;
    GapAt(t);
    GapIsFollows(PrimeAt(t - 1), PrimeAt(t));
  }

  lemma GapAt(t: nat)
    requires 1 <= t < 64
    ensures Gap(PrimeAt(t - 1), PrimeAt(t))
  {
    hide Gap;
    if t < 8 {
      Gaps0();
    } else if t < 16 {
      Gaps1();
    } else if t < 24 {
      Gaps2();
    } else if t < 32 {
      Gaps3();
    } else if t < 40 {
      Gaps4();
    } else if t < 48 {
      Gaps5();
    } else if t < 56 {
      Gaps6();
    } else {
      Gaps7();
    }
  }

  /** The first 32 bits of the fractional part of the cube root of `p`, which is `m` and a fraction. */
  ghost predicate CubeRoot(m: nat, k: nat, p: nat) {
    var r := m * 0x1_0000_0000 + k;
    k < 0x1_0000_0000 && r * r * r <= p * 0x1_0000_0000_0000_0000_0000_0000 < (r + 1) * (r + 1) * (r + 1)
  }

  ghost predicate CubeFraction(k: nat, p: nat) {
    exists m: nat :: CubeRoot(m, k, p)
  }

  lemma CubeFractions0()
    ensures CubeFraction(0x428a2f98, 2) && CubeFraction(0x71374491, 3)
    ensures CubeFraction(0xb5c0fbcf, 5) && CubeFraction(0xe9b5dba5, 7)
    ensures CubeFraction(0x3956c25b, 11) && CubeFraction(0x59f111f1, 13)
    ensures CubeFraction(0x923f82a4, 17) && CubeFraction(0xab1c5ed5, 19)
  {
    assert CubeRoot(1, 0x428a2f98, 2) && CubeRoot(1, 0x71374491, 3);
    assert CubeRoot(1, 0xb5c0fbcf, 5) && CubeRoot(1, 0xe9b5dba5, 7);
    assert CubeRoot(2, 0x3956c25b, 11) && CubeRoot(2, 0x59f111f1, 13);
    assert CubeRoot(2, 0x923f82a4, 17) && CubeRoot(2, 0xab1c5ed5, 19);
  }

  lemma CubeFractions1()
    ensures CubeFraction(0xd807aa98, 23) && CubeFraction(0x12835b01, 29)
    ensures CubeFraction(0x243185be, 31) && CubeFraction(0x550c7dc3, 37)
    ensures CubeFraction(0x72be5d74, 41) && CubeFraction(0x80deb1fe, 43)
    ensures CubeFraction(0x9bdc06a7, 47) && CubeFraction(0xc19bf174, 53)
  {
    assert CubeRoot(2, 0xd807aa98, 23) && CubeRoot(3, 0x12835b01, 29);
    assert CubeRoot(3, 0x243185be, 31) && CubeRoot(3, 0x550c7dc3, 37);
    assert CubeRoot(3, 0x72be5d74, 41) && CubeRoot(3, 0x80deb1fe, 43);
    assert CubeRoot(3, 0x9bdc06a7, 47) && CubeRoot(3, 0xc19bf174, 53);
  }

  lemma CubeFractions2()
    ensures CubeFraction(0xe49b69c1, 59) && CubeFraction(0xefbe4786, 61)
    ensures CubeFraction(0x0fc19dc6, 67) && CubeFraction(0x240ca1cc, 71)
    ensures CubeFraction(0x2de92c6f, 73) && CubeFraction(0x4a7484aa, 79)
    ensures CubeFraction(0x5cb0a9dc, 83) && CubeFraction(0x76f988da, 89)
  {
    assert CubeRoot(3, 0xe49b69c1, 59) && CubeRoot(3, 0xefbe4786, 61);
    assert CubeRoot(4, 0x0fc19dc6, 67) && CubeRoot(4, 0x240ca1cc, 71);
    assert CubeRoot(4, 0x2de92c6f, 73) && CubeRoot(4, 0x4a7484aa, 79);
    assert CubeRoot(4, 0x5cb0a9dc, 83) && CubeRoot(4, 0x76f988da, 89);
  }

  lemma CubeFractions3()
    ensures CubeFraction(0x983e5152, 97) && CubeFraction(0xa831c66d, 101)
    ensures CubeFraction(0xb00327c8, 103) && CubeFraction(0xbf597fc7, 107)
    ensures CubeFraction(0xc6e00bf3, 109) && CubeFraction(0xd5a79147, 113)
    ensures CubeFraction(0x06ca6351, 127) && CubeFraction(0x14292967, 131)
  {
    assert CubeRoot(4, 0x983e5152, 97) && CubeRoot(4, 0xa831c66d, 101);
    assert CubeRoot(4, 0xb00327c8, 103) && CubeRoot(4, 0xbf597fc7, 107);
    assert CubeRoot(4, 0xc6e00bf3, 109) && CubeRoot(4, 0xd5a79147, 113);
    assert CubeRoot(5, 0x06ca6351, 127) && CubeRoot(5, 0x14292967, 131);
  }

  lemma CubeFractions4()
    ensures CubeFraction(0x27b70a85, 137) && CubeFraction(0x2e1b2138, 139)
    ensures CubeFraction(0x4d2c6dfc, 149) && CubeFraction(0x53380d13, 151)
    ensures CubeFraction(0x650a7354, 157) && CubeFraction(0x766a0abb, 163)
    ensures CubeFraction(0x81c2c92e, 167) && CubeFraction(0x92722c85, 173)
  {
    assert CubeRoot(5, 0x27b70a85, 137) && CubeRoot(5, 0x2e1b2138, 139);
    assert CubeRoot(5, 0x4d2c6dfc, 149) && CubeRoot(5, 0x53380d13, 151);
    assert CubeRoot(5, 0x650a7354, 157) && CubeRoot(5, 0x766a0abb, 163);
    assert CubeRoot(5, 0x81c2c92e, 167) && CubeRoot(5, 0x92722c85, 173);
  }

  lemma CubeFractions5()
    ensures CubeFraction(0xa2bfe8a1, 179) && CubeFraction(0xa81a664b, 181)
    ensures CubeFraction(0xc24b8b70, 191) && CubeFraction(0xc76c51a3, 193)
    ensures CubeFraction(0xd192e819, 197) && CubeFraction(0xd6990624, 199)
    ensures CubeFraction(0xf40e3585, 211) && CubeFraction(0x106aa070, 223)
  {
    assert CubeRoot(5, 0xa2bfe8a1, 179) && CubeRoot(5, 0xa81a664b, 181);
    assert CubeRoot(5, 0xc24b8b70, 191) && CubeRoot(5, 0xc76c51a3, 193);
    assert CubeRoot(5, 0xd192e819, 197) && CubeRoot(5, 0xd6990624, 199);
    assert CubeRoot(5, 0xf40e3585, 211) && CubeRoot(6, 0x106aa070, 223);
  }

  lemma CubeFractions6()
    ensures CubeFraction(0x19a4c116, 227) && CubeFraction(0x1e376c08, 229)
    ensures CubeFraction(0x2748774c, 233) && CubeFraction(0x34b0bcb5, 239)
    ensures CubeFraction(0x391c0cb3, 241) && CubeFraction(0x4ed8aa4a, 251)
    ensures CubeFraction(0x5b9cca4f, 257) && CubeFraction(0x682e6ff3, 263)
  {
    assert CubeRoot(6, 0x19a4c116, 227) && CubeRoot(6, 0x1e376c08, 229);
    assert CubeRoot(6, 0x2748774c, 233) && CubeRoot(6, 0x34b0bcb5, 239);
    assert CubeRoot(6, 0x391c0cb3, 241) && CubeRoot(6, 0x4ed8aa4a, 251);
    assert CubeRoot(6, 0x5b9cca4f, 257) && CubeRoot(6, 0x682e6ff3, 263);
  }

  lemma CubeFractions7()
    ensures CubeFraction(0x748f82ee, 269) && CubeFraction(0x78a5636f, 271)
    ensures CubeFraction(0x84c87814, 277) && CubeFraction(0x8cc70208, 281)
    ensures CubeFraction(0x90befffa, 283) && CubeFraction(0xa4506ceb, 293)
    ensures CubeFraction(0xbef9a3f7, 307) && CubeFraction(0xc67178f2, 311)
  {
    assert CubeRoot(6, 0x748f82ee, 269) && CubeRoot(6, 0x78a5636f, 271);
    assert CubeRoot(6, 0x84c87814, 277) && CubeRoot(6, 0x8cc70208, 281);
    assert CubeRoot(6, 0x90befffa, 283) && CubeRoot(6, 0xa4506ceb, 293);
    assert CubeRoot(6, 0xbef9a3f7, 307) && CubeRoot(6, 0xc67178f2, 311);
  }

  lemma EarlyConstants(t: nat)
    requires 0 <= t < 32
    ensures CubeFraction(KAt(t) as nat, PrimeAt(t))
  {
    hide CubeFraction;
    if t < 8 {
      CubeFractions0();
    } else if t < 16 {
      CubeFractions1();
    } else if t < 24 {
      CubeFractions2();
    } else {
      CubeFractions3();
    }
  }

  lemma LateConstants(t: nat)
    requires 32 <= t < 64
    ensures CubeFraction(KAt(t) as nat, PrimeAt(t))
  {
    hide CubeFraction;
    if t < 40 {
      CubeFractions4();
    } else if t < 48 {
      CubeFractions5();
    } else if t < 56 {
      CubeFractions6();
    } else {
      CubeFractions7();
    }
  }

  /** Section 4.2.2: each constant is the fraction of the cube root of its prime. */
  lemma ConstantsAreCubeRoots(t: nat)
    requires t < 64
    ensures CubeFraction(KAt(t) as nat, PrimeAt(t))
  {
    hide CubeFraction, KAt, PrimeAt;
    if t < 32 {
      EarlyConstants(t);
    } else {
      LateConstants(t);
    }
  }

  ghost predicate SquareRoot(m: nat, k: nat, p: nat) {
    var r := m * 0x1_0000_0000 + k;
    k < 0x1_0000_0000 && r * r <= p * 0x1_0000_0000_0000_0000 < (r + 1) * (r + 1)
  }

  ghost predicate SquareFraction(k: nat, p: nat) {
    exists m: nat :: SquareRoot(m, k, p)
  }

  /** Section 5.3.3: the initial hash value, from the square roots of the first eight primes. */
  lemma InitialHashIsSquareRoots()
    ensures SquareFraction(H0.a as nat, PrimeAt(0)) && SquareFraction(H0.b as nat, PrimeAt(1))
    ensures SquareFraction(H0.c as nat, PrimeAt(2)) && SquareFraction(H0.d as nat, PrimeAt(3))
    ensures SquareFraction(H0.e as nat, PrimeAt(4)) && SquareFraction(H0.f as nat, PrimeAt(5))
    ensures SquareFraction(H0.g as nat, PrimeAt(6)) && SquareFraction(H0.h as nat, PrimeAt(7))
  {
    assert SquareRoot(1, H0.a as nat, 2) && SquareRoot(1, H0.b as nat, 3);
    assert SquareRoot(2, H0.c as nat, 5) && SquareRoot(2, H0.d as nat, 7);
    assert SquareRoot(3, H0.e as nat, 11) && SquareRoot(3, H0.f as nat, 13);
    assert SquareRoot(4, H0.g as nat, 17) && SquareRoot(4, H0.h as nat, 19);
  }
}
