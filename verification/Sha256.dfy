/**
  SHA-256 as the daemon computes it, with whole blocks taken from the message and the rest from a 64- or
  128-byte tail buffer, proved to be the function of FIPS 180-4.
 */
module Sha256 {

  // ---- FIPS 180-4, sections 3.2 and 4.1.2: operations and functions ----

  /** Addition modulo 2^32. */
  function Plus(x: bv32, y: bv32): bv32 { x + y }

  function Rotr(x: bv32, n: bv32): bv32
    requires 0 < n < 32
  {
    (x >> n) | (x << (32 - n))
  }

  function Ch(x: bv32, y: bv32, z: bv32): bv32 { (x & y) ^ (!x & z) }

  function Maj(x: bv32, y: bv32, z: bv32): bv32 { (x & y) ^ (x & z) ^ (y & z) }

  function BigSigma0(x: bv32): bv32 { Rotr(x, 2) ^ Rotr(x, 13) ^ Rotr(x, 22) }

  function BigSigma1(x: bv32): bv32 { Rotr(x, 6) ^ Rotr(x, 11) ^ Rotr(x, 25) }

  function SmallSigma0(x: bv32): bv32 { Rotr(x, 7) ^ Rotr(x, 18) ^ (x >> 3) }

  function SmallSigma1(x: bv32): bv32 { Rotr(x, 17) ^ Rotr(x, 19) ^ (x >> 10) }

  // ---- Section 4.2.2: constants ----

  const K: seq<seq<bv32>> := [
    [0x428a2f98, 0x71374491, 0xb5c0fbcf, 0xe9b5dba5, 0x3956c25b, 0x59f111f1, 0x923f82a4, 0xab1c5ed5],
    [0xd807aa98, 0x12835b01, 0x243185be, 0x550c7dc3, 0x72be5d74, 0x80deb1fe, 0x9bdc06a7, 0xc19bf174],
    [0xe49b69c1, 0xefbe4786, 0x0fc19dc6, 0x240ca1cc, 0x2de92c6f, 0x4a7484aa, 0x5cb0a9dc, 0x76f988da],
    [0x983e5152, 0xa831c66d, 0xb00327c8, 0xbf597fc7, 0xc6e00bf3, 0xd5a79147, 0x06ca6351, 0x14292967],
    [0x27b70a85, 0x2e1b2138, 0x4d2c6dfc, 0x53380d13, 0x650a7354, 0x766a0abb, 0x81c2c92e, 0x92722c85],
    [0xa2bfe8a1, 0xa81a664b, 0xc24b8b70, 0xc76c51a3, 0xd192e819, 0xd6990624, 0xf40e3585, 0x106aa070],
    [0x19a4c116, 0x1e376c08, 0x2748774c, 0x34b0bcb5, 0x391c0cb3, 0x4ed8aa4a, 0x5b9cca4f, 0x682e6ff3],
    [0x748f82ee, 0x78a5636f, 0x84c87814, 0x8cc70208, 0x90befffa, 0xa4506ceb, 0xbef9a3f7, 0xc67178f2]]

  function KAt(t: nat): bv32
    requires t < 64
  {
    K[t / 8][t % 8]
  }

  // ---- Sections 5.2.1 and 6.2.2: parsing a block and compressing it ----

  function Word(b0: bv8, b1: bv8, b2: bv8, b3: bv8): bv32 {
    (b0 as bv32 << 24) | (b1 as bv32 << 16) | (b2 as bv32 << 8) | b3 as bv32
  }

  function WordByte(w: bv32, i: nat): bv8
    requires i < 4
  {
    ((if i == 0 then w >> 24 else if i == 1 then w >> 16 else if i == 2 then w >> 8 else w) & 0xFF) as bv8
  }

  /** Words are read most significant byte first. */
  lemma WordIsBigEndian(b0: bv8, b1: bv8, b2: bv8, b3: bv8)
    ensures var w := Word(b0, b1, b2, b3);
            WordByte(w, 0) == b0 && WordByte(w, 1) == b1 && WordByte(w, 2) == b2 && WordByte(w, 3) == b3
  {
  }

  type Block = b: seq<bv8> | |b| == 64 witness seq(64, _ => 0)

  function Schedule(block: Block, t: nat): bv32
    requires t < 64
  {
    if t < 16 then Word(block[4 * t], block[4 * t + 1], block[4 * t + 2], block[4 * t + 3])
    else Plus(Plus(Plus(Schedule(block, t - 16), SmallSigma0(Schedule(block, t - 15))),
                   Schedule(block, t - 7)), SmallSigma1(Schedule(block, t - 2)))
  }

  datatype Hash = Hash(a: bv32, b: bv32, c: bv32, d: bv32, e: bv32, f: bv32, g: bv32, h: bv32)

  function Round(v: Hash, k: bv32, w: bv32): Hash {
    var t1 := Plus(Plus(Plus(Plus(v.h, BigSigma1(v.e)), Ch(v.e, v.f, v.g)), k), w);
    var t2 := Plus(BigSigma0(v.a), Maj(v.a, v.b, v.c));
    Hash(Plus(t1, t2), v.a, v.b, v.c, Plus(v.d, t1), v.e, v.f, v.g)
  }

  function Rounds(v: Hash, block: Block, t: nat): Hash
    requires t <= 64
  {
    if t == 0 then v else Round(Rounds(v, block, t - 1), KAt(t - 1), Schedule(block, t - 1))
  }

  function Compress(v: Hash, block: Block): Hash {
    var r := Rounds(v, block, 64);
    Hash(Plus(v.a, r.a), Plus(v.b, r.b), Plus(v.c, r.c), Plus(v.d, r.d),
         Plus(v.e, r.e), Plus(v.f, r.f), Plus(v.g, r.g), Plus(v.h, r.h))
  }

  // ---- Sections 5.3.3 and 6.2: the hash of a message ----

  const H0 := Hash(0x6a09e667, 0xbb67ae85, 0x3c6ef372, 0xa54ff53a, 0x510e527f, 0x9b05688c, 0x1f83d9ab, 0x5be0cd19)

  function HashBlocks(v: Hash, m: seq<bv8>): Hash
    decreases |m|
  {
    if |m| < 64 then v else HashBlocks(Compress(v, m[..64]), m[64..])
  }

  function WordBytes(w: bv32): seq<bv8> {
    [WordByte(w, 0), WordByte(w, 1), WordByte(w, 2), WordByte(w, 3)]
  }

  function WordsBytes(ws: seq<bv32>): seq<bv8> {
    if ws == [] then [] else WordsBytes(ws[..|ws| - 1]) + WordBytes(ws[|ws| - 1])
  }

  function Digest(v: Hash): seq<bv8> {
    WordsBytes([v.a, v.b, v.c, v.d, v.e, v.f, v.g, v.h])
  }

  function Zeros(n: nat): seq<bv8> {
    seq(n, _ => 0)
  }

  function ShiftBits(l: bv64, n: nat): bv64
    requires n <= 64
  {
    l >> n
  }

  function LowByte(l: bv64): bv8 {
    (l & 0xFF) as bv8
  }

  function LengthByte(l: bv64, i: nat): bv8
    requires i < 8
  {
    LowByte(ShiftBits(l, 8 * i))
  }

  /** The 64-bit length, most significant byte first. */
  function LengthBytes(l: bv64): seq<bv8> {
    seq(8, i requires 0 <= i < 8 => LengthByte(l, 7 - i))
  }

  const MAX_BYTES := 0x2000_0000_0000_0000

  function BitLength(n: nat): bv64
    requires n < MAX_BYTES
  {
    (8 * n) as bv64
  }

  function PadZeros(n: nat): nat {
    (119 - n % 64) % 64
  }

  /** The padded message, in bytes. */
  function Padded(m: seq<bv8>): seq<bv8>
    requires |m| < MAX_BYTES
  {
    m + [0x80] + Zeros(PadZeros(|m|)) + LengthBytes(BitLength(|m|))
  }

  function Spec(m: seq<bv8>): seq<bv8>
    requires |m| < MAX_BYTES
  {
    Digest(HashBlocks(H0, Padded(m)))
  }

  // ---- Section 5.1.1, in bits: the byte padding is the padding of the standard ----

  function Half(l: bv64): bv64 { l >> 1 }

  function Odd(l: bv64): bool { l & 1 == 1 }

  /** The low `w` bits of `l`, most significant first. */
  function Binary(l: bv64, w: nat): seq<bool> {
    if w == 0 then [] else Binary(Half(l), w - 1) + [Odd(l)]
  }

  function Widen(b: bv8): bv64 { b as bv64 }

  function Bits(m: seq<bv8>): seq<bool> {
    if m == [] then [] else Bits(m[..|m| - 1]) + Binary(Widen(m[|m| - 1]), 8)
  }

  function Falses(k: nat): seq<bool> {
    seq(k, _ => false)
  }

  /** `k` is the least solution of l + 1 + k = 448 modulo 512. */
  ghost predicate PadBits(l: nat, k: nat) {
    Completes(l, k) && forall j: nat | Completes(l, j) :: k <= j
  }

  predicate Completes(l: nat, k: nat) {
    (l + 1 + k) % 512 == 448
  }

  lemma {:induction false} BitsConcat(a: seq<bv8>, b: seq<bv8>)
    ensures Bits(a + b) == Bits(a) + Bits(b)
  {
    if b == [] {
      assert a + b == a;
    } else {
      var n := |b| - 1;
      BitsConcat(a, b[..n]);
      assert (a + b)[..|a + b| - 1] == a + b[..n];
    }
  }

  lemma {:induction false} BitsLength(m: seq<bv8>)
    ensures |Bits(m)| == 8 * |m|
  {
    if m == [] {
    } else {
      BitsLength(m[..|m| - 1]);
      BinaryLength(Widen(m[|m| - 1]), 8);
    }
  }

  lemma {:induction false} BinaryLength(l: bv64, w: nat)
    ensures |Binary(l, w)| == w
  {
    if w == 0 {
    } else {
      BinaryLength(Half(l), w - 1);
    }
  }

  lemma {:induction false} BinaryOfZero(w: nat)
    ensures Binary(0, w) == Falses(w)
  {
    if w == 0 {
    } else {
      BinaryOfZero(w - 1);
      assert Half(0) == 0;
    }
  }

  lemma {:induction false} BitsOfZeros(n: nat)
    ensures Bits(Zeros(n)) == Falses(8 * n)
  {
    if n == 0 {
    } else {
      BitsOfZeros(n - 1);
      assert Zeros(n)[..n - 1] == Zeros(n - 1);
      BinaryOfZero(8);
      assert Falses(8 * (n - 1)) + Falses(8) == Falses(8 * n);
    }
  }

  lemma BinaryDoubled(l: bv64, w: nat)
    requires l < 0x100
    ensures Binary(l << 1, w + 1) == Binary(l, w) + [false]
  {
    assert Half(l << 1) == l && !Odd(l << 1);
  }

  lemma BitsOfMarker()
    ensures Bits([0x80]) == [true] + Falses(7)
  {
    assert [0x80 as bv8][..0] == [];
    assert Binary(1, 1) == [true] by {
      assert Binary(Half(1), 0) == [];
    }
    BinaryDoubled(1, 1);
    BinaryDoubled(2, 2);
    BinaryDoubled(4, 3);
    BinaryDoubled(8, 4);
    BinaryDoubled(16, 5);
    BinaryDoubled(32, 6);
    BinaryDoubled(64, 7);
    assert Widen(0x80) == 0x80;
  }

  function Halved(l: bv64, n: nat): bv64 {
    if n == 0 then l else Halved(Half(l), n - 1)
  }

  lemma {:induction false} BinarySplit(l: bv64, w: nat, n: nat)
    ensures Binary(l, w + n) == Binary(Halved(l, n), w) + Binary(l, n)
    decreases n
  {
    hide Half, Odd;
    if n == 0 {
      assert Binary(l, w) + [] == Binary(l, w);
    } else {
      BinarySplit(Half(l), w, n - 1);
      assert Binary(l, w + n) == Binary(Half(l), w + (n - 1)) + [Odd(l)];
    }
  }

  /** `k` and `l` have the same low `n` bits. */
  predicate SameLow(k: bv64, l: bv64, n: nat) {
    n == 0 || (Odd(k) == Odd(l) && SameLow(Half(k), Half(l), n - 1))
  }

  lemma {:induction false} BinaryOfSameLow(k: bv64, l: bv64, n: nat)
    requires SameLow(k, l, n)
    ensures Binary(k, n) == Binary(l, n)
    decreases n
  {
    hide Half, Odd;
    if n == 0 {
    } else {
      BinaryOfSameLow(Half(k), Half(l), n - 1);
    }
  }

  function LowMask(n: nat): bv64
    requires n <= 8
  {
    if n == 0 then 0 else if n == 1 then 1 else if n == 2 then 3 else if n == 3 then 7 else if n == 4 then 15
    else if n == 5 then 31 else if n == 6 then 63 else if n == 7 then 127 else 255
  }

  predicate Agree(k: bv64, l: bv64, n: nat)
    requires n <= 8
  {
    k & LowMask(n) == l & LowMask(n)
  }

  lemma AgreeStep(k: bv64, l: bv64, n: nat)
    requires 0 < n <= 8 && Agree(k, l, n)
    ensures Odd(k) == Odd(l) && Agree(Half(k), Half(l), n - 1)
  {
  }

  lemma {:induction false} AgreeIsSameLow(k: bv64, l: bv64, n: nat)
    requires n <= 8 && Agree(k, l, n)
    ensures SameLow(k, l, n)
    decreases n
  {
    hide Half, Odd, Agree;
    if n == 0 {
    } else {
      AgreeStep(k, l, n);
      AgreeIsSameLow(Half(k), Half(l), n - 1);
    }
  }

  lemma LowByteAgrees(l: bv64)
    ensures Agree(Widen(LowByte(l)), l, 8)
  {
  }

  lemma HalvedEight(l: bv64)
    ensures Halved(l, 8) == l >> 8
  {
    var a, b, c := Half(Half(l)), Half(Half(Half(Half(l)))), Half(Half(Half(Half(Half(Half(l))))));
    assert Halved(Half(c), 1) == Halved(Half(Half(c)), 0);
    assert Halved(l, 8) == Halved(a, 6) == Halved(b, 4) == Halved(c, 2);
  }

  /** The last byte of a number carries its last eight bits. */
  lemma BinaryByte(l: bv64, w: nat)
    ensures Binary(l, w + 8) == Binary(l >> 8, w) + Binary(Widen(LowByte(l)), 8)
  {
    hide Half, Odd;
    BinarySplit(l, w, 8);
    HalvedEight(l);
    LowByteAgrees(l);
    AgreeIsSameLow(Widen(LowByte(l)), l, 8);
    BinaryOfSameLow(Widen(LowByte(l)), l, 8);
  }

  lemma ShiftByteMore(l: bv64, n: nat)
    requires n == 0 || n == 8 || n == 16 || n == 24 || n == 32 || n == 40 || n == 48
    ensures ShiftBits(l, n) >> 8 == ShiftBits(l, n + 8)
  {
    if n == 0 {
      assert l >> 0 == l;
    } else if n == 8 {
      assert (l >> 8) >> 8 == l >> 16;
    } else if n == 16 {
      assert (l >> 16) >> 8 == l >> 24;
    } else if n == 24 {
      assert (l >> 24) >> 8 == l >> 32;
    } else if n == 32 {
      assert (l >> 32) >> 8 == l >> 40;
    } else if n == 40 {
      assert (l >> 40) >> 8 == l >> 48;
    } else {
      assert (l >> 48) >> 8 == l >> 56;
    }
  }

  /** The leading `k` length bytes are the bits above the remaining `8 - k` bytes. */
  lemma {:induction false} LengthBytesPrefix(l: bv64, k: nat)
    requires 1 <= k <= 8
    ensures Bits(LengthBytes(l)[..k]) == Binary(ShiftBits(l, 64 - 8 * k), 8 * k)
    decreases k
  {
    hide Half, Odd, Widen, LowByte, ShiftBits, Bits;
    var s := LengthBytes(l);
    var x := ShiftBits(l, 64 - 8 * k);
    LengthByteStep(l, k);
    if k == 1 {
      assert s[..0] == [] && Binary(x >> 8, 0) == [];
      BitsOfNothing();
    } else {
      ShiftByteMore(l, 64 - 8 * k);
      LengthBytesPrefix(l, k - 1);
    }
  }

  lemma BitsOfNothing()
    ensures Bits([]) == []
  {
  }

  lemma LengthByteStep(l: bv64, k: nat)
    requires 1 <= k <= 8
    ensures var x := ShiftBits(l, 64 - 8 * k);
            && Bits(LengthBytes(l)[..k]) == Bits(LengthBytes(l)[..k - 1]) + Binary(Widen(LowByte(x)), 8)
            && Binary(x, 8 * k) == Binary(x >> 8, 8 * k - 8) + Binary(Widen(LowByte(x)), 8)
  {
    hide Binary, Widen, LowByte, ShiftBits, Bits;
    var s := LengthBytes(l);
    BinaryByte(ShiftBits(l, 64 - 8 * k), 8 * k - 8);
    assert s[k - 1] == LengthByte(l, 8 - k);
    BitsSnoc(s[..k - 1], s[k - 1]);
    assert s[..k] == s[..k - 1] + [s[k - 1]];
  }

  lemma BitsSnoc(s: seq<bv8>, b: bv8)
    ensures Bits(s + [b]) == Bits(s) + Binary(Widen(b), 8)
  {
    hide Binary, Widen;
    assert (s + [b])[..|s|] == s;
  }

  lemma BitsOfLength(l: bv64)
    ensures Bits(LengthBytes(l)) == Binary(l, 64)
  {
    LengthBytesPrefix(l, 8);
    assert LengthBytes(l)[..8] == LengthBytes(l);
  }

  /** Section 5.1.1: the message, a one bit, the least sufficient number of zero bits, and the message length
      in bits as a 64-bit number; the whole is a multiple of 512 bits. */
  lemma PaddingIsTheStandards(m: seq<bv8>)
    requires |m| < MAX_BYTES
    ensures var k := 7 + 8 * PadZeros(|m|);
            && PadBits(|Bits(m)|, k)
            && Bits(Padded(m)) == Bits(m) + [true] + Falses(k) + Binary(BitLength(|m|), 64)
            && |Bits(m)| == 8 * |m|
    ensures |Padded(m)| % 64 == 0
  {
    hide Bits, Binary, BitLength, Padded, Falses, PadZeros, PadBits;
    BitsOfPadded(m);
    BitsLength(m);
    LeastPadding(|m|);
    PaddedIsWholeBlocks(m);
  }

  lemma PaddedIsWholeBlocks(m: seq<bv8>)
    requires |m| < MAX_BYTES
    ensures |Padded(m)| % 64 == 0
  {
    hide BitLength, PadZeros, Padded, PadBits;
    PaddedLength(m);
    LeastPadding(|m|);
  }

  lemma PaddedLength(m: seq<bv8>)
    requires |m| < MAX_BYTES
    ensures |Padded(m)| == |m| + 1 + PadZeros(|m|) + 8
  {
    hide BitLength, PadZeros;
  }

  lemma BitsOfPadded(m: seq<bv8>)
    requires |m| < MAX_BYTES
    ensures Bits(Padded(m))
         == Bits(m) + [true] + Falses(7 + 8 * PadZeros(|m|)) + Binary(BitLength(|m|), 64)
  {
    hide Bits, Binary, BitLength, LengthBytes, PadZeros;
    var z := PadZeros(|m|);
    BitsOfFour(m, [0x80], Zeros(z), LengthBytes(BitLength(|m|)));
    BitsOfMarker();
    BitsOfZeros(z);
    BitsOfLength(BitLength(|m|));
    MarkerAndZeros(Bits(m), z);
  }

  lemma BitsOfFour(a: seq<bv8>, b: seq<bv8>, c: seq<bv8>, d: seq<bv8>)
    ensures Bits(a + b + c + d) == Bits(a) + Bits(b) + Bits(c) + Bits(d)
  {
    hide Bits;
    BitsConcat(a, b);
    BitsConcat(a + b, c);
    BitsConcat(a + b + c, d);
  }

  lemma MarkerAndZeros(bits: seq<bool>, z: nat)
    ensures bits + ([true] + Falses(7)) + Falses(8 * z) == bits + [true] + Falses(7 + 8 * z)
  {
  }

  lemma LeastPadding(n: nat)
    ensures PadBits(8 * n, 7 + 8 * PadZeros(n))
    ensures (n + 1 + PadZeros(n) + 8) % 64 == 0
  {
    hide PadZeros, Completes;
    PaddingCompletes(n);
    forall j: nat | Completes(8 * n, j)
      ensures 7 + 8 * PadZeros(n) <= j
    {
      CompletesInBlock(n, j);
      PadZerosCases(n);
      AtLeastThePadding(n % 64, j);
    }
  }

  lemma PadZerosCases(n: nat)
    ensures PadZeros(n) == if n % 64 <= 55 then 55 - n % 64 else 119 - n % 64
  {
  }

  lemma PaddingCompletes(n: nat)
    ensures Completes(8 * n, 7 + 8 * PadZeros(n)) && (n + 1 + PadZeros(n) + 8) % 64 == 0
  {
    hide PadZeros, Completes;
    var r, z := n % 64, PadZeros(n);
    PadZerosCases(n);
    CompletesInBlock(n, 7 + 8 * z);
    assert 8 * r + 1 + (7 + 8 * z) == if r <= 55 then 448 else 960;
    assert n + 1 + z + 8 == 64 * (n / 64) + (r + 1 + z + 8);
    ModDrops(64, n / 64, r + 1 + z + 8);
  }

  lemma CompletesInBlock(n: nat, j: nat)
    ensures Completes(8 * n, j) <==> (8 * (n % 64) + 1 + j) % 512 == 448
  {
    var r, q := n % 64, n / 64;
    assert 8 * n + 1 + j == 512 * q + (8 * r + 1 + j);
    ModDrops(512, q, 8 * r + 1 + j);
  }

  lemma AtLeastThePadding(r: nat, j: nat)
    requires r < 64 && (8 * r + 1 + j) % 512 == 448
    ensures 7 + 8 * (if r <= 55 then 55 - r else 119 - r) <= j
  {
    assert 8 * r + 1 + j == 512 * ((8 * r + 1 + j) / 512) + 448;
  }

  lemma ModDrops(m: nat, q: nat, x: nat)
    requires m == 512 || m == 64
    ensures (m * q + x) % m == x % m
  {
  }

  // ---- The code ----

  function StateOf(s: seq<bv32>): Hash
    requires |s| == 8
  {
    Hash(s[0], s[1], s[2], s[3], s[4], s[5], s[6], s[7])
  }

  /** `process_block` on the 64 bytes at `off`: the state is replaced by its compression with that block. */
  method ProcessBlock(bytes: seq<bv8>, off: nat, state: array<bv32>)
    requires state.Length == 8 && off + 64 <= |bytes|
    modifies state
    ensures StateOf(state[..]) == Compress(old(StateOf(state[..])), bytes[off..off + 64])
  {
    hide Plus, Word, SmallSigma0, SmallSigma1, BigSigma0, BigSigma1, Ch, Maj, KAt, Schedule;
    ghost var block: Block := bytes[off..off + 64];
    ghost var v := StateOf(state[..]);
    var W := new bv32[64];
    for i := 0 to 16
      invariant unchanged(state)
      invariant forall t | 0 <= t < i :: W[t] == Schedule(block, t)
    {
      ScheduleWord(block, i);
      W[i] := Word(bytes[off + i * 4], bytes[off + i * 4 + 1], bytes[off + i * 4 + 2], bytes[off + i * 4 + 3]);
    }
    for i := 16 to 64
      invariant unchanged(state)
      invariant forall t | 0 <= t < i :: W[t] == Schedule(block, t)
    {
      ScheduleStep(block, i);
      var s0 := SmallSigma0(W[i - 15]);
      var s1 := SmallSigma1(W[i - 2]);
      W[i] := Plus(Plus(Plus(W[i - 16], s0), W[i - 7]), s1);
    }
    var a, b, c, d := state[0], state[1], state[2], state[3];
    var e, f, g, h := state[4], state[5], state[6], state[7];
    for i := 0 to 64
      invariant unchanged(state)
      invariant Hash(a, b, c, d, e, f, g, h) == Rounds(v, block, i)
    {
      var S1 := BigSigma1(e);
      var ch := Ch(e, f, g);
      var t1 := Plus(Plus(Plus(Plus(h, S1), ch), KAt(i)), W[i]);
      var S0 := BigSigma0(a);
      var mj := Maj(a, b, c);
      var t2 := Plus(S0, mj);
      h := g;
      g := f;
      f := e;
      e := Plus(d, t1);
      d := c;
      c := b;
      b := a;
      a := Plus(t1, t2);
    }
    hide Rounds;
    state[0], state[1], state[2], state[3] :=
      Plus(state[0], a), Plus(state[1], b), Plus(state[2], c), Plus(state[3], d);
    state[4], state[5], state[6], state[7] :=
      Plus(state[4], e), Plus(state[5], f), Plus(state[6], g), Plus(state[7], h);
  }

  lemma ScheduleWord(block: Block, t: nat)
    requires t < 16
    ensures Schedule(block, t) == Word(block[4 * t], block[4 * t + 1], block[4 * t + 2], block[4 * t + 3])
  {
  }

  lemma ScheduleStep(block: Block, t: nat)
    requires 16 <= t < 64
    ensures Schedule(block, t) == Plus(Plus(Plus(Schedule(block, t - 16), SmallSigma0(Schedule(block, t - 15))),
                                            Schedule(block, t - 7)), SmallSigma1(Schedule(block, t - 2)))
  {
    hide Plus, SmallSigma0, SmallSigma1, Word;
  }

  /** What the tail buffer has to hold once the whole blocks are gone. */
  lemma TailOfPadded(m: seq<bv8>, pos: nat)
    requires |m| < MAX_BYTES && pos % 64 == 0 && pos <= |m| < pos + 64
    ensures var r := |m| - pos;
            var padLen := if r < 56 then 64 else 128;
            && Padded(m)[pos..] == m[pos..] + [0x80] + Zeros(padLen - 9 - r) + LengthBytes(BitLength(|m|))
            && |Padded(m)[pos..]| == padLen
  {
    hide BitLength;
    assert |m| % 64 == |m| - pos;
  }

  lemma BlockOfPadded(m: seq<bv8>, pos: nat)
    requires |m| < MAX_BYTES && pos + 64 <= |m|
    ensures Padded(m)[pos..][..64] == m[pos..pos + 64] && Padded(m)[pos..][64..] == Padded(m)[pos + 64..]
    ensures |Padded(m)| >= pos + 64
  {
    hide BitLength;
  }

  lemma HashOneMore(v: Hash, m: seq<bv8>)
    requires |m| >= 64
    ensures HashBlocks(v, m) == HashBlocks(Compress(v, m[..64]), m[64..])
  {
    hide Compress;
  }

  lemma {:induction false} HashOneOrTwo(v: Hash, m: seq<bv8>)
    requires |m| == 64 || |m| == 128
    ensures |m| == 64 ==> HashBlocks(v, m) == Compress(v, m)
    ensures |m| == 128 ==> HashBlocks(v, m) == Compress(Compress(v, m[..64]), m[64..])
    decreases |m|
  {
    hide Compress;
    assert |m| == 64 ==> m[..64] == m;
    if |m| == 128 {
      HashOneOrTwo(Compress(v, m[..64]), m[64..]);
    }
  }

  /** `sha256`: the digest of FIPS 180-4 of every message shorter than 2^64 bits. */
  method Sha256(data: seq<bv8>) returns (digest: seq<bv8>)
    requires |data| < MAX_BYTES
    ensures digest == Spec(data)
  {
    hide Compress, BitLength, LengthBytes, WordByte, HashBlocks, Padded, Digest;
    var state := new bv32[8];
    state[0], state[1], state[2], state[3] := 0x6a09e667, 0xbb67ae85, 0x3c6ef372, 0xa54ff53a;
    state[4], state[5], state[6], state[7] := 0x510e527f, 0x9b05688c, 0x1f83d9ab, 0x5be0cd19;
    var pos, len := 0, |data|;
    PaddedLength(data);
    assert Padded(data)[0..] == Padded(data);
    while len >= 64
      invariant 0 <= len && pos + len == |data| && pos % 64 == 0
      invariant HashBlocks(StateOf(state[..]), Padded(data)[pos..]) == HashBlocks(H0, Padded(data))
    {
      BlockOfPadded(data, pos);
      HashOneMore(StateOf(state[..]), Padded(data)[pos..]);
      ProcessBlock(data, pos, state);
      pos := pos + 64;
      len := len - 64;
    }
    TailOfPadded(data, pos);
    ghost var rest := Padded(data)[pos..];
    var pad := FillTail(data, pos);
    HashOneOrTwo(StateOf(state[..]), rest);
    var padLen := if len < 56 then 64 else 128;
    assert pad[..padLen] == rest;
    assert pad[0..64] == rest[..64];
    ProcessBlock(pad[..], 0, state);
    if padLen == 128 {
      assert pad[64..128] == rest[64..];
      ProcessBlock(pad[..], 64, state);
    }
    digest := Output(state);
  }

  /** The tail buffer: what is left of the message, the marker byte, zeros, and the bit length at the end. */
  method FillTail(data: seq<bv8>, pos: nat) returns (pad: array<bv8>)
    requires |data| < MAX_BYTES && pos <= |data| < pos + 64
    ensures fresh(pad) && pad.Length == 128
    ensures var len := |data| - pos;
            var padLen := if len < 56 then 64 else 128;
            pad[..padLen] == data[pos..] + [0x80] + Zeros(padLen - 9 - len) + LengthBytes(BitLength(|data|))
  {
    hide BitLength, LowByte, ShiftBits;
    var len := |data| - pos;
    pad := new bv8[128](_ => 0);
    for i := 0 to len
      invariant forall k | 0 <= k < i :: pad[k] == data[pos + k]
      invariant forall k | i <= k < 128 :: pad[k] == 0
    {
      pad[i] := data[pos + i];
    }
    pad[len] := 0x80;
    var padLen := if len < 56 then 64 else 128;
    var bitLen := BitLength(|data|);
    for i := 0 to 8
      invariant forall k | 0 <= k < len :: pad[k] == data[pos + k]
      invariant pad[len] == 0x80
      invariant forall k | len < k < padLen - i :: pad[k] == 0
      invariant forall k | 0 <= k < i :: pad[padLen - 1 - k] == LengthByte(bitLen, k)
    {
      pad[padLen - 1 - i] := LowByte(ShiftBits(bitLen, 8 * i));
    }
    ghost var tail := LengthBytes(bitLen);
    forall k | 0 <= k < 8
      ensures pad[padLen - 8 + k] == tail[k]
    {
      assert pad[padLen - 1 - (7 - k)] == LengthByte(bitLen, 7 - k);
    }
  }

  lemma WordsBytesOfNothing()
    ensures WordsBytes([]) == []
  {
  }

  lemma WordsBytesSnoc(ws: seq<bv32>, w: bv32)
    ensures WordsBytes(ws + [w]) == WordsBytes(ws) + WordBytes(w)
  {
    hide WordByte;
    assert (ws + [w])[..|ws|] == ws;
  }

  /** Four bytes of the output. */
  method PutWord(out: array<bv8>, at: nat, w: bv32)
    requires at + 4 <= out.Length
    modifies out
    ensures out[..at + 4] == old(out[..at]) + WordBytes(w)
  {
    hide WordByte;
    out[at] := WordByte(w, 0);
    out[at + 1] := WordByte(w, 1);
    out[at + 2] := WordByte(w, 2);
    out[at + 3] := WordByte(w, 3);
  }

  method Output(state: array<bv32>) returns (digest: seq<bv8>)
    requires state.Length == 8
    ensures digest == Digest(StateOf(state[..]))
  {
    hide WordBytes, WordsBytes;
    var out := new bv8[32];
    WordsBytesOfNothing();
    for i := 0 to 8
      invariant out[..4 * i] == WordsBytes(state[..i])
    {
      WordsBytesSnoc(state[..i], state[i]);
      assert state[..i + 1] == state[..i] + [state[i]];
      PutWord(out, i * 4, state[i]);
    }
    var v := StateOf(state[..]);
    assert state[..8] == [v.a, v.b, v.c, v.d, v.e, v.f, v.g, v.h];
    digest := out[..];
    assert out[..32] == out[..];
  }
}
