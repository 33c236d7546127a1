/**
  Base64 (section 4 of RFC 4648): the daemon's encoder and the setuid helper's separately written C
  decoder, each proved against a recursive definition, and the round trip between the two.
 */
module Base64 {
  import opened Wrappers

  // ---- The alphabet, Table 1 of RFC 4648 ----

  function Letter(v: bv32): bv8
    requires v < 64
  {
    if v < 26 then (v + 0x41) as bv8
    else if v < 52 then (v - 26 + 0x61) as bv8
    else if v < 62 then (v - 52 + 0x30) as bv8
    else if v == 62 then 0x2B
    else 0x2F
  }

  const EQUALS: bv8 := 0x3D

  /** The C ints -1 (no such letter) and -2 (padding) as 32-bit patterns. */
  const MINUS_ONE: bv32 := 0xFFFF_FFFF
  const PAD: bv32 := 0xFFFF_FFFE

  predicate Negative(v: bv32) {
    v >= 0x8000_0000
  }

  function B64Val(c: bv8): bv32 {
    if 0x41 <= c <= 0x5A then (c - 0x41) as bv32
    else if 0x61 <= c <= 0x7A then (c - 0x61) as bv32 + 26
    else if 0x30 <= c <= 0x39 then (c - 0x30) as bv32 + 52
    else if c == 0x2B then 62
    else if c == 0x2F then 63
    else MINUS_ONE
  }

  predicate Space(c: bv8) {
    c == 0x0A || c == 0x0D || c == 0x20 || c == 0x09
  }

  lemma LetterRoundTrip(v: bv32)
    requires v < 64
    ensures B64Val(Letter(v)) == v && !Negative(v)
    ensures !Space(Letter(v)) && Letter(v) != 0 && Letter(v) != EQUALS
  {
  }

  // ---- Encoding ----

  function Pack(b0: bv8, b1: bv8, b2: bv8): bv32 {
    (b0 as bv32 << 16) | (b1 as bv32 << 8) | b2 as bv32
  }

  function Sextet(v: bv32, i: nat): (r: bv32)
    requires i < 4
    ensures r < 64
  {
    (if i == 0 then v >> 18 else if i == 1 then v >> 12 else if i == 2 then v >> 6 else v) & 0x3F
  }

  /** One group of one to three bytes as four letters, the missing ones replaced by padding. */
  function Group(b: seq<bv8>): (r: seq<bv8>)
    requires 1 <= |b| <= 3
    ensures |r| == 4
  {
    var v := Pack(b[0], if |b| > 1 then b[1] else 0, if |b| > 2 then b[2] else 0);
    [Letter(Sextet(v, 0)), Letter(Sextet(v, 1)),
     if |b| > 1 then Letter(Sextet(v, 2)) else EQUALS,
     if |b| > 2 then Letter(Sextet(v, 3)) else EQUALS]
  }

  function Encoded(b: seq<bv8>): seq<bv8> {
    if b == [] then [] else if |b| <= 3 then Group(b) else Group(b[..3]) + Encoded(b[3..])
  }

  lemma EncodedSplit(input: seq<bv8>, i: nat)
    requires i + 3 <= |input|
    ensures Encoded(input[i..]) == Group(input[i..i + 3]) + Encoded(input[i + 3..])
  {
    assert input[i..][..3] == input[i..i + 3] && input[i..][3..] == input[i + 3..];
    if i + 3 == |input| {
      assert input[i..] == input[i..i + 3];
    }
  }

  lemma AppendFour(s: seq<bv8>, g: seq<bv8>)
    requires |g| == 4
    ensures s + [g[0]] + [g[1]] + [g[2]] + [g[3]] == s + g
  {
  }

  /** `base64_encode`. */
  method Encode(input: seq<bv8>) returns (out: seq<bv8>)
    ensures out == Encoded(input)
  {
    hide Letter, Sextet, Pack;
    out := [];
    var i := 0;
    while i + 3 <= |input|
      invariant i <= |input|
      invariant out + Encoded(input[i..]) == Encoded(input)
    {
      EncodedSplit(input, i);
      ghost var before := out;
      var v := Pack(input[i], input[i + 1], input[i + 2]);
      out := out + [Letter(Sextet(v, 0))];
      out := out + [Letter(Sextet(v, 1))];
      out := out + [Letter(Sextet(v, 2))];
      out := out + [Letter(Sextet(v, 3))];
      AppendFour(before, Group(input[i..i + 3]));
      i := i + 3;
    }
    if i < |input| {
      ghost var before, tail := out, input[i..];
      assert 1 <= |tail| <= 2 && tail[0] == input[i] && (|tail| > 1 ==> tail[1] == input[i + 1]);
      var v := Pack(input[i], if i + 1 < |input| then input[i + 1] else 0, 0);
      out := out + [Letter(Sextet(v, 0))];
      out := out + [Letter(Sextet(v, 1))];
      out := out + [if i + 1 < |input| then Letter(Sextet(v, 2)) else EQUALS];
      out := out + [EQUALS];
      AppendFour(before, Group(tail));
    }
  }

  // ---- Decoding ----

  function Byte0(q0: bv32, q1: bv32): bv8 {
    (((q0 << 2) | (q1 >> 4)) & 0xFF) as bv8
  }

  function Byte1(q1: bv32, q2: bv32): bv8 {
    ((((q1 & 0x0F) << 4) | (q2 >> 2)) & 0xFF) as bv8
  }

  function Byte2(q2: bv32, q3: bv32): bv8 {
    ((((q2 & 0x03) << 6) | q3) & 0xFF) as bv8
  }

  /** What four symbols decode to: an error, the last bytes of the message, or three bytes of it. */
  datatype QuadResult = Bad | Last(bytes: seq<bv8>) | More(bytes: seq<bv8>)

  function DecodeQuad(q: seq<bv32>): QuadResult
    requires |q| == 4
  {
    if Negative(q[0]) || Negative(q[1]) then Bad
    else if q[2] == PAD then Last([Byte0(q[0], q[1])])
    else if Negative(q[2]) then Bad
    else if q[3] == PAD then Last([Byte0(q[0], q[1]), Byte1(q[1], q[2])])
    else if Negative(q[3]) then Bad
    else More([Byte0(q[0], q[1]), Byte1(q[1], q[2]), Byte2(q[2], q[3])])
  }

  function Symbol(c: bv8): bv32 {
    if c == EQUALS then PAD else B64Val(c)
  }

  /** The message in a NUL-terminated text, given the symbols of an unfinished quartet and the bytes so far. */
  function DecodedFrom(s: seq<bv8>, quad: seq<bv32>, out: seq<bv8>, cap: nat): Option<seq<bv8>>
    requires |quad| < 4
    decreases s, 3 - |quad|
  {
    if s == [] || s[0] == 0 then (if quad == [] then Some(out) else None)
    else if Space(s[0]) then DecodedFrom(s[1..], quad, out, cap)
    else if Symbol(s[0]) == MINUS_ONE then None
    else
      var q := quad + [Symbol(s[0])];
      if |q| < 4 then DecodedFrom(s[1..], q, out, cap) else AfterQuad(DecodeQuad(q), s[1..], out, cap)
  }

  /** Appending the bytes of a full quartet, if they fit. */
  function AfterQuad(r: QuadResult, rest: seq<bv8>, out: seq<bv8>, cap: nat): Option<seq<bv8>>
    decreases rest, 4
  {
    if r.Bad? || |out + r.bytes| > cap then None
    else if r.Last? then Some(out + r.bytes)
    else DecodedFrom(rest, [], out + r.bytes, cap)
  }

  function Decoded(s: seq<bv8>, cap: nat): Option<seq<bv8>> {
    DecodedFrom(s, [], [], cap)
  }

  lemma ValuesAreLettersOrMinusOne(c: bv8)
    ensures B64Val(c) < 64 || B64Val(c) == MINUS_ONE
  {
  }

  /** `base64_decode`: at most `dstSz` bytes of `dst` are ever written, whatever the input. */
  method Decode(input: seq<bv8>, dst: array<bv8>, dstSz: nat) returns (n: int)
    requires dstSz <= dst.Length
    modifies dst
    ensures dst[dstSz..] == old(dst[dstSz..])
    ensures n == -1 <==> Decoded(input, dstSz) == None
    ensures n != -1 ==> 0 <= n <= dstSz && Some(dst[..n]) == Decoded(input, dstSz)
  {
    var out := 0;
    var quad := new bv32[4];
    var q := 0;
    var p := 0;
    while p < |input| && input[p] != 0
      invariant p <= |input| && q < 4 && 0 <= out <= dstSz
      invariant dst[dstSz..] == old(dst[dstSz..])
      invariant DecodedFrom(input[p..], quad[..q], dst[..out], dstSz) == Decoded(input, dstSz)
    {
      var c := input[p];
      ghost var rest, before := input[p..], quad[..q];
      assert rest[0] == c && rest[1..] == input[p + 1..];
      p := p + 1;
      if Space(c) {
        continue;
      }
      if c == EQUALS {
        quad[q] := PAD;
      } else {
        ValuesAreLettersOrMinusOne(c);
        if Negative(B64Val(c)) {
          return -1;
        }
        quad[q] := B64Val(c);
      }
      q := q + 1;
      assert quad[..q] == before + [Symbol(c)];
      if q == 4 {
        assert quad[..] == quad[..q];
        var more;
        out, more := WriteQuad(quad, dst, out, dstSz);
        if out == -1 {
          return -1;
        }
        if !more {
          return out;
        }
        q := 0;
        assert quad[..0] == [];
      }
    }
    return if q != 0 then -1 else out;
  }

  /** The body of the decoder's `q == 4` branch: up to three bytes, each after its own bounds check. */
  method WriteQuad(quad: array<bv32>, dst: array<bv8>, pos: nat, dstSz: nat) returns (out: int, more: bool)
    requires quad.Length == 4 && quad as object != dst
    requires pos <= dstSz <= dst.Length
    modifies dst
    ensures dst[dstSz..] == old(dst[dstSz..])
    ensures out == -1 || pos <= out <= dstSz
    ensures var r := DecodeQuad(quad[..]);
            && (out == -1 <==> r.Bad? || pos + |r.bytes| > dstSz)
            && (out != -1 ==> dst[..out] == old(dst[..pos]) + r.bytes && more == r.More?)
  {
    hide Byte0, Byte1, Byte2;
    if Negative(quad[0]) || Negative(quad[1]) {
      return -1, false;
    }
    if pos + 1 > dstSz {
      return -1, false;
    }
    dst[pos] := Byte0(quad[0], quad[1]);
    if quad[2] == PAD {
      return pos + 1, false;
    }
    if Negative(quad[2]) {
      return -1, false;
    }
    if pos + 2 > dstSz {
      return -1, false;
    }
    dst[pos + 1] := Byte1(quad[1], quad[2]);
    if quad[3] == PAD {
      return pos + 2, false;
    }
    if Negative(quad[3]) {
      return -1, false;
    }
    if pos + 3 > dstSz {
      return -1, false;
    }
    dst[pos + 2] := Byte2(quad[2], quad[3]);
    return pos + 3, true;
  }

  // ---- The round trip ----

  lemma QuadRoundTrip(b0: bv8, b1: bv8, b2: bv8)
    ensures var v := Pack(b0, b1, b2);
            var s0, s1, s2, s3 := Sextet(v, 0), Sextet(v, 1), Sextet(v, 2), Sextet(v, 3);
            Byte0(s0, s1) == b0 && Byte1(s1, s2) == b1 && Byte2(s2, s3) == b2
  {
  }

  /** Reading four symbols, none of them a space, a NUL or an unknown letter. */
  lemma ReadQuad(s: seq<bv8>, out: seq<bv8>, cap: nat)
    requires |s| >= 4
    requires forall i | 0 <= i < 4 :: s[i] != 0 && !Space(s[i]) && Symbol(s[i]) != MINUS_ONE
    ensures var q := [Symbol(s[0]), Symbol(s[1]), Symbol(s[2]), Symbol(s[3])];
            DecodedFrom(s, [], out, cap) == AfterQuad(DecodeQuad(q), s[4..], out, cap)
  {
    var q0, q1, q2 := [Symbol(s[0])], [Symbol(s[0]), Symbol(s[1])], [Symbol(s[0]), Symbol(s[1]), Symbol(s[2])];
    assert [] + [Symbol(s[0])] == q0 && q0 + [Symbol(s[1])] == q1 && q1 + [Symbol(s[2])] == q2;
    assert DecodedFrom(s, [], out, cap) == DecodedFrom(s[1..], q0, out, cap);
    assert s[1..][1..] == s[2..] && s[2..][1..] == s[3..] && s[3..][1..] == s[4..];
    assert DecodedFrom(s[1..], q0, out, cap) == DecodedFrom(s[2..], q1, out, cap);
    assert DecodedFrom(s[2..], q1, out, cap) == DecodedFrom(s[3..], q2, out, cap);
    assert q2 + [Symbol(s[3])] == [Symbol(s[0]), Symbol(s[1]), Symbol(s[2]), Symbol(s[3])];
  }

  /** What the decoder makes of one group. */
  lemma GroupRoundTrip(b: seq<bv8>)
    requires 1 <= |b| <= 3
    ensures var g := Group(b);
            && (forall i | 0 <= i < 4 :: g[i] != 0 && !Space(g[i]) && Symbol(g[i]) != MINUS_ONE)
            && DecodeQuad([Symbol(g[0]), Symbol(g[1]), Symbol(g[2]), Symbol(g[3])])
               == if |b| == 3 then More(b) else Last(b)
  {
    hide Letter, Sextet, Pack, B64Val, Space, Byte0, Byte1, Byte2;
    var b1, b2 := if |b| > 1 then b[1] else 0, if |b| > 2 then b[2] else 0;
    var v := Pack(b[0], b1, b2);
    QuadRoundTrip(b[0], b1, b2);
    LetterRoundTrip(Sextet(v, 0));
    LetterRoundTrip(Sextet(v, 1));
    LetterRoundTrip(Sextet(v, 2));
    LetterRoundTrip(Sextet(v, 3));
    PaddingIsNotSpace();
    assert b == if |b| == 1 then [b[0]] else if |b| == 2 then [b[0], b1] else [b[0], b1, b2];
  }

  lemma PaddingIsNotSpace()
    ensures !Space(EQUALS) && Negative(PAD) && PAD != MINUS_ONE && EQUALS != 0
  {
  }

  lemma {:induction false} DecodeEncodedFrom(b: seq<bv8>, out: seq<bv8>, cap: nat)
    requires |out| <= cap
    ensures DecodedFrom(Encoded(b), [], out, cap) == if |out + b| <= cap then Some(out + b) else None
  {
    hide Group, DecodeQuad, Symbol, Space;
    if b == [] {
      assert out + b == out;
    } else {
      var head, rest := if |b| <= 3 then b else b[..3], if |b| <= 3 then [] else b[3..];
      assert b == head + rest && out + head + rest == out + b;
      assert Encoded(b) == Group(head) + Encoded(rest) && Encoded(b)[4..] == Encoded(rest);
      GroupRoundTrip(head);
      ReadQuad(Encoded(b), out, cap);
      if |out + head| <= cap && rest != [] {
        DecodeEncodedFrom(rest, out + head, cap);
      }
    }
  }

  /** The helper's decoder undoes the daemon's encoder for every byte string that fits, and refuses the rest. */
  lemma RoundTrip(b: seq<bv8>, cap: nat)
    ensures Decoded(Encoded(b), cap) == if |b| <= cap then Some(b) else None
  {
    DecodeEncodedFrom(b, [], cap);
    assert [] + b == b;
  }

  function WithoutSpaces(s: seq<bv8>): seq<bv8> {
    if s == [] then [] else (if Space(s[0]) then [] else [s[0]]) + WithoutSpaces(s[1..])
  }

  /** Whitespace in the input never matters. */
  lemma {:induction false} SpacesAreIgnored(s: seq<bv8>, quad: seq<bv32>, out: seq<bv8>, cap: nat)
    requires |quad| < 4
    ensures DecodedFrom(WithoutSpaces(s), quad, out, cap) == DecodedFrom(s, quad, out, cap)
  {
    if s != [] && s[0] != 0 {
      var w := WithoutSpaces(s);
      if Space(s[0]) {
        assert w == WithoutSpaces(s[1..]);
        SpacesAreIgnored(s[1..], quad, out, cap);
      } else {
        assert w == [s[0]] + WithoutSpaces(s[1..]);
        var q := quad + [Symbol(s[0])];
        if |q| < 4 {
          SpacesAreIgnored(s[1..], q, out, cap);
        } else if DecodeQuad(q).More? {
          SpacesAreIgnored(s[1..], [], out + DecodeQuad(q).bytes, cap);
        }
      }
    }
  }

  // ---- The alphabet, the padding and the whitespace, character by character ----

  predicate IsByteOf(b: bv8, c: char) {
    b as int == c as int
  }

  /** The eight letters from value `v` on are the characters of `text`. */
  predicate Spells(v: bv32, text: string) {
    && v <= 56 && |text| == 8
    && IsByteOf(Letter(v), text[0]) && IsByteOf(Letter(v + 1), text[1])
    && IsByteOf(Letter(v + 2), text[2]) && IsByteOf(Letter(v + 3), text[3])
    && IsByteOf(Letter(v + 4), text[4]) && IsByteOf(Letter(v + 5), text[5])
    && IsByteOf(Letter(v + 6), text[6]) && IsByteOf(Letter(v + 7), text[7])
  }

  /** Table 1 of RFC 4648, in rows of eight. */
  lemma LettersAreTheAlphabet()
    ensures Spells(0, "ABCDEFGH") && Spells(8, "IJKLMNOP") && Spells(16, "QRSTUVWX")
    ensures Spells(24, "YZabcdef") && Spells(32, "ghijklmn") && Spells(40, "opqrstuv")
    ensures Spells(48, "wxyz0123") && Spells(56, "456789+/")
  {
    hide Spells;
    LettersFrom0();
    LettersFrom16();
    LettersFrom32();
    LettersFrom48();
  }

  lemma LettersFrom0()
    ensures Spells(0, "ABCDEFGH") && Spells(8, "IJKLMNOP")
  {
  }

  lemma LettersFrom16()
    ensures Spells(16, "QRSTUVWX") && Spells(24, "YZabcdef")
  {
  }

  lemma LettersFrom32()
    ensures Spells(32, "ghijklmn") && Spells(40, "opqrstuv")
  {
  }

  lemma LettersFrom48()
    ensures Spells(48, "wxyz0123") && Spells(56, "456789+/")
  {
  }

  /** The decoder knows exactly these letters. */
  lemma OnlyLettersHaveValues(c: bv8)
    ensures if B64Val(c) < 64 then Letter(B64Val(c)) == c else B64Val(c) == MINUS_ONE
  {
  }

  /** Four characters for every group of three bytes, a last group of one or two bytes included; the last two,
      one or none of them are `=`, by what the last group lacks, and no other character is. */
  lemma {:induction false} EncodedShape(b: seq<bv8>)
    ensures var e := Encoded(b);
            var pads := if |b| % 3 == 1 then 2 else if |b| % 3 == 2 then 1 else 0;
            && |e| == 4 * ((|b| + 2) / 3)
            && forall i | 0 <= i < |e| :: e[i] == 0x3D <==> i >= |e| - pads
  {
    hide Group;
    if b == [] {
    } else if |b| <= 3 {
      GroupPads(b);
    } else {
      GroupPads(b[..3]);
      EncodedShape(b[3..]);
      assert |b| % 3 == |b[3..]| % 3;
      assert Encoded(b) == Group(b[..3]) + Encoded(b[3..]);
    }
  }

  lemma GroupPads(b: seq<bv8>)
    requires 1 <= |b| <= 3
    ensures forall i | 0 <= i < 4 :: Group(b)[i] == 0x3D <==> i > |b|
  {
    hide Letter, Sextet, Pack;
    var v := Pack(b[0], if |b| > 1 then b[1] else 0, if |b| > 2 then b[2] else 0);
    LetterIsNoPad(Sextet(v, 0));
    LetterIsNoPad(Sextet(v, 1));
    LetterIsNoPad(Sextet(v, 2));
    LetterIsNoPad(Sextet(v, 3));
  }

  lemma LetterIsNoPad(v: bv32)
    requires v < 64
    ensures Letter(v) != 0x3D
  {
  }

  /** A tab, a line feed, a carriage return or a space may be inserted anywhere. */
  lemma WhitespaceMayBeInserted(a: seq<bv8>, c: bv8, b: seq<bv8>, cap: nat)
    requires c == 0x09 || c == 0x0A || c == 0x0D || c == 0x20
    ensures Decoded(a + [c] + b, cap) == Decoded(a + b, cap)
  {
    hide DecodedFrom;
    SpacesAreIgnored(a + [c] + b, [], [], cap);
    SpacesAreIgnored(a + b, [], [], cap);
    WithoutInserted(a, c, b);
  }

  lemma {:induction false} WithoutInserted(a: seq<bv8>, c: bv8, b: seq<bv8>)
    requires Space(c)
    ensures WithoutSpaces(a + [c] + b) == WithoutSpaces(a + b)
  {
    hide Space;
    if a == [] {
      assert a + [c] + b == [c] + b && a + b == b && ([c] + b)[1..] == b;
    } else {
      WithoutInserted(a[1..], c, b);
      assert (a + [c] + b)[1..] == a[1..] + [c] + b && (a + b)[1..] == a[1..] + b;
    }
  }

  // ---- What else the decoder accepts and refuses ----

  lemma QuadInverse(v0: bv32, v1: bv32, v2: bv32, v3: bv32)
    requires v0 < 64 && v1 < 64 && v2 < 64 && v3 < 64
    ensures var v := Pack(Byte0(v0, v1), Byte1(v1, v2), Byte2(v2, v3));
            Sextet(v, 0) == v0 && Sextet(v, 1) == v1 && Sextet(v, 2) == v2 && Sextet(v, 3) == v3
  {
  }

  predicate IsLetter(c: bv8) {
    B64Val(c) < 64
  }

  lemma LettersAreSymbols(c: bv8)
    requires IsLetter(c)
    ensures Letter(B64Val(c)) == c && Symbol(c) == B64Val(c) < 64 && !Negative(B64Val(c)) && c != 0 && !Space(c)
    ensures B64Val(c) != MINUS_ONE && B64Val(c) != PAD
  {
  }

  /** Three bytes from four letters, whose group they are. */
  function Triple(s: seq<bv8>): (b: seq<bv8>)
    requires |s| >= 4
    ensures |b| == 3
  {
    var q0, q1, q2, q3 := B64Val(s[0]), B64Val(s[1]), B64Val(s[2]), B64Val(s[3]);
    [Byte0(q0, q1), Byte1(q1, q2), Byte2(q2, q3)]
  }

  lemma TripleIsGroup(s: seq<bv8>)
    requires |s| >= 4 && forall i | 0 <= i < 4 :: IsLetter(s[i])
    ensures Group(Triple(s)) == s[..4]
  {
    hide Letter, B64Val, Sextet, Pack, Byte0, Byte1, Byte2, Space;
    LettersAreSymbols(s[0]);
    LettersAreSymbols(s[1]);
    LettersAreSymbols(s[2]);
    LettersAreSymbols(s[3]);
    QuadInverse(B64Val(s[0]), B64Val(s[1]), B64Val(s[2]), B64Val(s[3]));
  }

  /** One quartet of letters. */
  lemma ReadLetters(s: seq<bv8>, out: seq<bv8>, cap: nat)
    requires |s| >= 4 && forall i | 0 <= i < 4 :: IsLetter(s[i])
    ensures DecodedFrom(s, [], out, cap)
         == if |out| + 3 > cap then None else DecodedFrom(s[4..], [], out + Triple(s), cap)
  {
    hide Letter, B64Val, Byte0, Byte1, Byte2, Space, Symbol, IsLetter;
    LettersAreSymbols(s[0]);
    LettersAreSymbols(s[1]);
    LettersAreSymbols(s[2]);
    LettersAreSymbols(s[3]);
    ReadQuad(s, out, cap);
    hide DecodedFrom;
  }

  /** A quartet that is begun but not finished. */
  lemma {:induction false} UnfinishedQuartet(s: seq<bv8>, quad: seq<bv32>, out: seq<bv8>, cap: nat)
    requires 1 <= |quad| + |s| <= 3 && forall i | 0 <= i < |s| :: IsLetter(s[i])
    ensures DecodedFrom(s, quad, out, cap) == None
  {
    hide Letter, B64Val, Space, Symbol, IsLetter;
    if s == [] {
    } else {
      LettersAreSymbols(s[0]);
      UnfinishedQuartet(s[1..], quad + [Symbol(s[0])], out, cap);
    }
  }

  /** The message in a text of letters. */
  function Message(s: seq<bv8>): (b: seq<bv8>)
    ensures |b| == 3 * (|s| / 4)
  {
    if |s| < 4 then [] else Triple(s) + Message(s[4..])
  }

  /** Text of letters only, without padding: it must come in fours and fit, and then it is the encoding of the
      message, so every letter counts. */
  lemma {:induction false} LettersDecodeExactly(s: seq<bv8>, out: seq<bv8>, cap: nat)
    requires (forall i | 0 <= i < |s| :: IsLetter(s[i])) && |out| <= cap
    ensures DecodedFrom(s, [], out, cap)
         == if |s| % 4 == 0 && |out| + |Message(s)| <= cap then Some(out + Message(s)) else None
    ensures |s| % 4 == 0 ==> Encoded(Message(s)) == s
  {
    hide IsLetter, Triple, Group;
    if s == [] {
      assert out + [] == out;
    } else if |s| < 4 {
      UnfinishedQuartet(s, [], out, cap);
    } else {
      ReadLetters(s, out, cap);
      TripleIsGroup(s);
      assert |s| % 4 == |s[4..]| % 4;
      assert s == s[..4] + s[4..];
      hide DecodedFrom;
      var m := out + Triple(s);
      if |m| <= cap {
        LettersDecodeExactly(s[4..], m, cap);
        assert m + Message(s[4..]) == out + Message(s);
      } else {
        LettersDecodeExactly(s[4..], [], |s|);
      }
      EncodedOneMore(Triple(s), Message(s[4..]));
    }
  }

  lemma EncodedOneMore(a: seq<bv8>, b: seq<bv8>)
    requires |a| == 3
    ensures Encoded(a + b) == Group(a) + Encoded(b)
  {
    hide Group;
    if b == [] {
      assert a + b == a;
    } else {
      assert (a + b)[..3] == a && (a + b)[3..] == b;
    }
  }

  /** Anything else than letters, padding, whitespace and the terminator is refused, wherever it comes. */
  lemma {:induction false} StrangerIsRefused(a: seq<bv8>, c: bv8, b: seq<bv8>, quad: seq<bv32>, out: seq<bv8>, cap: nat)
    requires |quad| < 4 && forall i | 0 <= i < |a| :: IsLetter(a[i])
    requires forall i | 0 <= i < |quad| :: quad[i] < 64
    requires !IsLetter(c) && c != 0x3D && c != 0 && c != 0x09 && c != 0x0A && c != 0x0D && c != 0x20
    ensures DecodedFrom(a + [c] + b, quad, out, cap) == None
    decreases |a|
  {
    var s := a + [c] + b;
    if a == [] {
      ValuesAreLettersOrMinusOne(c);
      assert s[0] == c;
    } else {
      LettersAreSymbols(a[0]);
      assert s[0] == a[0] && s[1..] == a[1..] + [c] + b;
      hide Letter, B64Val, Space, Symbol, IsLetter;
      var q := quad + [Symbol(s[0])];
      if |q| < 4 {
        StrangerIsRefused(a[1..], c, b, q, out, cap);
      } else if DecodeQuad(q).More? {
        StrangerIsRefused(a[1..], c, b, [], out + DecodeQuad(q).bytes, cap);
      } else {
        LettersGiveMore(q);
      }
    }
  }

  lemma LettersGiveMore(q: seq<bv32>)
    requires |q| == 4 && forall i | 0 <= i < 4 :: q[i] < 64
    ensures DecodeQuad(q).More?
  {
    assert q[0] < 64 && q[1] < 64 && q[2] < 64 && q[3] < 64;
  }

  /** From the test vectors in section 10 of RFC 4648: "f", "fo" and "foo". */
  lemma KnownEncodings()
    ensures Encoded([0x66]) == [0x5A, 0x67, 0x3D, 0x3D]
    ensures Encoded([0x66, 0x6F]) == [0x5A, 0x6D, 0x38, 0x3D]
    ensures Encoded([0x66, 0x6F, 0x6F]) == [0x5A, 0x6D, 0x39, 0x76]
  {
  }
}
