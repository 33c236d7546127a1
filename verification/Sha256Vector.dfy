/**
  The known answer for the text "abc", worked through as in the example that accompanies FIPS 180-4: the message
  schedule, the 64 rounds and the digest.
 */
module Sha256Vector {
  import opened Sha256

  const ABC: seq<bv8> := [0x61, 0x62, 0x63]

  /** The one block of the padded text: "abc", the marker, zeros, and the length of 24 bits. */
  ghost predicate IsAbcBlock(block: Block) {
    && block[0] == 0x61 && block[1] == 0x62 && block[2] == 0x63 && block[3] == 0x80 && block[63] == 0x18
    && forall k | 4 <= k < 63 :: block[k] == 0
  }

  lemma AbcPadded()
    ensures |Padded(ABC)| == 64 && IsAbcBlock(Padded(ABC))
  {
    var l := LengthBytes(BitLength(3));
    AbcLength();
    hide LengthBytes, BitLength;
    assert |ABC| == 3 && PadZeros(3) == 52;
    PaddedIsBlock(l);
  }

  lemma PaddedIsBlock(l: seq<bv8>)
    requires |l| == 8 && l[7] == 0x18 && forall k | 0 <= k < 7 :: l[k] == 0
    ensures var p := ABC + [0x80] + Zeros(52) + l; |p| == 64 && IsAbcBlock(p)
  {
    var head, p := ABC + [0x80], ABC + [0x80] + Zeros(52) + l;
    assert head[0] == 0x61 && head[1] == 0x62 && head[2] == 0x63 && head[3] == 0x80;
    forall k | 4 <= k < 63
      ensures p[k] == 0
    {
      assert p[k] == if k < 56 then Zeros(52)[k - 4] else l[k - 56];
    }
  }

  lemma AbcLength()
    ensures var l := LengthBytes(BitLength(3));
            l[7] == 0x18 && forall k | 0 <= k < 7 :: l[k] == 0
  {
    assert BitLength(3) == 24;
    assert LengthByte(24, 1) == LengthByte(24, 2) == LengthByte(24, 3) == LengthByte(24, 4) == 0;
    assert LengthByte(24, 5) == LengthByte(24, 6) == LengthByte(24, 7) == 0;
  }

  // ---- The message schedule ----

  lemma AbcWords0(block: Block)
    requires IsAbcBlock(block)
    ensures Schedule(block, 0) == 0x61626380 && Schedule(block, 15) == 0x00000018
    ensures forall t | 1 <= t < 15 :: Schedule(block, t) == 0
  {
    assert Word(0x61, 0x62, 0x63, 0x80) == 0x61626380 && Word(0, 0, 0, 0x18) == 0x18 && Word(0, 0, 0, 0) == 0;
  }

  lemma AbcWords16(block: Block)
    requires IsAbcBlock(block)
    ensures Schedule(block, 16) == 0x61626380 && Schedule(block, 17) == 0x000f0000
    ensures Schedule(block, 18) == 0x7da86405 && Schedule(block, 19) == 0x600003c6
  {
    hide Schedule, IsAbcBlock;
    AbcWords0(block);
    ScheduleStep(block, 16);
    ScheduleStep(block, 17);
    ScheduleStep(block, 18);
    ScheduleStep(block, 19);
  }

  lemma AbcWords20(block: Block)
    requires IsAbcBlock(block)
    ensures Schedule(block, 20) == 0x3e9d7b78 && Schedule(block, 21) == 0x0183fc00
    ensures Schedule(block, 22) == 0x12dcbfdb && Schedule(block, 23) == 0xe2e2c38e
  {
    hide Schedule, IsAbcBlock;
    AbcWords0(block);
    AbcWords16(block);
    ScheduleStep(block, 20);
    ScheduleStep(block, 21);
    ScheduleStep(block, 22);
    ScheduleStep(block, 23);
  }

  lemma AbcWords24(block: Block)
    requires IsAbcBlock(block)
    ensures Schedule(block, 24) == 0xc8215c1a && Schedule(block, 25) == 0xb73679a2
    ensures Schedule(block, 26) == 0xe5bc3909 && Schedule(block, 27) == 0x32663c5b
  {
    hide Schedule, IsAbcBlock;
    AbcWords0(block);
    AbcWords16(block);
    AbcWords20(block);
    ScheduleStep(block, 24);
    ScheduleStep(block, 25);
    ScheduleStep(block, 26);
    ScheduleStep(block, 27);
  }

  lemma AbcWords28(block: Block)
    requires IsAbcBlock(block)
    ensures Schedule(block, 28) == 0x9d209d67 && Schedule(block, 29) == 0xec8726cb
    ensures Schedule(block, 30) == 0x702138a4 && Schedule(block, 31) == 0xd3b7973b
  {
    hide Schedule, IsAbcBlock;
    AbcWords0(block);
    AbcWords16(block);
    AbcWords20(block);
    AbcWords24(block);
    ScheduleStep(block, 28);
    ScheduleStep(block, 29);
    ScheduleStep(block, 30);
    ScheduleStep(block, 31);
  }

  lemma AbcWords32(block: Block)
    requires IsAbcBlock(block)
    ensures Schedule(block, 32) == 0x93f5997f && Schedule(block, 33) == 0x3b68ba73
    ensures Schedule(block, 34) == 0xaff4ffc1 && Schedule(block, 35) == 0xf10a5c62
  {
    hide Schedule, IsAbcBlock;
    AbcWords16(block);
    AbcWords20(block);
    AbcWords24(block);
    AbcWords28(block);
    ScheduleStep(block, 32);
    ScheduleStep(block, 33);
    ScheduleStep(block, 34);
    ScheduleStep(block, 35);
  }

  lemma AbcWords36(block: Block)
    requires IsAbcBlock(block)
    ensures Schedule(block, 36) == 0x0a8b3996 && Schedule(block, 37) == 0x72af830a
    ensures Schedule(block, 38) == 0x9409e33e && Schedule(block, 39) == 0x24641522
  {
    hide Schedule, IsAbcBlock;
    AbcWords20(block);
    AbcWords24(block);
    AbcWords28(block);
    AbcWords32(block);
    ScheduleStep(block, 36);
    ScheduleStep(block, 37);
    ScheduleStep(block, 38);
    ScheduleStep(block, 39);
  }

  lemma AbcWords40(block: Block)
    requires IsAbcBlock(block)
    ensures Schedule(block, 40) == 0x9f47bf94 && Schedule(block, 41) == 0xf0a64f5a
    ensures Schedule(block, 42) == 0x3e246a79 && Schedule(block, 43) == 0x27333ba3
  {
    hide Schedule, IsAbcBlock;
    AbcWords24(block);
    AbcWords28(block);
    AbcWords32(block);
    AbcWords36(block);
    ScheduleStep(block, 40);
    ScheduleStep(block, 41);
    ScheduleStep(block, 42);
    ScheduleStep(block, 43);
  }

  lemma AbcWords44(block: Block)
    requires IsAbcBlock(block)
    ensures Schedule(block, 44) == 0x0c4763f2 && Schedule(block, 45) == 0x840abf27
    ensures Schedule(block, 46) == 0x7a290d5d && Schedule(block, 47) == 0x065c43da
  {
    hide Schedule, IsAbcBlock;
    AbcWords28(block);
    AbcWords32(block);
    AbcWords36(block);
    AbcWords40(block);
    ScheduleStep(block, 44);
    ScheduleStep(block, 45);
    ScheduleStep(block, 46);
    ScheduleStep(block, 47);
  }

  lemma AbcWords48(block: Block)
    requires IsAbcBlock(block)
    ensures Schedule(block, 48) == 0xfb3e89cb && Schedule(block, 49) == 0xcc7617db
    ensures Schedule(block, 50) == 0xb9e66c34 && Schedule(block, 51) == 0xa9993667
  {
    hide Schedule, IsAbcBlock;
    AbcWords32(block);
    AbcWords36(block);
    AbcWords40(block);
    AbcWords44(block);
    ScheduleStep(block, 48);
    ScheduleStep(block, 49);
    ScheduleStep(block, 50);
    ScheduleStep(block, 51);
  }

  lemma AbcWords52(block: Block)
    requires IsAbcBlock(block)
    ensures Schedule(block, 52) == 0x84badedd && Schedule(block, 53) == 0xc21462bc
    ensures Schedule(block, 54) == 0x1487472c && Schedule(block, 55) == 0xb20f7a99
  {
    hide Schedule, IsAbcBlock;
    AbcWords36(block);
    AbcWords40(block);
    AbcWords44(block);
    AbcWords48(block);
    ScheduleStep(block, 52);
    ScheduleStep(block, 53);
    ScheduleStep(block, 54);
    ScheduleStep(block, 55);
  }

  lemma AbcWords56(block: Block)
    requires IsAbcBlock(block)
    ensures Schedule(block, 56) == 0xef57b9cd && Schedule(block, 57) == 0xebe6b238
    ensures Schedule(block, 58) == 0x9fe3095e && Schedule(block, 59) == 0x78bc8d4b
  {
    hide Schedule, IsAbcBlock;
    AbcWords40(block);
    AbcWords44(block);
    AbcWords48(block);
    AbcWords52(block);
    ScheduleStep(block, 56);
    ScheduleStep(block, 57);
    ScheduleStep(block, 58);
    ScheduleStep(block, 59);
  }

  lemma AbcWords60(block: Block)
    requires IsAbcBlock(block)
    ensures Schedule(block, 60) == 0xa43fcf15 && Schedule(block, 61) == 0x668b2ff8
    ensures Schedule(block, 62) == 0xeeaba2cc && Schedule(block, 63) == 0x12b1edeb
  {
    hide Schedule, IsAbcBlock;
    AbcWords44(block);
    AbcWords48(block);
    AbcWords52(block);
    AbcWords56(block);
    ScheduleStep(block, 60);
    ScheduleStep(block, 61);
    ScheduleStep(block, 62);
    ScheduleStep(block, 63);
  }

  // ---- The rounds ----

  const S0 := Hash(0x6a09e667, 0xbb67ae85, 0x3c6ef372, 0xa54ff53a, 0x510e527f, 0x9b05688c, 0x1f83d9ab, 0x5be0cd19)
  const S1 := Hash(0x5d6aebcd, 0x6a09e667, 0xbb67ae85, 0x3c6ef372, 0xfa2a4622, 0x510e527f, 0x9b05688c, 0x1f83d9ab)
  const S2 := Hash(0x5a6ad9ad, 0x5d6aebcd, 0x6a09e667, 0xbb67ae85, 0x78ce7989, 0xfa2a4622, 0x510e527f, 0x9b05688c)
  const S3 := Hash(0xc8c347a7, 0x5a6ad9ad, 0x5d6aebcd, 0x6a09e667, 0xf92939eb, 0x78ce7989, 0xfa2a4622, 0x510e527f)
  const S4 := Hash(0xd550f666, 0xc8c347a7, 0x5a6ad9ad, 0x5d6aebcd, 0x24e00850, 0xf92939eb, 0x78ce7989, 0xfa2a4622)
  const S5 := Hash(0x04409a6a, 0xd550f666, 0xc8c347a7, 0x5a6ad9ad, 0x43ada245, 0x24e00850, 0xf92939eb, 0x78ce7989)
  const S6 := Hash(0x2b4209f5, 0x04409a6a, 0xd550f666, 0xc8c347a7, 0x714260ad, 0x43ada245, 0x24e00850, 0xf92939eb)
  const S7 := Hash(0xe5030380, 0x2b4209f5, 0x04409a6a, 0xd550f666, 0x9b27a401, 0x714260ad, 0x43ada245, 0x24e00850)
  const S8 := Hash(0x85a07b5f, 0xe5030380, 0x2b4209f5, 0x04409a6a, 0x0c657a79, 0x9b27a401, 0x714260ad, 0x43ada245)
  const S9 := Hash(0x8e04ecb9, 0x85a07b5f, 0xe5030380, 0x2b4209f5, 0x32ca2d8c, 0x0c657a79, 0x9b27a401, 0x714260ad)
  const S10 := Hash(0x8c87346b, 0x8e04ecb9, 0x85a07b5f, 0xe5030380, 0x1cc92596, 0x32ca2d8c, 0x0c657a79, 0x9b27a401)
  const S11 := Hash(0x4798a3f4, 0x8c87346b, 0x8e04ecb9, 0x85a07b5f, 0x436b23e8, 0x1cc92596, 0x32ca2d8c, 0x0c657a79)
  const S12 := Hash(0xf71fc5a9, 0x4798a3f4, 0x8c87346b, 0x8e04ecb9, 0x816fd6e9, 0x436b23e8, 0x1cc92596, 0x32ca2d8c)
  const S13 := Hash(0x87912990, 0xf71fc5a9, 0x4798a3f4, 0x8c87346b, 0x1e578218, 0x816fd6e9, 0x436b23e8, 0x1cc92596)
  const S14 := Hash(0xd932eb16, 0x87912990, 0xf71fc5a9, 0x4798a3f4, 0x745a48de, 0x1e578218, 0x816fd6e9, 0x436b23e8)
  const S15 := Hash(0xc0645fde, 0xd932eb16, 0x87912990, 0xf71fc5a9, 0x0b92f20c, 0x745a48de, 0x1e578218, 0x816fd6e9)
  const S16 := Hash(0xb0fa238e, 0xc0645fde, 0xd932eb16, 0x87912990, 0x07590dcd, 0x0b92f20c, 0x745a48de, 0x1e578218)
  const S17 := Hash(0x21da9a9b, 0xb0fa238e, 0xc0645fde, 0xd932eb16, 0x8034229c, 0x07590dcd, 0x0b92f20c, 0x745a48de)
  const S18 := Hash(0xc2fbd9d1, 0x21da9a9b, 0xb0fa238e, 0xc0645fde, 0x846ee454, 0x8034229c, 0x07590dcd, 0x0b92f20c)
  const S19 := Hash(0xfe777bbf, 0xc2fbd9d1, 0x21da9a9b, 0xb0fa238e, 0xcc899961, 0x846ee454, 0x8034229c, 0x07590dcd)
  const S20 := Hash(0xe1f20c33, 0xfe777bbf, 0xc2fbd9d1, 0x21da9a9b, 0xb0638179, 0xcc899961, 0x846ee454, 0x8034229c)
  const S21 := Hash(0x9dc68b63, 0xe1f20c33, 0xfe777bbf, 0xc2fbd9d1, 0x8ada8930, 0xb0638179, 0xcc899961, 0x846ee454)
  const S22 := Hash(0xc2606d6d, 0x9dc68b63, 0xe1f20c33, 0xfe777bbf, 0xe1257970, 0x8ada8930, 0xb0638179, 0xcc899961)
  const S23 := Hash(0xa7a3623f, 0xc2606d6d, 0x9dc68b63, 0xe1f20c33, 0x49f5114a, 0xe1257970, 0x8ada8930, 0xb0638179)
  const S24 := Hash(0xc5d53d8d, 0xa7a3623f, 0xc2606d6d, 0x9dc68b63, 0xaa47c347, 0x49f5114a, 0xe1257970, 0x8ada8930)
  const S25 := Hash(0x1c2c2838, 0xc5d53d8d, 0xa7a3623f, 0xc2606d6d, 0x2823ef91, 0xaa47c347, 0x49f5114a, 0xe1257970)
  const S26 := Hash(0xcde8037d, 0x1c2c2838, 0xc5d53d8d, 0xa7a3623f, 0x14383d8e, 0x2823ef91, 0xaa47c347, 0x49f5114a)
  const S27 := Hash(0xb62ec4bc, 0xcde8037d, 0x1c2c2838, 0xc5d53d8d, 0xc74c6516, 0x14383d8e, 0x2823ef91, 0xaa47c347)
  const S28 := Hash(0x77d37528, 0xb62ec4bc, 0xcde8037d, 0x1c2c2838, 0xedffbff8, 0xc74c6516, 0x14383d8e, 0x2823ef91)
  const S29 := Hash(0x363482c9, 0x77d37528, 0xb62ec4bc, 0xcde8037d, 0x6112a3b7, 0xedffbff8, 0xc74c6516, 0x14383d8e)
  const S30 := Hash(0xa0060b30, 0x363482c9, 0x77d37528, 0xb62ec4bc, 0xade79437, 0x6112a3b7, 0xedffbff8, 0xc74c6516)
  const S31 := Hash(0xea992a22, 0xa0060b30, 0x363482c9, 0x77d37528, 0x0109ab3a, 0xade79437, 0x6112a3b7, 0xedffbff8)
  const S32 := Hash(0x73b33bf5, 0xea992a22, 0xa0060b30, 0x363482c9, 0xba591112, 0x0109ab3a, 0xade79437, 0x6112a3b7)
  const S33 := Hash(0x98e12507, 0x73b33bf5, 0xea992a22, 0xa0060b30, 0x9cd9f5f6, 0xba591112, 0x0109ab3a, 0xade79437)
  const S34 := Hash(0xfe604df5, 0x98e12507, 0x73b33bf5, 0xea992a22, 0x59249dd3, 0x9cd9f5f6, 0xba591112, 0x0109ab3a)
  const S35 := Hash(0xa9a7738c, 0xfe604df5, 0x98e12507, 0x73b33bf5, 0x085f3833, 0x59249dd3, 0x9cd9f5f6, 0xba591112)
  const S36 := Hash(0x65a0cfe4, 0xa9a7738c, 0xfe604df5, 0x98e12507, 0xf4b002d6, 0x085f3833, 0x59249dd3, 0x9cd9f5f6)
  const S37 := Hash(0x41a65cb1, 0x65a0cfe4, 0xa9a7738c, 0xfe604df5, 0x0772a26b, 0xf4b002d6, 0x085f3833, 0x59249dd3)
  const S38 := Hash(0x34df1604, 0x41a65cb1, 0x65a0cfe4, 0xa9a7738c, 0xa507a53d, 0x0772a26b, 0xf4b002d6, 0x085f3833)
  const S39 := Hash(0x6dc57a8a, 0x34df1604, 0x41a65cb1, 0x65a0cfe4, 0xf0781bc8, 0xa507a53d, 0x0772a26b, 0xf4b002d6)
  const S40 := Hash(0x79ea687a, 0x6dc57a8a, 0x34df1604, 0x41a65cb1, 0x1efbc0a0, 0xf0781bc8, 0xa507a53d, 0x0772a26b)
  const S41 := Hash(0xd6670766, 0x79ea687a, 0x6dc57a8a, 0x34df1604, 0x26352d63, 0x1efbc0a0, 0xf0781bc8, 0xa507a53d)
  const S42 := Hash(0xdf46652f, 0xd6670766, 0x79ea687a, 0x6dc57a8a, 0x838b2711, 0x26352d63, 0x1efbc0a0, 0xf0781bc8)
  const S43 := Hash(0x17aa0dfe, 0xdf46652f, 0xd6670766, 0x79ea687a, 0xdecd4715, 0x838b2711, 0x26352d63, 0x1efbc0a0)
  const S44 := Hash(0x9d4baf93, 0x17aa0dfe, 0xdf46652f, 0xd6670766, 0xfda24c2e, 0xdecd4715, 0x838b2711, 0x26352d63)
  const S45 := Hash(0x26628815, 0x9d4baf93, 0x17aa0dfe, 0xdf46652f, 0xa80f11f0, 0xfda24c2e, 0xdecd4715, 0x838b2711)
  const S46 := Hash(0x72ab4b91, 0x26628815, 0x9d4baf93, 0x17aa0dfe, 0xb7755da1, 0xa80f11f0, 0xfda24c2e, 0xdecd4715)
  const S47 := Hash(0xa14c14b0, 0x72ab4b91, 0x26628815, 0x9d4baf93, 0xd57b94a9, 0xb7755da1, 0xa80f11f0, 0xfda24c2e)
  const S48 := Hash(0x4172328d, 0xa14c14b0, 0x72ab4b91, 0x26628815, 0xfecf0bc6, 0xd57b94a9, 0xb7755da1, 0xa80f11f0)
  const S49 := Hash(0x05757ceb, 0x4172328d, 0xa14c14b0, 0x72ab4b91, 0xbd714038, 0xfecf0bc6, 0xd57b94a9, 0xb7755da1)
  const S50 := Hash(0xf11bfaa8, 0x05757ceb, 0x4172328d, 0xa14c14b0, 0x6e5c390c, 0xbd714038, 0xfecf0bc6, 0xd57b94a9)
  const S51 := Hash(0x7a0508a1, 0xf11bfaa8, 0x05757ceb, 0x4172328d, 0x52f1ccf7, 0x6e5c390c, 0xbd714038, 0xfecf0bc6)
  const S52 := Hash(0x886e7a22, 0x7a0508a1, 0xf11bfaa8, 0x05757ceb, 0x49231c1e, 0x52f1ccf7, 0x6e5c390c, 0xbd714038)
  const S53 := Hash(0x101fd28f, 0x886e7a22, 0x7a0508a1, 0xf11bfaa8, 0x529e7d00, 0x49231c1e, 0x52f1ccf7, 0x6e5c390c)
  const S54 := Hash(0xf5702fdb, 0x101fd28f, 0x886e7a22, 0x7a0508a1, 0x9f4787c3, 0x529e7d00, 0x49231c1e, 0x52f1ccf7)
  const S55 := Hash(0x3ec45cdb, 0xf5702fdb, 0x101fd28f, 0x886e7a22, 0xe50e1b4f, 0x9f4787c3, 0x529e7d00, 0x49231c1e)
  const S56 := Hash(0x38cc9913, 0x3ec45cdb, 0xf5702fdb, 0x101fd28f, 0x54cb266b, 0xe50e1b4f, 0x9f4787c3, 0x529e7d00)
  const S57 := Hash(0xfcd1887b, 0x38cc9913, 0x3ec45cdb, 0xf5702fdb, 0x9b5e906c, 0x54cb266b, 0xe50e1b4f, 0x9f4787c3)
  const S58 := Hash(0xc062d46f, 0xfcd1887b, 0x38cc9913, 0x3ec45cdb, 0x7e44008e, 0x9b5e906c, 0x54cb266b, 0xe50e1b4f)
  const S59 := Hash(0xffb70472, 0xc062d46f, 0xfcd1887b, 0x38cc9913, 0x6d83bfc6, 0x7e44008e, 0x9b5e906c, 0x54cb266b)
  const S60 := Hash(0xb6ae8fff, 0xffb70472, 0xc062d46f, 0xfcd1887b, 0xb21bad3d, 0x6d83bfc6, 0x7e44008e, 0x9b5e906c)
  const S61 := Hash(0xb85e2ce9, 0xb6ae8fff, 0xffb70472, 0xc062d46f, 0x961f4894, 0xb21bad3d, 0x6d83bfc6, 0x7e44008e)
  const S62 := Hash(0x04d24d6c, 0xb85e2ce9, 0xb6ae8fff, 0xffb70472, 0x948d25b6, 0x961f4894, 0xb21bad3d, 0x6d83bfc6)
  const S63 := Hash(0xd39a2165, 0x04d24d6c, 0xb85e2ce9, 0xb6ae8fff, 0xfb121210, 0x948d25b6, 0x961f4894, 0xb21bad3d)
  const S64 := Hash(0x506e3058, 0xd39a2165, 0x04d24d6c, 0xb85e2ce9, 0x5ef50f24, 0xfb121210, 0x948d25b6, 0x961f4894)

  /** One round from `v` with the t-th constant and the word `w` gives `next`. */
  ghost predicate Leads(v: Hash, t: nat, w: bv32, next: Hash)
    requires t < 64
  {
    next == Round(v, KAt(t), w)
  }

  lemma AbcSteps0()
    ensures Leads(S0, 0, 0x61626380, S1)
    ensures Leads(S1, 1, 0x00000000, S2)
    ensures Leads(S2, 2, 0x00000000, S3)
    ensures Leads(S3, 3, 0x00000000, S4)
  {
  }

  lemma AbcSteps4()
    ensures Leads(S4, 4, 0x00000000, S5)
    ensures Leads(S5, 5, 0x00000000, S6)
    ensures Leads(S6, 6, 0x00000000, S7)
    ensures Leads(S7, 7, 0x00000000, S8)
  {
  }

  lemma AbcSteps8()
    ensures Leads(S8, 8, 0x00000000, S9)
    ensures Leads(S9, 9, 0x00000000, S10)
    ensures Leads(S10, 10, 0x00000000, S11)
    ensures Leads(S11, 11, 0x00000000, S12)
  {
  }

  lemma AbcSteps12()
    ensures Leads(S12, 12, 0x00000000, S13)
    ensures Leads(S13, 13, 0x00000000, S14)
    ensures Leads(S14, 14, 0x00000000, S15)
    ensures Leads(S15, 15, 0x00000018, S16)
  {
  }

  lemma AbcSteps16()
    ensures Leads(S16, 16, 0x61626380, S17)
    ensures Leads(S17, 17, 0x000f0000, S18)
    ensures Leads(S18, 18, 0x7da86405, S19)
    ensures Leads(S19, 19, 0x600003c6, S20)
  {
  }

  lemma AbcSteps20()
    ensures Leads(S20, 20, 0x3e9d7b78, S21)
    ensures Leads(S21, 21, 0x0183fc00, S22)
    ensures Leads(S22, 22, 0x12dcbfdb, S23)
    ensures Leads(S23, 23, 0xe2e2c38e, S24)
  {
  }

  lemma AbcSteps24()
    ensures Leads(S24, 24, 0xc8215c1a, S25)
    ensures Leads(S25, 25, 0xb73679a2, S26)
    ensures Leads(S26, 26, 0xe5bc3909, S27)
    ensures Leads(S27, 27, 0x32663c5b, S28)
  {
  }

  lemma AbcSteps28()
    ensures Leads(S28, 28, 0x9d209d67, S29)
    ensures Leads(S29, 29, 0xec8726cb, S30)
    ensures Leads(S30, 30, 0x702138a4, S31)
    ensures Leads(S31, 31, 0xd3b7973b, S32)
  {
  }

  lemma AbcSteps32()
    ensures Leads(S32, 32, 0x93f5997f, S33)
    ensures Leads(S33, 33, 0x3b68ba73, S34)
    ensures Leads(S34, 34, 0xaff4ffc1, S35)
    ensures Leads(S35, 35, 0xf10a5c62, S36)
  {
  }

  lemma AbcSteps36()
    ensures Leads(S36, 36, 0x0a8b3996, S37)
    ensures Leads(S37, 37, 0x72af830a, S38)
    ensures Leads(S38, 38, 0x9409e33e, S39)
    ensures Leads(S39, 39, 0x24641522, S40)
  {
  }

  lemma AbcSteps40()
    ensures Leads(S40, 40, 0x9f47bf94, S41)
    ensures Leads(S41, 41, 0xf0a64f5a, S42)
    ensures Leads(S42, 42, 0x3e246a79, S43)
    ensures Leads(S43, 43, 0x27333ba3, S44)
  {
  }

  lemma AbcSteps44()
    ensures Leads(S44, 44, 0x0c4763f2, S45)
    ensures Leads(S45, 45, 0x840abf27, S46)
    ensures Leads(S46, 46, 0x7a290d5d, S47)
    ensures Leads(S47, 47, 0x065c43da, S48)
  {
  }

  lemma AbcSteps48()
    ensures Leads(S48, 48, 0xfb3e89cb, S49)
    ensures Leads(S49, 49, 0xcc7617db, S50)
    ensures Leads(S50, 50, 0xb9e66c34, S51)
    ensures Leads(S51, 51, 0xa9993667, S52)
  {
  }

  lemma AbcSteps52()
    ensures Leads(S52, 52, 0x84badedd, S53)
    ensures Leads(S53, 53, 0xc21462bc, S54)
    ensures Leads(S54, 54, 0x1487472c, S55)
    ensures Leads(S55, 55, 0xb20f7a99, S56)
  {
  }

  lemma AbcSteps56()
    ensures Leads(S56, 56, 0xef57b9cd, S57)
    ensures Leads(S57, 57, 0xebe6b238, S58)
    ensures Leads(S58, 58, 0x9fe3095e, S59)
    ensures Leads(S59, 59, 0x78bc8d4b, S60)
  {
  }

  lemma AbcSteps60()
    ensures Leads(S60, 60, 0xa43fcf15, S61)
    ensures Leads(S61, 61, 0x668b2ff8, S62)
    ensures Leads(S62, 62, 0xeeaba2cc, S63)
    ensures Leads(S63, 63, 0x12b1edeb, S64)
  {
  }

  lemma AbcRounds0(block: Block)
    requires IsAbcBlock(block)
    ensures Rounds(H0, block, 8) == S8
  {
    hide Rounds, Schedule, IsAbcBlock, Round, KAt;
    AbcWords0(block);
    NoRounds(H0, block);
    AbcSteps0();
    AbcSteps4();
    OneRound(H0, block, 0);
    OneRound(H0, block, 1);
    OneRound(H0, block, 2);
    OneRound(H0, block, 3);
    OneRound(H0, block, 4);
    OneRound(H0, block, 5);
    OneRound(H0, block, 6);
    OneRound(H0, block, 7);
  }

  lemma AbcRounds1(block: Block)
    requires IsAbcBlock(block)
    ensures Rounds(H0, block, 16) == S16
  {
    hide Rounds, Schedule, IsAbcBlock, Round, KAt;
    AbcWords0(block);
    AbcRounds0(block);
    AbcSteps8();
    AbcSteps12();
    OneRound(H0, block, 8);
    OneRound(H0, block, 9);
    OneRound(H0, block, 10);
    OneRound(H0, block, 11);
    OneRound(H0, block, 12);
    OneRound(H0, block, 13);
    OneRound(H0, block, 14);
    OneRound(H0, block, 15);
  }

  lemma AbcRounds2(block: Block)
    requires IsAbcBlock(block)
    ensures Rounds(H0, block, 24) == S24
  {
    hide Rounds, Schedule, IsAbcBlock, Round, KAt;
    AbcWords16(block);
    AbcWords20(block);
    AbcRounds1(block);
    AbcSteps16();
    AbcSteps20();
    OneRound(H0, block, 16);
    OneRound(H0, block, 17);
    OneRound(H0, block, 18);
    OneRound(H0, block, 19);
    OneRound(H0, block, 20);
    OneRound(H0, block, 21);
    OneRound(H0, block, 22);
    OneRound(H0, block, 23);
  }

  lemma AbcRounds3(block: Block)
    requires IsAbcBlock(block)
    ensures Rounds(H0, block, 32) == S32
  {
    hide Rounds, Schedule, IsAbcBlock, Round, KAt;
    AbcWords24(block);
    AbcWords28(block);
    AbcRounds2(block);
    AbcSteps24();
    AbcSteps28();
    OneRound(H0, block, 24);
    OneRound(H0, block, 25);
    OneRound(H0, block, 26);
    OneRound(H0, block, 27);
    OneRound(H0, block, 28);
    OneRound(H0, block, 29);
    OneRound(H0, block, 30);
    OneRound(H0, block, 31);
  }

  lemma AbcRounds4(block: Block)
    requires IsAbcBlock(block)
    ensures Rounds(H0, block, 40) == S40
  {
    hide Rounds, Schedule, IsAbcBlock, Round, KAt;
    AbcWords32(block);
    AbcWords36(block);
    AbcRounds3(block);
    AbcSteps32();
    AbcSteps36();
    OneRound(H0, block, 32);
    OneRound(H0, block, 33);
    OneRound(H0, block, 34);
    OneRound(H0, block, 35);
    OneRound(H0, block, 36);
    OneRound(H0, block, 37);
    OneRound(H0, block, 38);
    OneRound(H0, block, 39);
  }

  lemma AbcRounds5(block: Block)
    requires IsAbcBlock(block)
    ensures Rounds(H0, block, 48) == S48
  {
    hide Rounds, Schedule, IsAbcBlock, Round, KAt;
    AbcWords40(block);
    AbcWords44(block);
    AbcRounds4(block);
    AbcSteps40();
    AbcSteps44();
    OneRound(H0, block, 40);
    OneRound(H0, block, 41);
    OneRound(H0, block, 42);
    OneRound(H0, block, 43);
    OneRound(H0, block, 44);
    OneRound(H0, block, 45);
    OneRound(H0, block, 46);
    OneRound(H0, block, 47);
  }

  lemma AbcRounds6(block: Block)
    requires IsAbcBlock(block)
    ensures Rounds(H0, block, 56) == S56
  {
    hide Rounds, Schedule, IsAbcBlock, Round, KAt;
    AbcWords48(block);
    AbcWords52(block);
    AbcRounds5(block);
    AbcSteps48();
    AbcSteps52();
    OneRound(H0, block, 48);
    OneRound(H0, block, 49);
    OneRound(H0, block, 50);
    OneRound(H0, block, 51);
    OneRound(H0, block, 52);
    OneRound(H0, block, 53);
    OneRound(H0, block, 54);
    OneRound(H0, block, 55);
  }

  lemma AbcRounds7(block: Block)
    requires IsAbcBlock(block)
    ensures Rounds(H0, block, 64) == S64
  {
    hide Rounds, Schedule, IsAbcBlock, Round, KAt;
    AbcWords56(block);
    AbcWords60(block);
    AbcRounds6(block);
    AbcSteps56();
    AbcSteps60();
    OneRound(H0, block, 56);
    OneRound(H0, block, 57);
    OneRound(H0, block, 58);
    OneRound(H0, block, 59);
    OneRound(H0, block, 60);
    OneRound(H0, block, 61);
    OneRound(H0, block, 62);
    OneRound(H0, block, 63);
  }

  lemma NoRounds(v: Hash, block: Block)
    ensures Rounds(v, block, 0) == v
  {
  }

  lemma OneRound(v: Hash, block: Block, t: nat)
    requires t < 64
    ensures Rounds(v, block, t + 1) == Round(Rounds(v, block, t), KAt(t), Schedule(block, t))
  {
  }

  // ---- The digest ----

  const ABC_DIGEST: seq<bv8> :=
    [0xba, 0x78, 0x16, 0xbf] + [0x8f, 0x01, 0xcf, 0xea] + [0x41, 0x41, 0x40, 0xde] + [0x5d, 0xae, 0x22, 0x23]
    + [0xb0, 0x03, 0x61, 0xa3] + [0x96, 0x17, 0x7a, 0x9c] + [0xb4, 0x10, 0xff, 0x61] + [0xf2, 0x00, 0x15, 0xad]

  lemma AbcCompressed(block: Block)
    requires IsAbcBlock(block)
    ensures Compress(H0, block)
         == Hash(0xba7816bf, 0x8f01cfea, 0x414140de, 0x5dae2223, 0xb00361a3, 0x96177a9c, 0xb410ff61, 0xf20015ad)
  {
    hide Rounds;
    AbcRounds7(block);
  }

  /** The digest of "abc" is the published one. */
  lemma AbcDigest()
    ensures Spec(ABC) == ABC_DIGEST
  {
    hide Compress, Digest, Padded;
    AbcPadded();
    HashOneOrTwo(H0, Padded(ABC));
    AbcCompressed(Padded(ABC));
    AbcBytes();
  }

  lemma AbcBytes()
    ensures Digest(Hash(0xba7816bf, 0x8f01cfea, 0x414140de, 0x5dae2223, 0xb00361a3, 0x96177a9c, 0xb410ff61, 0xf20015ad))
         == ABC_DIGEST
  {
    hide WordsBytes, WordBytes;
    EightWords(Hash(0xba7816bf, 0x8f01cfea, 0x414140de, 0x5dae2223, 0xb00361a3, 0x96177a9c, 0xb410ff61, 0xf20015ad));
    AbcWordBytes();
  }

  lemma AbcWordBytes()
    ensures WordBytes(0xba7816bf) == [0xba, 0x78, 0x16, 0xbf]
    ensures WordBytes(0x8f01cfea) == [0x8f, 0x01, 0xcf, 0xea]
    ensures WordBytes(0x414140de) == [0x41, 0x41, 0x40, 0xde]
    ensures WordBytes(0x5dae2223) == [0x5d, 0xae, 0x22, 0x23]
    ensures WordBytes(0xb00361a3) == [0xb0, 0x03, 0x61, 0xa3]
    ensures WordBytes(0x96177a9c) == [0x96, 0x17, 0x7a, 0x9c]
    ensures WordBytes(0xb410ff61) == [0xb4, 0x10, 0xff, 0x61]
    ensures WordBytes(0xf20015ad) == [0xf2, 0x00, 0x15, 0xad]
  {
  }

  lemma EightWords(v: Hash)
    ensures Digest(v) == WordBytes(v.a) + WordBytes(v.b) + WordBytes(v.c) + WordBytes(v.d)
                       + WordBytes(v.e) + WordBytes(v.f) + WordBytes(v.g) + WordBytes(v.h)
  {
    hide WordsBytes, WordBytes;
    var ws := [v.a, v.b, v.c, v.d, v.e, v.f, v.g, v.h];
    EightBytes(ws);
    assert ws[0] == v.a && ws[1] == v.b && ws[2] == v.c && ws[3] == v.d;
    assert ws[4] == v.e && ws[5] == v.f && ws[6] == v.g && ws[7] == v.h;
  }

  lemma EightBytes(ws: seq<bv32>)
    requires |ws| == 8
    ensures WordsBytes(ws) == WordBytes(ws[0]) + WordBytes(ws[1]) + WordBytes(ws[2]) + WordBytes(ws[3])
                            + WordBytes(ws[4]) + WordBytes(ws[5]) + WordBytes(ws[6]) + WordBytes(ws[7])
  {
    hide WordsBytes, WordBytes;
    assert ws[..8] == ws;
    FourBytes(ws);
    OneMoreWord(ws, 4);
    OneMoreWord(ws, 5);
    OneMoreWord(ws, 6);
    OneMoreWord(ws, 7);
  }

  lemma FourBytes(ws: seq<bv32>)
    requires |ws| >= 4
    ensures WordsBytes(ws[..4]) == WordBytes(ws[0]) + WordBytes(ws[1]) + WordBytes(ws[2]) + WordBytes(ws[3])
  {
    hide WordsBytes, WordBytes;
    FirstWord(ws);
    OneMoreWord(ws, 1);
    OneMoreWord(ws, 2);
    OneMoreWord(ws, 3);
  }

  lemma OneMoreWord(ws: seq<bv32>, n: nat)
    requires n < |ws|
    ensures WordsBytes(ws[..n + 1]) == WordsBytes(ws[..n]) + WordBytes(ws[n])
  {
    hide WordsBytes, WordBytes;
    WordsBytesSnoc(ws[..n], ws[n]);
    assert ws[..n + 1] == ws[..n] + [ws[n]];
  }

  lemma FirstWord(ws: seq<bv32>)
    requires ws != []
    ensures WordsBytes(ws[..1]) == WordBytes(ws[0])
  {
    hide WordsBytes, WordBytes;
    OneMoreWord(ws, 0);
    assert ws[..0] == [];
    WordsBytesOfNothing();
  }
}
