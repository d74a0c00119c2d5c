/** The values that the author of lookup3 publishes for his hash, worked out step by step. */
module Lookup3Vectors {
  import opened Bytes
  import opened Words
  import opened Lookup3

  lemma Powers()
    ensures Pow2(4) == 0x10 && Pow2(6) == 0x40 && Pow2(7) == 0x80 && Pow2(8) == 0x100 && Pow2(11) == 0x800
    ensures Pow2(13) == 0x2000 && Pow2(14) == 0x4000 && Pow2(16) == 0x1_0000 && Pow2(18) == 0x4_0000 && Pow2(19) == 0x8_0000
    ensures Pow2(21) == 0x20_0000 && Pow2(24) == 0x100_0000 && Pow2(25) == 0x200_0000 && Pow2(26) == 0x400_0000 && Pow2(28) == 0x1000_0000
  {
    assert Pow2(12) == 0x1000;
    assert Pow2(20) == 0x10_0000;
    assert Pow2(23) == 0x80_0000;
  }

  lemma RotIs(x: word, k: nat, p: nat, q: nat, y: word)
    requires k <= 32 && Pow2(k) == q && Pow2(32 - k) == p && y as int == (x as int % p) * q + x as int / p
    ensures Rot(x, k) == y
  {
    RotIsTwoShifts(x, k);
  }

  function ByteOf(v: bv8): byte {
    v as int
  }

  lemma ByteIs(b: bv8, c: bv8, d: bv8)
    requires b ^ c == d
    ensures XorByte(ByteOf(b), ByteOf(c)) == ByteOf(d)
  {
    BitsOfByte(b);
    BitsOfByte(c);
  }

  lemma XorIs(b3: bv8, b2: bv8, b1: bv8, b0: bv8, c3: bv8, c2: bv8, c1: bv8, c0: bv8, d3: bv8, d2: bv8, d1: bv8, d0: bv8)
    requires b3 ^ c3 == d3 && b2 ^ c2 == d2 && b1 ^ c1 == d1 && b0 ^ c0 == d0
    ensures Xor(OfBytes(ByteOf(b3), ByteOf(b2), ByteOf(b1), ByteOf(b0)), OfBytes(ByteOf(c3), ByteOf(c2), ByteOf(c1), ByteOf(c0))) == OfBytes(ByteOf(d3), ByteOf(d2), ByteOf(d1), ByteOf(d0))
  {
    ByteIs(b3, c3, d3); ByteIs(b2, c2, d2); ByteIs(b1, c1, d1); ByteIs(b0, c0, d0);
    XorOfBytes(ByteOf(b3), ByteOf(b2), ByteOf(b1), ByteOf(b0), ByteOf(c3), ByteOf(c2), ByteOf(c1), ByteOf(c0));
  }

  // ----- the steps -----

  lemma Step1(z: word)
    requires z == 0x3fce_247f
    ensures MixStep(0x5123_2e53, 0x4e11_322d, z, 4) == (0xedb7_4e27, 0x8ddf_56ac)
  {
    assert Rot(z, 4) == 0xfce2_47f3 by { Powers(); RotIs(z, 4, 0x10000000, 0x10, 0xfce2_47f3); }
    assert Xor(0x1155_09d4, 0xfce2_47f3) == 0xedb7_4e27 by { XorIs(0x11, 0x55, 0x09, 0xd4, 0xfc, 0xe2, 0x47, 0xf3, 0xed, 0xb7, 0x4e, 0x27); }
    assert Sub(0x5123_2e53, z) == 0x1155_09d4;
  }

  lemma Step2(z: word)
    requires z == 0xedb7_4e27
    ensures MixStep(0x4e11_322d, 0x8ddf_56ac, z, 6) == (0x0d8a_6dfd, 0x7b96_a4d3)
  {
    assert Rot(z, 6) == 0x6dd3_89fb by { Powers(); RotIs(z, 6, 0x4000000, 0x40, 0x6dd3_89fb); }
    assert Xor(0x6059_e406, 0x6dd3_89fb) == 0x0d8a_6dfd by { XorIs(0x60, 0x59, 0xe4, 0x06, 0x6d, 0xd3, 0x89, 0xfb, 0x0d, 0x8a, 0x6d, 0xfd); }
    assert Sub(0x4e11_322d, z) == 0x6059_e406;
  }

  lemma Step3(z: word)
    requires z == 0x0d8a_6dfd
    ensures MixStep(0x8ddf_56ac, 0x7b96_a4d3, z, 8) == (0x0a39_15a2, 0x8921_12d0)
  {
    assert Rot(z, 8) == 0x8a6d_fd0d by { Powers(); RotIs(z, 8, 0x1000000, 0x100, 0x8a6d_fd0d); }
    assert Xor(0x8054_e8af, 0x8a6d_fd0d) == 0x0a39_15a2 by { XorIs(0x80, 0x54, 0xe8, 0xaf, 0x8a, 0x6d, 0xfd, 0x0d, 0x0a, 0x39, 0x15, 0xa2); }
    assert Sub(0x8ddf_56ac, z) == 0x8054_e8af;
  }

  lemma Step4(z: word)
    requires z == 0x0a39_15a2
    ensures MixStep(0x7b96_a4d3, 0x8921_12d0, z, 16) == (0x64ff_8508, 0x935a_2872)
  {
    assert Rot(z, 16) == 0x15a2_0a39 by { Powers(); RotIs(z, 16, 0x10000, 0x10000, 0x15a2_0a39); }
    assert Xor(0x715d_8f31, 0x15a2_0a39) == 0x64ff_8508 by { XorIs(0x71, 0x5d, 0x8f, 0x31, 0x15, 0xa2, 0x0a, 0x39, 0x64, 0xff, 0x85, 0x08); }
    assert Sub(0x7b96_a4d3, z) == 0x715d_8f31;
  }

  lemma Step5(z: word)
    requires z == 0x64ff_8508
    ensures MixStep(0x8921_12d0, 0x935a_2872, z, 19) == (0x0c62_aa34, 0xf859_ad7a)
  {
    assert Rot(z, 19) == 0x2843_27fc by { Powers(); RotIs(z, 19, 0x2000, 0x80000, 0x2843_27fc); }
    assert Xor(0x2421_8dc8, 0x2843_27fc) == 0x0c62_aa34 by { XorIs(0x24, 0x21, 0x8d, 0xc8, 0x28, 0x43, 0x27, 0xfc, 0x0c, 0x62, 0xaa, 0x34); }
    assert Sub(0x8921_12d0, z) == 0x2421_8dc8;
  }

  lemma Step6(z: word)
    requires z == 0x0c62_aa34
    ensures MixStep(0x935a_2872, 0xf859_ad7a, z, 4) == (0x40dd_dd7e, 0x04bc_57ae)
  {
    assert Rot(z, 4) == 0xc62a_a340 by { Powers(); RotIs(z, 4, 0x10000000, 0x10, 0xc62a_a340); }
    assert Xor(0x86f7_7e3e, 0xc62a_a340) == 0x40dd_dd7e by { XorIs(0x86, 0xf7, 0x7e, 0x3e, 0xc6, 0x2a, 0xa3, 0x40, 0x40, 0xdd, 0xdd, 0x7e); }
    assert Sub(0x935a_2872, z) == 0x86f7_7e3e;
  }

  lemma FirstBlock()
    ensures Mix(Abc(0x5123_2e53, 0x4e11_322d, 0x3fce_247f)) == Abc(0xf859_ad7a, 0x04bc_57ae, 0x40dd_dd7e)
  {
    Step1(0x3fce_247f); Step2(0xedb7_4e27); Step3(0x0d8a_6dfd); Step4(0x0a39_15a2); Step5(0x64ff_8508); Step6(0x0c62_aa34);
  }

  lemma Step7(z: word)
    requires z == 0xa243_569e
    ensures MixStep(0x6b7a_11e8, 0x7321_ce13, z, 4) == (0xed03_d2a0, 0x1565_24b1)
  {
    assert Rot(z, 4) == 0x2435_69ea by { Powers(); RotIs(z, 4, 0x10000000, 0x10, 0x2435_69ea); }
    assert Xor(0xc936_bb4a, 0x2435_69ea) == 0xed03_d2a0 by { XorIs(0xc9, 0x36, 0xbb, 0x4a, 0x24, 0x35, 0x69, 0xea, 0xed, 0x03, 0xd2, 0xa0); }
    assert Sub(0x6b7a_11e8, z) == 0xc936_bb4a;
  }

  lemma Step8(z: word)
    requires z == 0xed03_d2a0
    ensures MixStep(0x7321_ce13, 0x1565_24b1, z, 6) == (0xc6e9_5348, 0x0268_f751)
  {
    assert Rot(z, 6) == 0x40f4_a83b by { Powers(); RotIs(z, 6, 0x4000000, 0x40, 0x40f4_a83b); }
    assert Xor(0x861d_fb73, 0x40f4_a83b) == 0xc6e9_5348 by { XorIs(0x86, 0x1d, 0xfb, 0x73, 0x40, 0xf4, 0xa8, 0x3b, 0xc6, 0xe9, 0x53, 0x48); }
    assert Sub(0x7321_ce13, z) == 0x861d_fb73;
  }

  lemma Step9(z: word)
    requires z == 0xc6e9_5348
    ensures MixStep(0x1565_24b1, 0x0268_f751, z, 8) == (0xa728_99af, 0xc952_4a99)
  {
    assert Rot(z, 8) == 0xe953_48c6 by { Powers(); RotIs(z, 8, 0x1000000, 0x100, 0xe953_48c6); }
    assert Xor(0x4e7b_d169, 0xe953_48c6) == 0xa728_99af by { XorIs(0x4e, 0x7b, 0xd1, 0x69, 0xe9, 0x53, 0x48, 0xc6, 0xa7, 0x28, 0x99, 0xaf); }
    assert Sub(0x1565_24b1, z) == 0x4e7b_d169;
  }

  lemma Step10(z: word)
    requires z == 0xa728_99af
    ensures MixStep(0x0268_f751, 0xc952_4a99, z, 16) == (0xc2ef_fa8a, 0x707a_e448)
  {
    assert Rot(z, 16) == 0x99af_a728 by { Powers(); RotIs(z, 16, 0x10000, 0x10000, 0x99af_a728); }
    assert Xor(0x5b40_5da2, 0x99af_a728) == 0xc2ef_fa8a by { XorIs(0x5b, 0x40, 0x5d, 0xa2, 0x99, 0xaf, 0xa7, 0x28, 0xc2, 0xef, 0xfa, 0x8a); }
    assert Sub(0x0268_f751, z) == 0x5b40_5da2;
  }

  lemma Step11(z: word)
    requires z == 0xc2ef_fa8a
    ensures MixStep(0xc952_4a99, 0x707a_e448, z, 19) == (0xd234_4770, 0x336a_ded2)
  {
    assert Rot(z, 19) == 0xd456_177f by { Powers(); RotIs(z, 19, 0x2000, 0x80000, 0xd456_177f); }
    assert Xor(0x0662_500f, 0xd456_177f) == 0xd234_4770 by { XorIs(0x06, 0x62, 0x50, 0x0f, 0xd4, 0x56, 0x17, 0x7f, 0xd2, 0x34, 0x47, 0x70); }
    assert Sub(0xc952_4a99, z) == 0x0662_500f;
  }

  lemma Step12(z: word)
    requires z == 0xd234_4770
    ensures MixStep(0x707a_e448, 0x336a_ded2, z, 4) == (0xbd02_ebd5, 0x059f_2642)
  {
    assert Rot(z, 4) == 0x2344_770d by { Powers(); RotIs(z, 4, 0x10000000, 0x10, 0x2344_770d); }
    assert Xor(0x9e46_9cd8, 0x2344_770d) == 0xbd02_ebd5 by { XorIs(0x9e, 0x46, 0x9c, 0xd8, 0x23, 0x44, 0x77, 0x0d, 0xbd, 0x02, 0xeb, 0xd5); }
    assert Sub(0x707a_e448, z) == 0x9e46_9cd8;
  }

  lemma SecondBlock()
    ensures Mix(Abc(0x6b7a_11e8, 0x7321_ce13, 0xa243_569e)) == Abc(0x336a_ded2, 0x059f_2642, 0xbd02_ebd5)
  {
    Step7(0xa243_569e); Step8(0xed03_d2a0); Step9(0xc6e9_5348); Step10(0xa728_99af); Step11(0xc2ef_fa8a); Step12(0xd234_4770);
  }

  lemma Step13(z: word)
    requires z == 0x059f_95a9
    ensures FinalStep(0xbd02_ebd5, z, 14) == 0xd333_3d15
  {
    assert Rot(z, 14) == 0xe56a_4167 by { Powers(); RotIs(z, 14, 0x40000, 0x4000, 0xe56a_4167); }
    assert Xor(0xbd02_ebd5, z) == 0xb89d_7e7c by { XorIs(0xbd, 0x02, 0xeb, 0xd5, 0x05, 0x9f, 0x95, 0xa9, 0xb8, 0x9d, 0x7e, 0x7c); }
    assert FinalStep(0xbd02_ebd5, z, 14) == Sub(0xb89d_7e7c, 0xe56a_4167);
  }

  lemma Step14(z: word)
    requires z == 0xd333_3d15
    ensures FinalStep(0x948b_5244, z, 11) == 0xadcf_c0b8
  {
    assert Rot(z, 11) == 0x99e8_ae99 by { Powers(); RotIs(z, 11, 0x200000, 0x800, 0x99e8_ae99); }
    assert Xor(0x948b_5244, z) == 0x47b8_6f51 by { XorIs(0x94, 0x8b, 0x52, 0x44, 0xd3, 0x33, 0x3d, 0x15, 0x47, 0xb8, 0x6f, 0x51); }
    assert FinalStep(0x948b_5244, z, 11) == Sub(0x47b8_6f51, 0x99e8_ae99);
  }

  lemma Step15(z: word)
    requires z == 0xadcf_c0b8
    ensures FinalStep(0x059f_95a9, z, 25) == 0x36f4_b590
  {
    assert Rot(z, 25) == 0x715b_9f81 by { Powers(); RotIs(z, 25, 0x80, 0x2000000, 0x715b_9f81); }
    assert Xor(0x059f_95a9, z) == 0xa850_5511 by { XorIs(0x05, 0x9f, 0x95, 0xa9, 0xad, 0xcf, 0xc0, 0xb8, 0xa8, 0x50, 0x55, 0x11); }
    assert FinalStep(0x059f_95a9, z, 25) == Sub(0xa850_5511, 0x715b_9f81);
  }

  lemma Step16(z: word)
    requires z == 0x36f4_b590
    ensures FinalStep(0xd333_3d15, z, 16) == 0x3037_5191
  {
    assert Rot(z, 16) == 0xb590_36f4 by { Powers(); RotIs(z, 16, 0x10000, 0x10000, 0xb590_36f4); }
    assert Xor(0xd333_3d15, z) == 0xe5c7_8885 by { XorIs(0xd3, 0x33, 0x3d, 0x15, 0x36, 0xf4, 0xb5, 0x90, 0xe5, 0xc7, 0x88, 0x85); }
    assert FinalStep(0xd333_3d15, z, 16) == Sub(0xe5c7_8885, 0xb590_36f4);
  }

  lemma Step17(z: word)
    requires z == 0x3037_5191
    ensures FinalStep(0xadcf_c0b8, z, 4) == 0x9a83_7816
  {
    assert Rot(z, 4) == 0x0375_1913 by { Powers(); RotIs(z, 4, 0x10000000, 0x10, 0x0375_1913); }
    assert Xor(0xadcf_c0b8, z) == 0x9df8_9129 by { XorIs(0xad, 0xcf, 0xc0, 0xb8, 0x30, 0x37, 0x51, 0x91, 0x9d, 0xf8, 0x91, 0x29); }
    assert FinalStep(0xadcf_c0b8, z, 4) == Sub(0x9df8_9129, 0x0375_1913);
  }

  lemma Step18(z: word)
    requires z == 0x9a83_7816
    ensures FinalStep(0x36f4_b590, z, 14) == 0xce72_26e6
  {
    assert Rot(z, 14) == 0xde05_a6a0 by { Powers(); RotIs(z, 14, 0x40000, 0x4000, 0xde05_a6a0); }
    assert Xor(0x36f4_b590, z) == 0xac77_cd86 by { XorIs(0x36, 0xf4, 0xb5, 0x90, 0x9a, 0x83, 0x78, 0x16, 0xac, 0x77, 0xcd, 0x86); }
    assert FinalStep(0x36f4_b590, z, 14) == Sub(0xac77_cd86, 0xde05_a6a0);
  }

  lemma Step19(z: word)
    requires z == 0xce72_26e6
    ensures FinalStep(0x3037_5191, z, 24) == 0x1777_0551
  {
    assert Rot(z, 24) == 0xe6ce_7226 by { Powers(); RotIs(z, 24, 0x100, 0x1000000, 0xe6ce_7226); }
    assert Xor(0x3037_5191, z) == 0xfe45_7777 by { XorIs(0x30, 0x37, 0x51, 0x91, 0xce, 0x72, 0x26, 0xe6, 0xfe, 0x45, 0x77, 0x77); }
    assert FinalStep(0x3037_5191, z, 24) == Sub(0xfe45_7777, 0xe6ce_7226);
  }

  lemma LastBlock()
    ensures Final(Abc(0x948b_5244, 0x059f_95a9, 0xbd02_ebd5)) == Abc(0x9a83_7816, 0xce72_26e6, 0x1777_0551)
  {
    Step13(0x059f_95a9); Step14(0xd333_3d15); Step15(0xadcf_c0b8); Step16(0x36f4_b590); Step17(0x3037_5191); Step18(0x9a83_7816); Step19(0xce72_26e6);
  }

  // ----- the values -----

  /** "Four score and seven years ago". */
  const FOUR_SCORE: seq<byte> := [
    0x46, 0x6f, 0x75, 0x72, 0x20, 0x73, 0x63, 0x6f, 0x72, 0x65, 0x20, 0x61,
    0x6e, 0x64, 0x20, 0x73, 0x65, 0x76, 0x65, 0x6e, 0x20, 0x79, 0x65, 0x61,
    0x72, 0x73, 0x20, 0x61, 0x67, 0x6f]

  lemma WordIs(key: seq<byte>, i: nat, b0: byte, b1: byte, b2: byte, b3: byte, w: word)
    requires ByteAt(key, i) == b0 && ByteAt(key, i + 1) == b1 && ByteAt(key, i + 2) == b2 && ByteAt(key, i + 3) == b3
    requires w as int == b0 as int + 256 * (b1 as int + 256 * (b2 as int + 256 * (b3 as int)))
    ensures WordAt(false, key, i) == w
  {
  }

  lemma Word0(key: seq<byte>)
    requires key == FOUR_SCORE
    ensures WordAt(false, key, 0) == 0x7275_6f46
  {
    WordIs(key, 0, 0x46, 0x6f, 0x75, 0x72, 0x7275_6f46);
  }

  lemma Word1(key: seq<byte>)
    requires key == FOUR_SCORE
    ensures WordAt(false, key, 4) == 0x6f63_7320
  {
    WordIs(key, 4, 0x20, 0x73, 0x63, 0x6f, 0x6f63_7320);
  }

  lemma Word2(key: seq<byte>)
    requires key == FOUR_SCORE
    ensures WordAt(false, key, 8) == 0x6120_6572
  {
    WordIs(key, 8, 0x72, 0x65, 0x20, 0x61, 0x6120_6572);
  }

  lemma Word3(key: seq<byte>)
    requires key == FOUR_SCORE
    ensures WordAt(false, key, 12) == 0x7320_646e
  {
    WordIs(key, 12, 0x6e, 0x64, 0x20, 0x73, 0x7320_646e);
  }

  lemma Word4(key: seq<byte>)
    requires key == FOUR_SCORE
    ensures WordAt(false, key, 16) == 0x6e65_7665
  {
    WordIs(key, 16, 0x65, 0x76, 0x65, 0x6e, 0x6e65_7665);
  }

  lemma Word5(key: seq<byte>)
    requires key == FOUR_SCORE
    ensures WordAt(false, key, 20) == 0x6165_7920
  {
    WordIs(key, 20, 0x20, 0x79, 0x65, 0x61, 0x6165_7920);
  }

  lemma Word6(key: seq<byte>)
    requires key == FOUR_SCORE
    ensures WordAt(false, key, 24) == 0x6120_7372
  {
    WordIs(key, 24, 0x72, 0x73, 0x20, 0x61, 0x6120_7372);
  }

  lemma Word7(key: seq<byte>)
    requires key == FOUR_SCORE
    ensures WordAt(false, key, 28) == 0x0000_6f67
  {
    WordIs(key, 28, 0x67, 0x6f, 0x00, 0x00, 0x0000_6f67);
  }

  lemma Word8(key: seq<byte>)
    requires key == FOUR_SCORE
    ensures WordAt(false, key, 32) == 0x0000_0000
  {
    WordIs(key, 32, 0x00, 0x00, 0x00, 0x00, 0x0000_0000);
  }

  lemma AbsorbsAt0(key: seq<byte>)
    requires key == FOUR_SCORE
    ensures Absorb(false, Abc(0xdead_bf0d, 0xdead_bf0d, 0xdead_bf0d), key, 0) == Abc(0x5123_2e53, 0x4e11_322d, 0x3fce_247f)
  {
    Word0(key); Word1(key); Word2(key);
  }

  lemma AbsorbsAt12(key: seq<byte>)
    requires key == FOUR_SCORE
    ensures Absorb(false, Abc(0xf859_ad7a, 0x04bc_57ae, 0x40dd_dd7e), key, 12) == Abc(0x6b7a_11e8, 0x7321_ce13, 0xa243_569e)
  {
    Word3(key); Word4(key); Word5(key);
  }

  lemma AbsorbsAt24(key: seq<byte>)
    requires key == FOUR_SCORE
    ensures Absorb(false, Abc(0x336a_ded2, 0x059f_2642, 0xbd02_ebd5), key, 24) == Abc(0x948b_5244, 0x059f_95a9, 0xbd02_ebd5)
  {
    Word6(key); Word7(key); Word8(key);
  }

  /** The published pair for these thirty bytes; the primary hash is that of `hashlittle`. */
  lemma FourScore(key: seq<byte>)
    requires key == FOUR_SCORE
    ensures HashLittle2(key, 0, 0) == (0x1777_0551, 0xce72_26e6) && HashLittle(key, 0) == 0x1777_0551
  {
    var start := Abc(0xdead_bf0d, 0xdead_bf0d, 0xdead_bf0d);
    assert |key| == 30 && Start(Truncate(30), 0) == 0xdead_bf0d;
    AbsorbsAt0(key); AbsorbsAt12(key); AbsorbsAt24(key);
    FirstBlock(); SecondBlock(); LastBlock();
    assert Digest(LOOKUP3, false, key, 24, Abc(0x336a_ded2, 0x059f_2642, 0xbd02_ebd5)) == Abc(0x9a83_7816, 0xce72_26e6, 0x1777_0551);
    DigestNext(LOOKUP3, false, key, 12, 24, Abc(0xf859_ad7a, 0x04bc_57ae, 0x40dd_dd7e), Abc(0x6b7a_11e8, 0x7321_ce13, 0xa243_569e));
    DigestNext(LOOKUP3, false, key, 0, 12, start, Abc(0x5123_2e53, 0x4e11_322d, 0x3fce_247f));
    SecondarySeedZero(key, 0);
  }

  /** An empty key is not mixed: the seed and the initial value come back, in 32 bits. */
  lemma EmptyKey(initval: word)
    ensures HashLittle([], initval) as int == (0xdead_beef + initval as int) % 0x1_0000_0000 == HashBig([], initval) as int
  {
  }
}
