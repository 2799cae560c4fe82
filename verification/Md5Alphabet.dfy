/** One answer from the test suite of RFC 1321, appendix A.5, computed step by step. */
module Md5Alphabet {
  import opened Md5Transform
  import opened Md5

  /** The letters a to z. */
  const ALPHABET: seq<Byte> := seq(26, i requires 0 <= i < 26 => 97 + i)

  /** The words of the padded message: its letters, 0x80, zeros and the length of 208 bits. */
  ghost predicate Letters(x: seq<Word>) {
    && |x| == 16
    && x[0] == 0x64636261 && x[1] == 0x68676665 && x[2] == 0x6c6b6a69 && x[3] == 0x706f6e6d
    && x[4] == 0x74737271 && x[5] == 0x78777675 && x[6] == 0x00807a79 && x[7] == 0x00000000
    && x[8] == 0x00000000 && x[9] == 0x00000000 && x[10] == 0x00000000 && x[11] == 0x00000000
    && x[12] == 0x00000000 && x[13] == 0x00000000 && x[14] == 0x000000d0 && x[15] == 0x00000000
  }

  /** The registers at the end. */
  const FINAL := Regs(0xd7d3fcc3, 0x00e49261, 0x6c49fb7d, 0x3be167ca)

  /** One step: f and sum are what it computes on the way to the new word. */
  lemma Advance(r: Regs, x: seq<Word>, i: nat, a: Word, b: Word, c: Word, d: Word, f: Word, sum: Word, turned: Word)
    requires |x| == 16 && RfcSteps(0, i, r, x) == Regs(a, b, c, d)
    requires Mix(i, b, c, d) == f && (a + f + x[WordIndex(i)] + Sine(i)) % 0x1_0000_0000 == sum
    requires RotateLeft(sum, Amount(i)) == turned
    ensures RfcSteps(0, i + 1, r, x) == Regs(d, (b + turned) % 0x1_0000_0000, b, c)
  {
    hide RotateLeft, Mix, WordIndex, Sine, Amount;
  }

  lemma FValues()
    ensures RfcF(0xefcdab89, 0x98badcfe, 0x10325476) == 0x98badcfe
    ensures RfcF(0xd6d117a6, 0xefcdab89, 0x98badcfe) == 0xceebcbd8
    ensures RfcF(0xaab1aaaa, 0xd6d117a6, 0xefcdab89) == 0xc7dd03a3
    ensures RfcF(0x227d8cf1, 0xaab1aaaa, 0xd6d117a6) == 0xf6b19ba6
    ensures RfcF(0x4503b812, 0x227d8cf1, 0xaab1aaaa) == 0xaab18ab8
    ensures RfcF(0xfe15f787, 0x4503b812, 0x227d8cf1) == 0x4469b872
    ensures RfcF(0xa811b278, 0xfe15f787, 0x4503b812) == 0xed13ba02
    ensures RfcF(0xb71122fc, 0xa811b278, 0xfe15f787) == 0xe815f77b
    ensures RfcF(0xda9bbb0d, 0xb71122fc, 0xa811b278) == 0xb211227c
    ensures RfcF(0xae752899, 0xda9bbb0d, 0xb71122fc) == 0x9b112a6d
    ensures RfcF(0x2bbe757f, 0xae752899, 0xda9bbb0d) == 0xfa35aa19
    ensures RfcF(0x7d4bd80b, 0x2bbe757f, 0xae752899) == 0xab3e709b
    ensures RfcF(0x56cfa5cb, 0x7d4bd80b, 0x2bbe757f) == 0x7d7bd03f
    ensures RfcF(0x1754a316, 0x56cfa5cb, 0x7d4bd80b) == 0x7e4ff90b
    ensures RfcF(0x85567d90, 0x1754a316, 0x56cfa5cb) == 0x57dda15b
    ensures RfcF(0x00df74d5, 0x85567d90, 0x1754a316) == 0x1756f792
  {}

  lemma Rotations1()
    ensures RotateLeft(0x3bce06d8, 7) == 0xe7036c1d
    ensures RotateLeft(0x304d3e09, 12) == 0xd3e09304
    ensures RotateLeft(0xf123bbe5, 17) == 0x77cbe247
    ensures RotateLeft(0x18ac848a, 22) == 0x22862b21
    ensures RotateLeft(0xeb72247e, 7) == 0xb9123f75
    ensures RotateLeft(0xaf1a9fbb, 12) == 0xa9fbbaf1
    ensures RotateLeft(0xb842077f, 17) == 0x0eff7084
    ensures RotateLeft(0x2a60448e, 22) == 0x238a9811
    ensures RotateLeft(0x19a7b2db, 7) == 0xd3d96d8c
    ensures RotateLeft(0xce67d494, 12) == 0x7d494ce6
    ensures RotateLeft(0xb14628c6, 17) == 0x518d628c
    ensures RotateLeft(0x0f370366, 22) == 0xd983cdc0
    ensures RotateLeft(0x978109fa, 7) == 0xc084fd4b
    ensures RotateLeft(0xa7a6e01d, 12) == 0x6e01da7a
    ensures RotateLeft(0x7ba2bdc4, 17) == 0x7b88f745
    ensures RotateLeft(0xb7daa57e, 22) == 0x5fadf6a9
  {}

  lemma Steps0(r: Regs, x: seq<Word>)
    requires Letters(x) && r == IV
    ensures RfcSteps(0, 4, r, x) == Regs(0xd6d117a6, 0x4503b812, 0x227d8cf1, 0xaab1aaaa)
  {
    hide RfcF, RfcG, RfcH, RfcI, RotateLeft, RfcSteps;
    FValues();
    Rotations1();
    NoSteps(r, x);
    Advance(r, x, 0, 0x67452301, 0xefcdab89, 0x98badcfe, 0x10325476, 0x98badcfe, 0x3bce06d8, 0xe7036c1d);
    Advance(r, x, 1, 0x10325476, 0xd6d117a6, 0xefcdab89, 0x98badcfe, 0xceebcbd8, 0x304d3e09, 0xd3e09304);
    Advance(r, x, 2, 0x98badcfe, 0xaab1aaaa, 0xd6d117a6, 0xefcdab89, 0xc7dd03a3, 0xf123bbe5, 0x77cbe247);
    Advance(r, x, 3, 0xefcdab89, 0x227d8cf1, 0xaab1aaaa, 0xd6d117a6, 0xf6b19ba6, 0x18ac848a, 0x22862b21);
  }

  lemma Steps4(r: Regs, x: seq<Word>)
    requires Letters(x) && RfcSteps(0, 4, r, x) == Regs(0xd6d117a6, 0x4503b812, 0x227d8cf1, 0xaab1aaaa)
    ensures RfcSteps(0, 8, r, x) == Regs(0xfe15f787, 0xda9bbb0d, 0xb71122fc, 0xa811b278)
  {
    hide RfcF, RfcG, RfcH, RfcI, RotateLeft, RfcSteps;
    FValues();
    Rotations1();
    Advance(r, x, 4, 0xd6d117a6, 0x4503b812, 0x227d8cf1, 0xaab1aaaa, 0xaab18ab8, 0xeb72247e, 0xb9123f75);
    Advance(r, x, 5, 0xaab1aaaa, 0xfe15f787, 0x4503b812, 0x227d8cf1, 0x4469b872, 0xaf1a9fbb, 0xa9fbbaf1);
    Advance(r, x, 6, 0x227d8cf1, 0xa811b278, 0xfe15f787, 0x4503b812, 0xed13ba02, 0xb842077f, 0x0eff7084);
    Advance(r, x, 7, 0x4503b812, 0xb71122fc, 0xa811b278, 0xfe15f787, 0xe815f77b, 0x2a60448e, 0x238a9811);
  }

  lemma Steps8(r: Regs, x: seq<Word>)
    requires Letters(x) && RfcSteps(0, 8, r, x) == Regs(0xfe15f787, 0xda9bbb0d, 0xb71122fc, 0xa811b278)
    ensures RfcSteps(0, 12, r, x) == Regs(0xae752899, 0x56cfa5cb, 0x7d4bd80b, 0x2bbe757f)
  {
    hide RfcF, RfcG, RfcH, RfcI, RotateLeft, RfcSteps;
    FValues();
    Rotations1();
    Advance(r, x, 8, 0xfe15f787, 0xda9bbb0d, 0xb71122fc, 0xa811b278, 0xb211227c, 0x19a7b2db, 0xd3d96d8c);
    Advance(r, x, 9, 0xa811b278, 0xae752899, 0xda9bbb0d, 0xb71122fc, 0x9b112a6d, 0xce67d494, 0x7d494ce6);
    Advance(r, x, 10, 0xb71122fc, 0x2bbe757f, 0xae752899, 0xda9bbb0d, 0xfa35aa19, 0xb14628c6, 0x518d628c);
    Advance(r, x, 11, 0xda9bbb0d, 0x7d4bd80b, 0x2bbe757f, 0xae752899, 0xab3e709b, 0x0f370366, 0xd983cdc0);
  }

  lemma Steps12(r: Regs, x: seq<Word>)
    requires Letters(x) && RfcSteps(0, 12, r, x) == Regs(0xae752899, 0x56cfa5cb, 0x7d4bd80b, 0x2bbe757f)
    ensures RfcSteps(0, 16, r, x) == Regs(0x1754a316, 0x608d6b7e, 0x00df74d5, 0x85567d90)
  {
    hide RfcF, RfcG, RfcH, RfcI, RotateLeft, RfcSteps;
    FValues();
    Rotations1();
    Advance(r, x, 12, 0xae752899, 0x56cfa5cb, 0x7d4bd80b, 0x2bbe757f, 0x7d7bd03f, 0x978109fa, 0xc084fd4b);
    Advance(r, x, 13, 0x2bbe757f, 0x1754a316, 0x56cfa5cb, 0x7d4bd80b, 0x7e4ff90b, 0xa7a6e01d, 0x6e01da7a);
    Advance(r, x, 14, 0x7d4bd80b, 0x85567d90, 0x1754a316, 0x56cfa5cb, 0x57dda15b, 0x7ba2bdc4, 0x7b88f745);
    Advance(r, x, 15, 0x56cfa5cb, 0x00df74d5, 0x85567d90, 0x1754a316, 0x1756f792, 0xb7daa57e, 0x5fadf6a9);
  }

  lemma GValues()
    ensures RfcG(0x608d6b7e, 0x00df74d5, 0x85567d90) == 0x008d6955
    ensures RfcG(0x2d8071cc, 0x608d6b7e, 0x00df74d5) == 0x60807bee
    ensures RfcG(0x5dcee119, 0x2d8071cc, 0x608d6b7e) == 0x4d8c7198
    ensures RfcG(0xedfe7e4b, 0x5dcee119, 0x2d8071cc) == 0x7dcef059
    ensures RfcG(0x4c2145b3, 0xedfe7e4b, 0x5dcee119) == 0xec305f53
    ensures RfcG(0x570c43e0, 0x4c2145b3, 0xedfe7e4b) == 0x450d43f0
    ensures RfcG(0x977efd2a, 0x570c43e0, 0x4c2145b3) == 0x172c4762
    ensures RfcG(0xc28ab49d, 0x977efd2a, 0x570c43e0) == 0xc27abc8a
    ensures RfcG(0xc9f162d4, 0xc28ab49d, 0x977efd2a) == 0xc1f06095
    ensures RfcG(0x25bfae3b, 0xc9f162d4, 0xc28ab49d) == 0x09fbe659
    ensures RfcG(0x89980104, 0x25bfae3b, 0xc9f162d4) == 0xad9e8c2f
    ensures RfcG(0xf8c8365f, 0x89980104, 0x25bfae3b) == 0xa888271f
    ensures RfcG(0xe6d3b398, 0xf8c8365f, 0x89980104) == 0xf0d0375b
    ensures RfcG(0xf54d8710, 0xe6d3b398, 0xf8c8365f) == 0xf65b8790
    ensures RfcG(0x927b72e2, 0xf54d8710, 0xe6d3b398) == 0x935f3680
    ensures RfcG(0x2e69afc7, 0x927b72e2, 0xf54d8710) == 0x267bf7e2
  {}

  lemma Rotations2()
    ensures RotateLeft(0x76679832, 5) == 0xccf3064e
    ensures RotateLeft(0xa6982737, 9) == 0x304e6f4d
    ensures RotateLeft(0x74ca40be, 14) == 0x902f9d32
    ensures RotateLeft(0x2c7685e2, 20) == 0x5e22c768
    ensures RotateLeft(0x685757f1, 5) == 0x0aeafe2d
    ensures RotateLeft(0xa520395c, 9) == 0x4072b94a
    ensures RotateLeft(0xddccac2e, 14) == 0x2b0bb773
    ensures RotateLeft(0x6ae37076, 20) == 0x0766ae37
    ensures RotateLeft(0x3ade725b, 5) == 0x5bce4b67
    ensures RotateLeft(0x64b1ec29, 9) == 0x63d852c9
    ensures RotateLeft(0xd56dbcc0, 14) == 0x6f30355b
    ensures RotateLeft(0xb7d39ee0, 20) == 0xee0b7d39
    ensures RotateLeft(0xc073ce9b, 5) == 0x0e79d378
    ensures RotateLeft(0xe94e96f5, 9) == 0x9d2debd2
    ensures RotateLeft(0xf3966fb8, 14) == 0x9bee3ce5
    ensures RotateLeft(0x9a79f804, 20) == 0x8049a79f
  {}

  lemma Steps16(r: Regs, x: seq<Word>)
    requires Letters(x) && RfcSteps(0, 16, r, x) == Regs(0x1754a316, 0x608d6b7e, 0x00df74d5, 0x85567d90)
    ensures RfcSteps(0, 20, r, x) == Regs(0x2d8071cc, 0x4c2145b3, 0xedfe7e4b, 0x5dcee119)
  {
    hide RfcF, RfcG, RfcH, RfcI, RotateLeft, RfcSteps;
    GValues();
    Rotations2();
    Advance(r, x, 16, 0x1754a316, 0x608d6b7e, 0x00df74d5, 0x85567d90, 0x008d6955, 0x76679832, 0xccf3064e);
    Advance(r, x, 17, 0x85567d90, 0x2d8071cc, 0x608d6b7e, 0x00df74d5, 0x60807bee, 0xa6982737, 0x304e6f4d);
    Advance(r, x, 18, 0x00df74d5, 0x5dcee119, 0x2d8071cc, 0x608d6b7e, 0x4d8c7198, 0x74ca40be, 0x902f9d32);
    Advance(r, x, 19, 0x608d6b7e, 0xedfe7e4b, 0x5dcee119, 0x2d8071cc, 0x7dcef059, 0x2c7685e2, 0x5e22c768);
  }

  lemma Steps20(r: Regs, x: seq<Word>)
    requires Letters(x) && RfcSteps(0, 20, r, x) == Regs(0x2d8071cc, 0x4c2145b3, 0xedfe7e4b, 0x5dcee119)
    ensures RfcSteps(0, 24, r, x) == Regs(0x570c43e0, 0xc9f162d4, 0xc28ab49d, 0x977efd2a)
  {
    hide RfcF, RfcG, RfcH, RfcI, RotateLeft, RfcSteps;
    GValues();
    Rotations2();
    Advance(r, x, 20, 0x2d8071cc, 0x4c2145b3, 0xedfe7e4b, 0x5dcee119, 0xec305f53, 0x685757f1, 0x0aeafe2d);
    Advance(r, x, 21, 0x5dcee119, 0x570c43e0, 0x4c2145b3, 0xedfe7e4b, 0x450d43f0, 0xa520395c, 0x4072b94a);
    Advance(r, x, 22, 0xedfe7e4b, 0x977efd2a, 0x570c43e0, 0x4c2145b3, 0x172c4762, 0xddccac2e, 0x2b0bb773);
    Advance(r, x, 23, 0x4c2145b3, 0xc28ab49d, 0x977efd2a, 0x570c43e0, 0xc27abc8a, 0x6ae37076, 0x0766ae37);
  }

  lemma Steps24(r: Regs, x: seq<Word>)
    requires Letters(x) && RfcSteps(0, 24, r, x) == Regs(0x570c43e0, 0xc9f162d4, 0xc28ab49d, 0x977efd2a)
    ensures RfcSteps(0, 28, r, x) == Regs(0x25bfae3b, 0xe6d3b398, 0xf8c8365f, 0x89980104)
  {
    hide RfcF, RfcG, RfcH, RfcI, RotateLeft, RfcSteps;
    GValues();
    Rotations2();
    Advance(r, x, 24, 0x570c43e0, 0xc9f162d4, 0xc28ab49d, 0x977efd2a, 0xc1f06095, 0x3ade725b, 0x5bce4b67);
    Advance(r, x, 25, 0x977efd2a, 0x25bfae3b, 0xc9f162d4, 0xc28ab49d, 0x09fbe659, 0x64b1ec29, 0x63d852c9);
    Advance(r, x, 26, 0xc28ab49d, 0x89980104, 0x25bfae3b, 0xc9f162d4, 0xad9e8c2f, 0xd56dbcc0, 0x6f30355b);
    Advance(r, x, 27, 0xc9f162d4, 0xf8c8365f, 0x89980104, 0x25bfae3b, 0xa888271f, 0xb7d39ee0, 0xee0b7d39);
  }

  lemma Steps28(r: Regs, x: seq<Word>)
    requires Letters(x) && RfcSteps(0, 28, r, x) == Regs(0x25bfae3b, 0xe6d3b398, 0xf8c8365f, 0x89980104)
    ensures RfcSteps(0, 32, r, x) == Regs(0xf54d8710, 0xaeb35766, 0x2e69afc7, 0x927b72e2)
  {
    hide RfcF, RfcG, RfcH, RfcI, RotateLeft, RfcSteps;
    GValues();
    Rotations2();
    Advance(r, x, 28, 0x25bfae3b, 0xe6d3b398, 0xf8c8365f, 0x89980104, 0xf0d0375b, 0xc073ce9b, 0x0e79d378);
    Advance(r, x, 29, 0x89980104, 0xf54d8710, 0xe6d3b398, 0xf8c8365f, 0xf65b8790, 0xe94e96f5, 0x9d2debd2);
    Advance(r, x, 30, 0xf8c8365f, 0x927b72e2, 0xf54d8710, 0xe6d3b398, 0x935f3680, 0xf3966fb8, 0x9bee3ce5);
    Advance(r, x, 31, 0xe6d3b398, 0x2e69afc7, 0x927b72e2, 0xf54d8710, 0x267bf7e2, 0x9a79f804, 0x8049a79f);
  }

  lemma HValues()
    ensures RfcH(0xaeb35766, 0x2e69afc7, 0x927b72e2) == 0x12a18a43
    ensures RfcH(0xb4bf680e, 0xaeb35766, 0x2e69afc7) == 0x346590af
    ensures RfcH(0x4c8ffa80, 0xb4bf680e, 0xaeb35766) == 0x5683c5e8
    ensures RfcH(0x2361ed0a, 0x4c8ffa80, 0xb4bf680e) == 0xdb517f84
    ensures RfcH(0x06a5e211, 0x2361ed0a, 0x4c8ffa80) == 0x694bf59b
    ensures RfcH(0xb9c0c733, 0x06a5e211, 0x2361ed0a) == 0x9c04c828
    ensures RfcH(0xf1e6dc7a, 0xb9c0c733, 0x06a5e211) == 0x4e83f958
    ensures RfcH(0x23a9451b, 0xf1e6dc7a, 0xb9c0c733) == 0x6b8f5e52
    ensures RfcH(0x8d41bf99, 0x23a9451b, 0xf1e6dc7a) == 0x5f0e26f8
    ensures RfcH(0xa3e88ead, 0x8d41bf99, 0x23a9451b) == 0x0d00742f
    ensures RfcH(0x02c0b11c, 0xa3e88ead, 0x8d41bf99) == 0x2c698028
    ensures RfcH(0x66f6468d, 0x02c0b11c, 0xa3e88ead) == 0xc7de793c
    ensures RfcH(0x90a35af5, 0x66f6468d, 0x02c0b11c) == 0xf495ad64
    ensures RfcH(0xb5d41f9c, 0x90a35af5, 0x66f6468d) == 0x438103e4
    ensures RfcH(0xa04b4904, 0xb5d41f9c, 0x90a35af5) == 0x853c0c6d
    ensures RfcH(0x703d54d8, 0xa04b4904, 0xb5d41f9c) == 0x65a20240
  {}

  lemma Rotations3()
    ensures RotateLeft(0x8060c10a, 4) == 0x060c10a8
    ensures RotateLeft(0x4e52fa12, 11) == 0x97d09272
    ensures RotateLeft(0xf28ad6d1, 16) == 0xd6d1f28a
    ensures RotateLeft(0x87ea0fc6, 23) == 0xe343f507
    ensures RotateLeft(0x2b31ae52, 4) == 0xb31ae522
    ensures RotateLeft(0xa8e704c2, 11) == 0x38261547
    ensures RotateLeft(0x68a131c2, 16) == 0x31c268a1
    ensures RotateLeft(0x30f4fcd3, 23) == 0x69987a7e
    ensures RotateLeft(0x416a6cf1, 4) == 0x16a6cf14
    ensures RotateLeft(0x4debdb04, 11) == 0x5ed8226f
    ensures RotateLeft(0x95716435, 16) == 0x64359571
    ensures RotateLeft(0x5a28d053, 23) == 0x29ad1468
    ensures RotateLeft(0x72530c4a, 4) == 0x2530c4a7
    ensures RotateLeft(0x2d1d4ee5, 11) == 0xea772968
    ensures RotateLeft(0x0bd4cff2, 16) == 0xcff20bd4
    ensures RotateLeft(0x275d1e03, 23) == 0x0193ae8f
  {}

  lemma Steps32(r: Regs, x: seq<Word>)
    requires Letters(x) && RfcSteps(0, 32, r, x) == Regs(0xf54d8710, 0xaeb35766, 0x2e69afc7, 0x927b72e2)
    ensures RfcSteps(0, 36, r, x) == Regs(0xb4bf680e, 0x06a5e211, 0x2361ed0a, 0x4c8ffa80)
  {
    hide RfcF, RfcG, RfcH, RfcI, RotateLeft, RfcSteps;
    HValues();
    Rotations3();
    Advance(r, x, 32, 0xf54d8710, 0xaeb35766, 0x2e69afc7, 0x927b72e2, 0x12a18a43, 0x8060c10a, 0x060c10a8);
    Advance(r, x, 33, 0x927b72e2, 0xb4bf680e, 0xaeb35766, 0x2e69afc7, 0x346590af, 0x4e52fa12, 0x97d09272);
    Advance(r, x, 34, 0x2e69afc7, 0x4c8ffa80, 0xb4bf680e, 0xaeb35766, 0x5683c5e8, 0xf28ad6d1, 0xd6d1f28a);
    Advance(r, x, 35, 0xaeb35766, 0x2361ed0a, 0x4c8ffa80, 0xb4bf680e, 0xdb517f84, 0x87ea0fc6, 0xe343f507);
  }

  lemma Steps36(r: Regs, x: seq<Word>)
    requires Letters(x) && RfcSteps(0, 36, r, x) == Regs(0xb4bf680e, 0x06a5e211, 0x2361ed0a, 0x4c8ffa80)
    ensures RfcSteps(0, 40, r, x) == Regs(0xb9c0c733, 0x8d41bf99, 0x23a9451b, 0xf1e6dc7a)
  {
    hide RfcF, RfcG, RfcH, RfcI, RotateLeft, RfcSteps;
    HValues();
    Rotations3();
    Advance(r, x, 36, 0xb4bf680e, 0x06a5e211, 0x2361ed0a, 0x4c8ffa80, 0x694bf59b, 0x2b31ae52, 0xb31ae522);
    Advance(r, x, 37, 0x4c8ffa80, 0xb9c0c733, 0x06a5e211, 0x2361ed0a, 0x9c04c828, 0xa8e704c2, 0x38261547);
    Advance(r, x, 38, 0x2361ed0a, 0xf1e6dc7a, 0xb9c0c733, 0x06a5e211, 0x4e83f958, 0x68a131c2, 0x31c268a1);
    Advance(r, x, 39, 0x06a5e211, 0x23a9451b, 0xf1e6dc7a, 0xb9c0c733, 0x6b8f5e52, 0x30f4fcd3, 0x69987a7e);
  }

  lemma Steps40(r: Regs, x: seq<Word>)
    requires Letters(x) && RfcSteps(0, 40, r, x) == Regs(0xb9c0c733, 0x8d41bf99, 0x23a9451b, 0xf1e6dc7a)
    ensures RfcSteps(0, 44, r, x) == Regs(0xa3e88ead, 0x90a35af5, 0x66f6468d, 0x02c0b11c)
  {
    hide RfcF, RfcG, RfcH, RfcI, RotateLeft, RfcSteps;
    HValues();
    Rotations3();
    Advance(r, x, 40, 0xb9c0c733, 0x8d41bf99, 0x23a9451b, 0xf1e6dc7a, 0x5f0e26f8, 0x416a6cf1, 0x16a6cf14);
    Advance(r, x, 41, 0xf1e6dc7a, 0xa3e88ead, 0x8d41bf99, 0x23a9451b, 0x0d00742f, 0x4debdb04, 0x5ed8226f);
    Advance(r, x, 42, 0x23a9451b, 0x02c0b11c, 0xa3e88ead, 0x8d41bf99, 0x2c698028, 0x95716435, 0x64359571);
    Advance(r, x, 43, 0x8d41bf99, 0x66f6468d, 0x02c0b11c, 0xa3e88ead, 0xc7de793c, 0x5a28d053, 0x29ad1468);
  }

  lemma Steps44(r: Regs, x: seq<Word>)
    requires Letters(x) && RfcSteps(0, 44, r, x) == Regs(0xa3e88ead, 0x90a35af5, 0x66f6468d, 0x02c0b11c)
    ensures RfcSteps(0, 48, r, x) == Regs(0xb5d41f9c, 0x71d10367, 0x703d54d8, 0xa04b4904)
  {
    hide RfcF, RfcG, RfcH, RfcI, RotateLeft, RfcSteps;
    HValues();
    Rotations3();
    Advance(r, x, 44, 0xa3e88ead, 0x90a35af5, 0x66f6468d, 0x02c0b11c, 0xf495ad64, 0x72530c4a, 0x2530c4a7);
    Advance(r, x, 45, 0x02c0b11c, 0xb5d41f9c, 0x90a35af5, 0x66f6468d, 0x438103e4, 0x2d1d4ee5, 0xea772968);
    Advance(r, x, 46, 0x66f6468d, 0xa04b4904, 0xb5d41f9c, 0x90a35af5, 0x853c0c6d, 0x0bd4cff2, 0xcff20bd4);
    Advance(r, x, 47, 0x90a35af5, 0x703d54d8, 0xa04b4904, 0xb5d41f9c, 0x65a20240, 0x275d1e03, 0x0193ae8f);
  }

  lemma IValues()
    ensures RfcI(0x71d10367, 0x703d54d8, 0xa04b4904) == 0x0fc8e327
    ensures RfcI(0xfc32dd6e, 0x71d10367, 0x703d54d8) == 0x8e23fc08
    ensures RfcI(0x65456b34, 0xfc32dd6e, 0x71d10367) == 0x135d22d2
    ensures RfcI(0xb35602cb, 0x65456b34, 0xfc32dd6e) == 0xd69a49ef
    ensures RfcI(0x33edb197, 0xb35602cb, 0x65456b34) == 0x08a9b714
    ensures RfcI(0xc1e942f1, 0x33edb197, 0xb35602cb) == 0xfe044e62
    ensures RfcI(0xd9bb987c, 0xc1e942f1, 0x33edb197) == 0x1c529c8d
    ensures RfcI(0x23a68048, 0xd9bb987c, 0xc1e942f1) == 0xe60d2532
    ensures RfcI(0x83877d1b, 0x23a68048, 0xd9bb987c) == 0x8461ffd3
    ensures RfcI(0x0077c208, 0x83877d1b, 0x23a68048) == 0x5ff882a4
    ensures RfcI(0x847fc2e7, 0x0077c208, 0x83877d1b) == 0xfc0800ef
    ensures RfcI(0xa3e2247f, 0x847fc2e7, 0x0077c208) == 0x7b95ff18
    ensures RfcI(0x5e6bc930, 0xa3e2247f, 0x847fc2e7) == 0xdc09d947
    ensures RfcI(0x708ed9c2, 0x5e6bc930, 0xa3e2247f) == 0x22f412f2
    ensures RfcI(0x2baf1354, 0x708ed9c2, 0x5e6bc930) == 0xdb31ee1d
    ensures RfcI(0xd38f1e7f, 0x2baf1354, 0x708ed9c2) == 0xf4502d2b
  {}

  lemma Rotations4()
    ensures RotateLeft(0x1e298768, 6) == 0x8a61da07
    ensures RotateLeft(0x719a44a3, 10) == 0x69128dc6
    ensures RotateLeft(0x2f2e9c21, 15) == 0x4e109797
    ensures RotateLeft(0xbd766404, 21) == 0x8097aecc
    ensures RotateLeft(0x6a37ee45, 6) == 0x8dfb915a
    ensures RotateLeft(0x62c5f495, 10) == 0x17d2558b
    ensures RotateLeft(0xcf9893d5, 15) == 0x49eae7cc
    ensures RotateLeft(0x07e69aff, 21) == 0x5fe0fcd3
    ensures RotateLeft(0xb5f3c113, 6) == 0x7cf044ed
    ensures RotateLeft(0x37e10200, 10) == 0x840800df
    ensures RotateLeft(0xc3303ec4, 15) == 0x1f626198
    ensures RotateLeft(0x4d258dd4, 21) == 0xba89a4b1
    ensures RotateLeft(0x48488c42, 6) == 0x12231092
    ensures RotateLeft(0x64aec80e, 10) == 0xbb203992
    ensures RotateLeft(0x16574fc0, 15) == 0xa7e00b2b
    ensures RotateLeft(0x3e42c9ec, 21) == 0x3d87c859
  {}

  lemma Steps48(r: Regs, x: seq<Word>)
    requires Letters(x) && RfcSteps(0, 48, r, x) == Regs(0xb5d41f9c, 0x71d10367, 0x703d54d8, 0xa04b4904)
    ensures RfcSteps(0, 52, r, x) == Regs(0xfc32dd6e, 0x33edb197, 0xb35602cb, 0x65456b34)
  {
    hide RfcF, RfcG, RfcH, RfcI, RotateLeft, RfcSteps;
    IValues();
    Rotations4();
    Advance(r, x, 48, 0xb5d41f9c, 0x71d10367, 0x703d54d8, 0xa04b4904, 0x0fc8e327, 0x1e298768, 0x8a61da07);
    Advance(r, x, 49, 0xa04b4904, 0xfc32dd6e, 0x71d10367, 0x703d54d8, 0x8e23fc08, 0x719a44a3, 0x69128dc6);
    Advance(r, x, 50, 0x703d54d8, 0x65456b34, 0xfc32dd6e, 0x71d10367, 0x135d22d2, 0x2f2e9c21, 0x4e109797);
    Advance(r, x, 51, 0x71d10367, 0xb35602cb, 0x65456b34, 0xfc32dd6e, 0xd69a49ef, 0xbd766404, 0x8097aecc);
  }

  lemma Steps52(r: Regs, x: seq<Word>)
    requires Letters(x) && RfcSteps(0, 52, r, x) == Regs(0xfc32dd6e, 0x33edb197, 0xb35602cb, 0x65456b34)
    ensures RfcSteps(0, 56, r, x) == Regs(0xc1e942f1, 0x83877d1b, 0x23a68048, 0xd9bb987c)
  {
    hide RfcF, RfcG, RfcH, RfcI, RotateLeft, RfcSteps;
    IValues();
    Rotations4();
    Advance(r, x, 52, 0xfc32dd6e, 0x33edb197, 0xb35602cb, 0x65456b34, 0x08a9b714, 0x6a37ee45, 0x8dfb915a);
    Advance(r, x, 53, 0x65456b34, 0xc1e942f1, 0x33edb197, 0xb35602cb, 0xfe044e62, 0x62c5f495, 0x17d2558b);
    Advance(r, x, 54, 0xb35602cb, 0xd9bb987c, 0xc1e942f1, 0x33edb197, 0x1c529c8d, 0xcf9893d5, 0x49eae7cc);
    Advance(r, x, 55, 0x33edb197, 0x23a68048, 0xd9bb987c, 0xc1e942f1, 0xe60d2532, 0x07e69aff, 0x5fe0fcd3);
  }

  lemma Steps56(r: Regs, x: seq<Word>)
    requires Letters(x) && RfcSteps(0, 56, r, x) == Regs(0xc1e942f1, 0x83877d1b, 0x23a68048, 0xd9bb987c)
    ensures RfcSteps(0, 60, r, x) == Regs(0x0077c208, 0x5e6bc930, 0xa3e2247f, 0x847fc2e7)
  {
    hide RfcF, RfcG, RfcH, RfcI, RotateLeft, RfcSteps;
    IValues();
    Rotations4();
    Advance(r, x, 56, 0xc1e942f1, 0x83877d1b, 0x23a68048, 0xd9bb987c, 0x8461ffd3, 0xb5f3c113, 0x7cf044ed);
    Advance(r, x, 57, 0xd9bb987c, 0x0077c208, 0x83877d1b, 0x23a68048, 0x5ff882a4, 0x37e10200, 0x840800df);
    Advance(r, x, 58, 0x23a68048, 0x847fc2e7, 0x0077c208, 0x83877d1b, 0xfc0800ef, 0xc3303ec4, 0x1f626198);
    Advance(r, x, 59, 0x83877d1b, 0xa3e2247f, 0x847fc2e7, 0x0077c208, 0x7b95ff18, 0x4d258dd4, 0xba89a4b1);
  }

  lemma Steps60(r: Regs, x: seq<Word>)
    requires Letters(x) && RfcSteps(0, 60, r, x) == Regs(0x0077c208, 0x5e6bc930, 0xa3e2247f, 0x847fc2e7)
    ensures RfcSteps(0, 64, r, x) == Regs(0x708ed9c2, 0x1116e6d8, 0xd38f1e7f, 0x2baf1354)
  {
    hide RfcF, RfcG, RfcH, RfcI, RotateLeft, RfcSteps;
    IValues();
    Rotations4();
    Advance(r, x, 60, 0x0077c208, 0x5e6bc930, 0xa3e2247f, 0x847fc2e7, 0xdc09d947, 0x48488c42, 0x12231092);
    Advance(r, x, 61, 0x847fc2e7, 0x708ed9c2, 0x5e6bc930, 0xa3e2247f, 0x22f412f2, 0x64aec80e, 0xbb203992);
    Advance(r, x, 62, 0xa3e2247f, 0x2baf1354, 0x708ed9c2, 0x5e6bc930, 0xdb31ee1d, 0x16574fc0, 0xa7e00b2b);
    Advance(r, x, 63, 0x5e6bc930, 0xd38f1e7f, 0x2baf1354, 0x708ed9c2, 0xf4502d2b, 0x3e42c9ec, 0x3d87c859);
  }

  lemma NoSteps(r: Regs, x: seq<Word>)
    requires |x| == 16
    ensures RfcSteps(0, 0, r, x) == r
  {}

  lemma AllSteps(r: Regs, x: seq<Word>)
    requires Letters(x) && r == IV
    ensures RfcSteps(0, 64, r, x) == Regs(0x708ed9c2, 0x1116e6d8, 0xd38f1e7f, 0x2baf1354)
  {
    hide RfcSteps, Letters;
    Steps0(r, x); Steps4(r, x); Steps8(r, x); Steps12(r, x);
    Steps16(r, x); Steps20(r, x); Steps24(r, x); Steps28(r, x);
    Steps32(r, x); Steps36(r, x); Steps40(r, x); Steps44(r, x);
    Steps48(r, x); Steps52(r, x); Steps56(r, x); Steps60(r, x);
  }

  lemma LettersAreWords(block: seq<Byte>)
    requires block == ALPHABET + Padding(26)
    ensures |block| == 64 && Letters(Words(block))
  {
    hide LengthBytes, LittleEndian;
    BytesOfAlphabet(block);
    WordsOf(block);
  }

  lemma BytesOfAlphabet(block: seq<Byte>)
    requires block == ALPHABET + Padding(26)
    ensures PaddedLetters(block)
  {
    hide LengthBytes;
    LengthOfAlphabet();
    assert block[56..] == LengthBytes(26);
    assert forall i :: 0 <= i < 8 ==> block[56 + i] == LengthBytes(26)[i];
  }

  ghost predicate PaddedLetters(block: seq<Byte>) {
    && |block| == 64
    && (forall i :: 0 <= i < 26 ==> block[i] == 97 + i)
    && block[26] == 0x80 && block[56] == 0xd0
    && forall i :: 27 <= i < 64 && i != 56 ==> block[i] == 0
  }

  lemma WordsOf(block: seq<Byte>)
    requires PaddedLetters(block)
    ensures Letters(Words(block))
  {}

  lemma LengthOfAlphabet()
    ensures LengthBytes(26) == [0xd0, 0, 0, 0, 0, 0, 0, 0]
  {}

  lemma RegistersOfAlphabet(block: seq<Byte>)
    requires block == ALPHABET + Padding(26)
    ensures |block| == 64 && Fold(IV, block) == FINAL
  {
    hide RfcSteps, Letters, Padding, Words, Fold;
    LettersAreWords(block);
    AllSteps(IV, Words(block));
    assert [] + block == block;
    FoldNothing(IV);
    FoldGrows(IV, [], block);
  }

  lemma OutputOfAlphabet()
    ensures Output(FINAL) == [
              0xc3, 0xfc, 0xd3, 0xd7, 0x61, 0x92, 0xe4, 0x00,
              0x7d, 0xfb, 0x49, 0x6c, 0xca, 0x67, 0xe1, 0x3b
            ]
  {
    hide LittleEndianBytes;
    BytesAreWord([0xc3, 0xfc, 0xd3, 0xd7], 0xd7d3fcc3);
    BytesAreWord([0x61, 0x92, 0xe4, 0x00], 0x00e49261);
    BytesAreWord([0x7d, 0xfb, 0x49, 0x6c], 0x6c49fb7d);
    BytesAreWord([0xca, 0x67, 0xe1, 0x3b], 0x3be167ca);
  }

  /** The digest of the alphabet is c3fcd3d76192e4007dfb496cca67e13b. */
  lemma DigestOfAlphabet()
    ensures Digest(ALPHABET) == [
              0xc3, 0xfc, 0xd3, 0xd7, 0x61, 0x92, 0xe4, 0x00,
              0x7d, 0xfb, 0x49, 0x6c, 0xca, 0x67, 0xe1, 0x3b
            ]
  {
    hide Fold, Padding, Output;
    RegistersOfAlphabet(ALPHABET + Padding(26));
    OutputOfAlphabet();
  }
}
