/** boot-crc.h: the table-driven CRC-32, and the bit-by-bit CRC it stands for. */
module BootCrc {

  const POLYNOMIAL: bv32 := 0xedb8_8320
  const ALL_ONES: bv32 := 0xffff_ffff

  function Xor(x: bv32, y: bv32): bv32 {
    x ^ y
  }

  function Widened(b: bv8): bv32 {
    b as bv32
  }

  /** One bit of section 8 of RFC 1952: divide by x, modulo the polynomial, low bit first. */
  function ShiftBit(crc: bv32): bv32 {
    if crc & 1 == 1 then (crc >> 1) ^ POLYNOMIAL else crc >> 1
  }

  function ShiftTwo(crc: bv32): bv32 {
    ShiftBit(ShiftBit(crc))
  }

  function ShiftFour(crc: bv32): bv32 {
    ShiftTwo(ShiftTwo(crc))
  }

  /** The eight bits of one byte. */
  function Shifted(crc: bv32): bv32 {
    ShiftFour(ShiftFour(crc))
  }

  /** The register after s, bit by bit. */
  function Register(crc: bv32, s: seq<bv8>): bv32 {
    if s == [] then crc else Shifted(Xor(Register(crc, s[..|s| - 1]), Widened(s[|s| - 1])))
  }

  /** The CRC of s continued from the CRC crc of what came before. */
  function CrcFrom(crc: bv32, s: seq<bv8>): bv32 {
    Xor(Register(Xor(crc, ALL_ONES), s), ALL_ONES)
  }

  function Crc(s: seq<bv8>): bv32 {
    CrcFrom(0, s)
  }

  // ----- Shifting is linear -----

  predicate Odd(x: bv32) {
    x & 1 == 1
  }

  function Half(x: bv32): bv32 {
    x >> 1
  }

  lemma ShiftBitParts(x: bv32)
    ensures ShiftBit(x) == if Odd(x) then Xor(Half(x), POLYNOMIAL) else Half(x)
  {
  }

  lemma HalfXor(x: bv32, y: bv32)
    ensures Half(Xor(x, y)) == Xor(Half(x), Half(y))
  {
  }

  lemma OddXor(x: bv32, y: bv32)
    ensures Odd(Xor(x, y)) <==> Odd(x) != Odd(y)
  {
  }

  lemma XorMoves(a: bv32, b: bv32, p: bv32)
    ensures Xor(Xor(a, p), b) == Xor(Xor(a, b), p) && Xor(a, Xor(b, p)) == Xor(Xor(a, b), p)
    ensures Xor(Xor(a, p), Xor(b, p)) == Xor(a, b)
  {
  }

  lemma ShiftBitLinear(x: bv32, y: bv32)
    ensures ShiftBit(Xor(x, y)) == Xor(ShiftBit(x), ShiftBit(y))
  {
    hide ShiftBit, Odd, Half, Xor;
    ShiftBitParts(x);
    ShiftBitParts(y);
    ShiftBitParts(Xor(x, y));
    HalfXor(x, y);
    OddXor(x, y);
    XorMoves(Half(x), Half(y), POLYNOMIAL);
  }

  lemma ShiftTwoLinear(x: bv32, y: bv32)
    ensures ShiftTwo(Xor(x, y)) == Xor(ShiftTwo(x), ShiftTwo(y))
  {
    hide ShiftBit, Xor;
    ShiftBitLinear(x, y);
    ShiftBitLinear(ShiftBit(x), ShiftBit(y));
  }

  lemma ShiftFourLinear(x: bv32, y: bv32)
    ensures ShiftFour(Xor(x, y)) == Xor(ShiftFour(x), ShiftFour(y))
  {
    hide ShiftTwo, Xor;
    ShiftTwoLinear(x, y);
    ShiftTwoLinear(ShiftTwo(x), ShiftTwo(y));
  }

  lemma ShiftedLinear(x: bv32, y: bv32)
    ensures Shifted(Xor(x, y)) == Xor(Shifted(x), Shifted(y))
  {
    hide ShiftFour, Xor;
    ShiftFourLinear(x, y);
    ShiftFourLinear(ShiftFour(x), ShiftFour(y));
  }

  // ----- The table -----

  const ROW0: seq<bv32> := [
    0x0000_0000, 0x7707_3096, 0xee0e_612c, 0x9909_51ba,
    0x076d_c419, 0x706a_f48f, 0xe963_a535, 0x9e64_95a3
  ]
  const ROW1: seq<bv32> := [
    0x0edb_8832, 0x79dc_b8a4, 0xe0d5_e91e, 0x97d2_d988,
    0x09b6_4c2b, 0x7eb1_7cbd, 0xe7b8_2d07, 0x90bf_1d91
  ]
  const ROW2: seq<bv32> := [
    0x1db7_1064, 0x6ab0_20f2, 0xf3b9_7148, 0x84be_41de,
    0x1ada_d47d, 0x6ddd_e4eb, 0xf4d4_b551, 0x83d3_85c7
  ]
  const ROW3: seq<bv32> := [
    0x136c_9856, 0x646b_a8c0, 0xfd62_f97a, 0x8a65_c9ec,
    0x1401_5c4f, 0x6306_6cd9, 0xfa0f_3d63, 0x8d08_0df5
  ]
  const ROW4: seq<bv32> := [
    0x3b6e_20c8, 0x4c69_105e, 0xd560_41e4, 0xa267_7172,
    0x3c03_e4d1, 0x4b04_d447, 0xd20d_85fd, 0xa50a_b56b
  ]
  const ROW5: seq<bv32> := [
    0x35b5_a8fa, 0x42b2_986c, 0xdbbb_c9d6, 0xacbc_f940,
    0x32d8_6ce3, 0x45df_5c75, 0xdcd6_0dcf, 0xabd1_3d59
  ]
  const ROW6: seq<bv32> := [
    0x26d9_30ac, 0x51de_003a, 0xc8d7_5180, 0xbfd0_6116,
    0x21b4_f4b5, 0x56b3_c423, 0xcfba_9599, 0xb8bd_a50f
  ]
  const ROW7: seq<bv32> := [
    0x2802_b89e, 0x5f05_8808, 0xc60c_d9b2, 0xb10b_e924,
    0x2f6f_7c87, 0x5868_4c11, 0xc161_1dab, 0xb666_2d3d
  ]
  const ROW8: seq<bv32> := [
    0x76dc_4190, 0x01db_7106, 0x98d2_20bc, 0xefd5_102a,
    0x71b1_8589, 0x06b6_b51f, 0x9fbf_e4a5, 0xe8b8_d433
  ]
  const ROW9: seq<bv32> := [
    0x7807_c9a2, 0x0f00_f934, 0x9609_a88e, 0xe10e_9818,
    0x7f6a_0dbb, 0x086d_3d2d, 0x9164_6c97, 0xe663_5c01
  ]
  const ROW10: seq<bv32> := [
    0x6b6b_51f4, 0x1c6c_6162, 0x8565_30d8, 0xf262_004e,
    0x6c06_95ed, 0x1b01_a57b, 0x8208_f4c1, 0xf50f_c457
  ]
  const ROW11: seq<bv32> := [
    0x65b0_d9c6, 0x12b7_e950, 0x8bbe_b8ea, 0xfcb9_887c,
    0x62dd_1ddf, 0x15da_2d49, 0x8cd3_7cf3, 0xfbd4_4c65
  ]
  const ROW12: seq<bv32> := [
    0x4db2_6158, 0x3ab5_51ce, 0xa3bc_0074, 0xd4bb_30e2,
    0x4adf_a541, 0x3dd8_95d7, 0xa4d1_c46d, 0xd3d6_f4fb
  ]
  const ROW13: seq<bv32> := [
    0x4369_e96a, 0x346e_d9fc, 0xad67_8846, 0xda60_b8d0,
    0x4404_2d73, 0x3303_1de5, 0xaa0a_4c5f, 0xdd0d_7cc9
  ]
  const ROW14: seq<bv32> := [
    0x5005_713c, 0x2702_41aa, 0xbe0b_1010, 0xc90c_2086,
    0x5768_b525, 0x206f_85b3, 0xb966_d409, 0xce61_e49f
  ]
  const ROW15: seq<bv32> := [
    0x5ede_f90e, 0x29d9_c998, 0xb0d0_9822, 0xc7d7_a8b4,
    0x59b3_3d17, 0x2eb4_0d81, 0xb7bd_5c3b, 0xc0ba_6cad
  ]
  const ROW16: seq<bv32> := [
    0xedb8_8320, 0x9abf_b3b6, 0x03b6_e20c, 0x74b1_d29a,
    0xead5_4739, 0x9dd2_77af, 0x04db_2615, 0x73dc_1683
  ]
  const ROW17: seq<bv32> := [
    0xe363_0b12, 0x9464_3b84, 0x0d6d_6a3e, 0x7a6a_5aa8,
    0xe40e_cf0b, 0x9309_ff9d, 0x0a00_ae27, 0x7d07_9eb1
  ]
  const ROW18: seq<bv32> := [
    0xf00f_9344, 0x8708_a3d2, 0x1e01_f268, 0x6906_c2fe,
    0xf762_575d, 0x8065_67cb, 0x196c_3671, 0x6e6b_06e7
  ]
  const ROW19: seq<bv32> := [
    0xfed4_1b76, 0x89d3_2be0, 0x10da_7a5a, 0x67dd_4acc,
    0xf9b9_df6f, 0x8ebe_eff9, 0x17b7_be43, 0x60b0_8ed5
  ]
  const ROW20: seq<bv32> := [
    0xd6d6_a3e8, 0xa1d1_937e, 0x38d8_c2c4, 0x4fdf_f252,
    0xd1bb_67f1, 0xa6bc_5767, 0x3fb5_06dd, 0x48b2_364b
  ]
  const ROW21: seq<bv32> := [
    0xd80d_2bda, 0xaf0a_1b4c, 0x3603_4af6, 0x4104_7a60,
    0xdf60_efc3, 0xa867_df55, 0x316e_8eef, 0x4669_be79
  ]
  const ROW22: seq<bv32> := [
    0xcb61_b38c, 0xbc66_831a, 0x256f_d2a0, 0x5268_e236,
    0xcc0c_7795, 0xbb0b_4703, 0x2202_16b9, 0x5505_262f
  ]
  const ROW23: seq<bv32> := [
    0xc5ba_3bbe, 0xb2bd_0b28, 0x2bb4_5a92, 0x5cb3_6a04,
    0xc2d7_ffa7, 0xb5d0_cf31, 0x2cd9_9e8b, 0x5bde_ae1d
  ]
  const ROW24: seq<bv32> := [
    0x9b64_c2b0, 0xec63_f226, 0x756a_a39c, 0x026d_930a,
    0x9c09_06a9, 0xeb0e_363f, 0x7207_6785, 0x0500_5713
  ]
  const ROW25: seq<bv32> := [
    0x95bf_4a82, 0xe2b8_7a14, 0x7bb1_2bae, 0x0cb6_1b38,
    0x92d2_8e9b, 0xe5d5_be0d, 0x7cdc_efb7, 0x0bdb_df21
  ]
  const ROW26: seq<bv32> := [
    0x86d3_d2d4, 0xf1d4_e242, 0x68dd_b3f8, 0x1fda_836e,
    0x81be_16cd, 0xf6b9_265b, 0x6fb0_77e1, 0x18b7_4777
  ]
  const ROW27: seq<bv32> := [
    0x8808_5ae6, 0xff0f_6a70, 0x6606_3bca, 0x1101_0b5c,
    0x8f65_9eff, 0xf862_ae69, 0x616b_ffd3, 0x166c_cf45
  ]
  const ROW28: seq<bv32> := [
    0xa00a_e278, 0xd70d_d2ee, 0x4e04_8354, 0x3903_b3c2,
    0xa767_2661, 0xd060_16f7, 0x4969_474d, 0x3e6e_77db
  ]
  const ROW29: seq<bv32> := [
    0xaed1_6a4a, 0xd9d6_5adc, 0x40df_0b66, 0x37d8_3bf0,
    0xa9bc_ae53, 0xdebb_9ec5, 0x47b2_cf7f, 0x30b5_ffe9
  ]
  const ROW30: seq<bv32> := [
    0xbdbd_f21c, 0xcaba_c28a, 0x53b3_9330, 0x24b4_a3a6,
    0xbad0_3605, 0xcdd7_0693, 0x54de_5729, 0x23d9_67bf
  ]
  const ROW31: seq<bv32> := [
    0xb366_7a2e, 0xc461_4ab8, 0x5d68_1b02, 0x2a6f_2b94,
    0xb40b_be37, 0xc30c_8ea1, 0x5a05_df1b, 0x2d02_ef8d
  ]

  /** crc32_tab, in rows of eight. */
  function Row(h: nat): (row: seq<bv32>)
    requires h < 32
    ensures |row| == 8
  {
    if h == 0 then ROW0
    else if h == 1 then ROW1
    else if h == 2 then ROW2
    else if h == 3 then ROW3
    else if h == 4 then ROW4
    else if h == 5 then ROW5
    else if h == 6 then ROW6
    else if h == 7 then ROW7
    else if h == 8 then ROW8
    else if h == 9 then ROW9
    else if h == 10 then ROW10
    else if h == 11 then ROW11
    else if h == 12 then ROW12
    else if h == 13 then ROW13
    else if h == 14 then ROW14
    else if h == 15 then ROW15
    else if h == 16 then ROW16
    else if h == 17 then ROW17
    else if h == 18 then ROW18
    else if h == 19 then ROW19
    else if h == 20 then ROW20
    else if h == 21 then ROW21
    else if h == 22 then ROW22
    else if h == 23 then ROW23
    else if h == 24 then ROW24
    else if h == 25 then ROW25
    else if h == 26 then ROW26
    else if h == 27 then ROW27
    else if h == 28 then ROW28
    else if h == 29 then ROW29
    else if h == 30 then ROW30
    else ROW31
  }

  function Crc32Tab(k: nat): bv32
    requires k < 256
  {
    Row(k / 8)[k % 8]
  }

  /** Each row starts with the register after its first index ... */
  lemma RowStarts()
    ensures ROW0[0] == Shifted(0) && ROW1[0] == Shifted(8) && ROW2[0] == Shifted(16) && ROW3[0] == Shifted(24)
    ensures ROW4[0] == Shifted(32) && ROW5[0] == Shifted(40) && ROW6[0] == Shifted(48) && ROW7[0] == Shifted(56)
    ensures ROW8[0] == Shifted(64) && ROW9[0] == Shifted(72) && ROW10[0] == Shifted(80) && ROW11[0] == Shifted(88)
    ensures ROW12[0] == Shifted(96) && ROW13[0] == Shifted(104) && ROW14[0] == Shifted(112) && ROW15[0] == Shifted(120)
    ensures ROW16[0] == Shifted(128) && ROW17[0] == Shifted(136) && ROW18[0] == Shifted(144) && ROW19[0] == Shifted(152)
    ensures ROW20[0] == Shifted(160) && ROW21[0] == Shifted(168) && ROW22[0] == Shifted(176) && ROW23[0] == Shifted(184)
    ensures ROW24[0] == Shifted(192) && ROW25[0] == Shifted(200) && ROW26[0] == Shifted(208) && ROW27[0] == Shifted(216)
    ensures ROW28[0] == Shifted(224) && ROW29[0] == Shifted(232) && ROW30[0] == Shifted(240) && ROW31[0] == Shifted(248)
  {
  }

  /** ... and goes on as the first row does, shifted by where it starts. */
  function RowFrom(b: bv32): seq<bv32> {
    [Xor(b, ROW0[0]), Xor(b, ROW0[1]), Xor(b, ROW0[2]), Xor(b, ROW0[3]),
     Xor(b, ROW0[4]), Xor(b, ROW0[5]), Xor(b, ROW0[6]), Xor(b, ROW0[7])]
  }

  lemma RowsFollow()
    ensures ROW0 == RowFrom(ROW0[0]) && ROW1 == RowFrom(ROW1[0]) && ROW2 == RowFrom(ROW2[0]) && ROW3 == RowFrom(ROW3[0])
    ensures ROW4 == RowFrom(ROW4[0]) && ROW5 == RowFrom(ROW5[0]) && ROW6 == RowFrom(ROW6[0]) && ROW7 == RowFrom(ROW7[0])
    ensures ROW8 == RowFrom(ROW8[0]) && ROW9 == RowFrom(ROW9[0]) && ROW10 == RowFrom(ROW10[0])
    ensures ROW11 == RowFrom(ROW11[0])
    ensures ROW12 == RowFrom(ROW12[0]) && ROW13 == RowFrom(ROW13[0]) && ROW14 == RowFrom(ROW14[0])
    ensures ROW15 == RowFrom(ROW15[0])
    ensures ROW16 == RowFrom(ROW16[0]) && ROW17 == RowFrom(ROW17[0]) && ROW18 == RowFrom(ROW18[0])
    ensures ROW19 == RowFrom(ROW19[0])
    ensures ROW20 == RowFrom(ROW20[0]) && ROW21 == RowFrom(ROW21[0]) && ROW22 == RowFrom(ROW22[0])
    ensures ROW23 == RowFrom(ROW23[0])
    ensures ROW24 == RowFrom(ROW24[0]) && ROW25 == RowFrom(ROW25[0]) && ROW26 == RowFrom(ROW26[0])
    ensures ROW27 == RowFrom(ROW27[0])
    ensures ROW28 == RowFrom(ROW28[0]) && ROW29 == RowFrom(ROW29[0]) && ROW30 == RowFrom(ROW30[0])
    ensures ROW31 == RowFrom(ROW31[0])
  {
  }

  function NatOf(x: bv32): nat {
    x as nat
  }

  function BitsOf(k: nat): bv32
    requires k < 256
  {
    k as bv32
  }

  lemma FirstEntries()
    ensures ROW0 == [Shifted(0), Shifted(1), Shifted(2), Shifted(3), Shifted(4), Shifted(5), Shifted(6), Shifted(7)]
  {
  }

  lemma FirstRow(l: nat)
    requires l < 8
    ensures ROW0[l] == Shifted(BitsOf(l))
  {
    hide Shifted;
    FirstEntries();
    if l == 0 {
      assert BitsOf(l) == 0;
    } else if l == 1 {
      assert BitsOf(l) == 1;
    } else if l == 2 {
      assert BitsOf(l) == 2;
    } else if l == 3 {
      assert BitsOf(l) == 3;
    } else if l == 4 {
      assert BitsOf(l) == 4;
    } else if l == 5 {
      assert BitsOf(l) == 5;
    } else if l == 6 {
      assert BitsOf(l) == 6;
    } else {
      assert BitsOf(l) == 7;
    }
  }

  function RowBase(h: bv32): bv32 {
    h << 3
  }

  lemma RowIs(h: nat)
    requires h < 32
    ensures Row(h)[0] == Shifted(RowBase(BitsOf(h))) && Row(h) == RowFrom(Row(h)[0])
  {
    hide Shifted, RowFrom, RowBase, Row;
    EachRowIs(h);
  }

  lemma EachRowIs(h: nat)
    requires h < 32
    ensures Row(h)[0] == Shifted(RowBase(h as bv32)) && Row(h) == RowFrom(Row(h)[0])
  {
    hide Shifted, RowFrom;
    RowStarts();
    RowsFollow();
    if h == 0 {
      assert RowBase(h as bv32) == 0;
    } else if h == 1 {
      assert RowBase(h as bv32) == 8;
    } else if h == 2 {
      assert RowBase(h as bv32) == 16;
    } else if h == 3 {
      assert RowBase(h as bv32) == 24;
    } else if h == 4 {
      assert RowBase(h as bv32) == 32;
    } else if h == 5 {
      assert RowBase(h as bv32) == 40;
    } else if h == 6 {
      assert RowBase(h as bv32) == 48;
    } else if h == 7 {
      assert RowBase(h as bv32) == 56;
    } else if h == 8 {
      assert RowBase(h as bv32) == 64;
    } else if h == 9 {
      assert RowBase(h as bv32) == 72;
    } else if h == 10 {
      assert RowBase(h as bv32) == 80;
    } else if h == 11 {
      assert RowBase(h as bv32) == 88;
    } else if h == 12 {
      assert RowBase(h as bv32) == 96;
    } else if h == 13 {
      assert RowBase(h as bv32) == 104;
    } else if h == 14 {
      assert RowBase(h as bv32) == 112;
    } else if h == 15 {
      assert RowBase(h as bv32) == 120;
    } else if h == 16 {
      assert RowBase(h as bv32) == 128;
    } else if h == 17 {
      assert RowBase(h as bv32) == 136;
    } else if h == 18 {
      assert RowBase(h as bv32) == 144;
    } else if h == 19 {
      assert RowBase(h as bv32) == 152;
    } else if h == 20 {
      assert RowBase(h as bv32) == 160;
    } else if h == 21 {
      assert RowBase(h as bv32) == 168;
    } else if h == 22 {
      assert RowBase(h as bv32) == 176;
    } else if h == 23 {
      assert RowBase(h as bv32) == 184;
    } else if h == 24 {
      assert RowBase(h as bv32) == 192;
    } else if h == 25 {
      assert RowBase(h as bv32) == 200;
    } else if h == 26 {
      assert RowBase(h as bv32) == 208;
    } else if h == 27 {
      assert RowBase(h as bv32) == 216;
    } else if h == 28 {
      assert RowBase(h as bv32) == 224;
    } else if h == 29 {
      assert RowBase(h as bv32) == 232;
    } else if h == 30 {
      assert RowBase(h as bv32) == 240;
    } else {
      assert RowBase(h as bv32) == 248;
    }
  }

  function RowNumber(x: bv32): bv32 {
    x >> 3
  }

  function Column(x: bv32): bv32 {
    x & 7
  }

  /** A byte as row and column. */
  lemma RowAndColumn(x: bv32) returns (h: nat, l: nat)
    requires x <= 0xff
    ensures h == NatOf(RowNumber(x)) && l == NatOf(Column(x)) && NatOf(x) == 8 * h + l && h < 32 && l < 8
  {
    h, l := NatOf(RowNumber(x)), NatOf(Column(x));
  }

  lemma Rejoined(x: bv32)
    requires x <= 0xff
    ensures Xor(RowBase(RowNumber(x)), Column(x)) == x
  {
  }

  lemma BackAgain(x: bv32)
    requires NatOf(x) < 256
    ensures BitsOf(NatOf(x)) == x
  {
  }

  lemma RowFromAt(b: bv32, l: nat)
    requires l < 8
    ensures RowFrom(b)[l] == Xor(b, ROW0[l])
  {
    hide Xor;
  }

  /** Every entry of crc32_tab is the register after its index as a byte. */
  lemma TableIsShifted(x: bv32)
    requires x <= 0xff
    ensures NatOf(x) < 256 && Crc32Tab(NatOf(x)) == Shifted(x)
  {
    hide Shifted, Xor, Row, RowFrom, RowBase, RowNumber, Column, NatOf, BitsOf;
    var h, l := RowAndColumn(x);
    assert NatOf(x) / 8 == h && NatOf(x) % 8 == l;
    RowIs(h);
    BackAgain(RowNumber(x));
    BackAgain(Column(x));
    FirstRow(l);
    RowFromAt(Row(h)[0], l);
    ShiftedLinear(RowBase(RowNumber(x)), Column(x));
    Rejoined(x);
  }

  function LowByte(x: bv32): (k: nat)
    ensures k < 256
  {
    LowByteFits(x);
    NatOf(x & 0xff)
  }

  lemma LowByteFits(x: bv32)
    ensures NatOf(x & 0xff) < 256
  {
  }

  /** One turn of crc32_inc's loop. */
  function TableStep(crc: bv32, b: bv8): bv32 {
    Xor(Crc32Tab(LowByte(Xor(crc, Widened(b)))), crc >> 8)
  }

  lemma SplitByte(x: bv32)
    ensures x == Xor(x & 0xff, x & 0xffff_ff00)
  {
  }

  /** Zero bits are only shifted out. */
  lemma ShiftedHigh(x: bv32)
    ensures Shifted(x & 0xffff_ff00) == x >> 8
  {
  }

  lemma ByteAbove(x: bv32, b: bv8)
    ensures Xor(x, Widened(b)) >> 8 == x >> 8
  {
  }

  lemma LookupIsShifted(x: bv32)
    ensures Xor(Crc32Tab(LowByte(x)), x >> 8) == Shifted(x)
  {
    hide Shifted, Crc32Tab, Xor;
    TableIsShifted(x & 0xff);
    SplitByte(x);
    ShiftedLinear(x & 0xff, x & 0xffff_ff00);
    ShiftedHigh(x);
  }

  /** A table lookup does the work of eight bit steps. */
  lemma TableStepIsShifted(crc: bv32, b: bv8)
    ensures TableStep(crc, b) == Shifted(Xor(crc, Widened(b)))
  {
    hide Shifted, Crc32Tab, LowByte, Xor, Widened;
    LookupIsShifted(Xor(crc, Widened(b)));
    ByteAbove(crc, b);
  }

  // ----- The whole CRC -----

  /** crc32_inc */
  method Crc32Inc(buf: seq<bv8>, crc0: bv32) returns (crc: bv32)
    ensures crc == CrcFrom(crc0, buf)
  {
    hide Shifted, TableStep, Xor, Widened;
    crc := Xor(crc0, ALL_ONES);
    for i := 0 to |buf|
      invariant crc == Register(Xor(crc0, ALL_ONES), buf[..i])
    {
      TableStepIsShifted(crc, buf[i]);
      assert buf[..i + 1][..i] == buf[..i];
      crc := TableStep(crc, buf[i]);
    }
    assert buf[..|buf|] == buf;
    crc := Xor(crc, ALL_ONES);
  }

  lemma {:induction false} RegisterAppend(crc: bv32, s: seq<bv8>, t: seq<bv8>)
    ensures Register(crc, s + t) == Register(Register(crc, s), t)
    decreases |t|
  {
    hide Shifted, Xor, Widened;
    if t == [] {
      assert s + t == s;
    } else {
      assert (s + t)[..|s + t| - 1] == s + t[..|t| - 1];
      RegisterAppend(crc, s, t[..|t| - 1]);
    }
  }

  lemma XorTwice(x: bv32, y: bv32)
    ensures Xor(Xor(x, y), y) == x
  {
  }

  /** A CRC can be computed piece by piece. */
  lemma CrcComposes(crc: bv32, s: seq<bv8>, t: seq<bv8>)
    ensures CrcFrom(CrcFrom(crc, s), t) == CrcFrom(crc, s + t)
  {
    hide Xor;
    RegisterAppend(Xor(crc, ALL_ONES), s, t);
    XorTwice(Register(Xor(crc, ALL_ONES), s), ALL_ONES);
  }

  // ----- What it detects -----

  lemma Halves(x: bv32, y: bv32)
    requires Odd(x) == Odd(y) && Half(x) == Half(y)
    ensures x == y
  {
  }

  predicate TopBit(x: bv32) {
    x & 0x8000_0000 != 0
  }

  lemma TopBits(x: bv32)
    ensures !TopBit(Half(x)) && TopBit(Xor(Half(x), POLYNOMIAL))
  {
  }

  /** A shift loses nothing: the polynomial's top bit tells which branch it took. */
  lemma ShiftBitInjective(x: bv32, y: bv32)
    requires ShiftBit(x) == ShiftBit(y)
    ensures x == y
  {
    hide ShiftBit, Odd, Half, Xor, TopBit;
    ShiftBitParts(x);
    ShiftBitParts(y);
    TopBits(x);
    TopBits(y);
    XorTwice(Half(x), POLYNOMIAL);
    XorTwice(Half(y), POLYNOMIAL);
    Halves(x, y);
  }

  lemma ShiftTwoInjective(x: bv32, y: bv32)
    requires ShiftTwo(x) == ShiftTwo(y)
    ensures x == y
  {
    hide ShiftBit;
    ShiftBitInjective(ShiftBit(x), ShiftBit(y));
    ShiftBitInjective(x, y);
  }

  lemma ShiftFourInjective(x: bv32, y: bv32)
    requires ShiftFour(x) == ShiftFour(y)
    ensures x == y
  {
    hide ShiftTwo;
    ShiftTwoInjective(ShiftTwo(x), ShiftTwo(y));
    ShiftTwoInjective(x, y);
  }

  lemma ShiftedInjective(x: bv32, y: bv32)
    requires Shifted(x) == Shifted(y)
    ensures x == y
  {
    hide ShiftFour;
    ShiftFourInjective(ShiftFour(x), ShiftFour(y));
    ShiftFourInjective(x, y);
  }

  lemma XorInjective(x: bv32, y: bv32, z: bv32)
    requires Xor(x, z) == Xor(y, z)
    ensures x == y
  {
    hide Xor;
    XorTwice(x, z);
    XorTwice(y, z);
  }

  lemma WidenedInjective(x: bv32, a: bv8, b: bv8)
    requires Xor(x, Widened(a)) == Xor(x, Widened(b))
    ensures a == b
  {
  }

  /** Registers that differ stay different whatever follows. */
  lemma {:induction false} RegisterInjective(x: bv32, y: bv32, s: seq<bv8>)
    requires Register(x, s) == Register(y, s)
    ensures x == y
    decreases |s|
  {
    hide Shifted, Xor, Widened;
    if s != [] {
      var (rest, b) := (s[..|s| - 1], Widened(s[|s| - 1]));
      ShiftedInjective(Xor(Register(x, rest), b), Xor(Register(y, rest), b));
      XorInjective(Register(x, rest), Register(y, rest), b);
      RegisterInjective(x, y, rest);
    }
  }

  /** Changing one byte of an image always changes its CRC. */
  lemma OneByteDetected(s: seq<bv8>, a: bv8, b: bv8, t: seq<bv8>)
    requires Crc(s + [a] + t) == Crc(s + [b] + t)
    ensures a == b
  {
    hide Shifted, Xor, Widened;
    var r0 := Xor(0, ALL_ONES);
    var r := Register(r0, s);
    RegisterAppend(r0, s + [a], t);
    RegisterAppend(r0, s + [b], t);
    RegisterAppend(r0, s, [a]);
    RegisterAppend(r0, s, [b]);
    XorInjective(Register(Register(r, [a]), t), Register(Register(r, [b]), t), ALL_ONES);
    RegisterInjective(Register(r, [a]), Register(r, [b]), t);
    assert [a][..0] == [] && [b][..0] == [];
    ShiftedInjective(Xor(r, Widened(a)), Xor(r, Widened(b)));
    WidenedInjective(r, a, b);
  }
}
