/** The lookup tables of aes/aes.c and the GF(2^8) algebra behind them.

    The source stores each table as octets. Here a run of sixteen octets (the entries
    whose index shares its upper nibble) is written as one 128-bit word, leftmost octet first,
    so that a lookup is a shift and a mask. */
module AesTables {
  import opened Octets

  // The octet at position lo of a row.
  function Entry(row: bv128, lo: bv8): bv8
    requires lo < 16
  {
    ((row >> (120 - 8 * lo)) & 0xff) as bv8
  }

  // aes_sbox
  function SboxRow(hi: bv8): bv128 {
    match hi
    case 0x0 => 0x637c777b_f26b6fc5_3001672b_fed7ab76
    case 0x1 => 0xca82c97d_fa5947f0_add4a2af_9ca472c0
    case 0x2 => 0xb7fd9326_363ff7cc_34a5e5f1_71d83115
    case 0x3 => 0x04c723c3_1896059a_071280e2_eb27b275
    case 0x4 => 0x09832c1a_1b6e5aa0_523bd6b3_29e32f84
    case 0x5 => 0x53d100ed_20fcb15b_6acbbe39_4a4c58cf
    case 0x6 => 0xd0efaafb_434d3385_45f9027f_503c9fa8
    case 0x7 => 0x51a3408f_929d38f5_bcb6da21_10fff3d2
    case 0x8 => 0xcd0c13ec_5f974417_c4a77e3d_645d1973
    case 0x9 => 0x60814fdc_222a9088_46eeb814_de5e0bdb
    case 0xa => 0xe0323a0a_4906245c_c2d3ac62_9195e479
    case 0xb => 0xe7c8376d_8dd54ea9_6c56f4ea_657aae08
    case 0xc => 0xba78252e_1ca6b4c6_e8dd741f_4bbd8b8a
    case 0xd => 0x703eb566_4803f60e_613557b9_86c11d9e
    case 0xe => 0xe1f89811_69d98e94_9b1e87e9_ce5528df
    case _   => 0x8ca1890d_bfe64268_41992d0f_b054bb16
  }

  // aes_invsbox
  function InvSboxRow(hi: bv8): bv128 {
    match hi
    case 0x0 => 0x52096ad5_3036a538_bf40a39e_81f3d7fb
    case 0x1 => 0x7ce33982_9b2fff87_348e4344_c4dee9cb
    case 0x2 => 0x547b9432_a6c2233d_ee4c950b_42fac34e
    case 0x3 => 0x082ea166_28d924b2_765ba249_6d8bd125
    case 0x4 => 0x72f8f664_86689816_d4a45ccc_5d65b692
    case 0x5 => 0x6c704850_fdedb9da_5e154657_a78d9d84
    case 0x6 => 0x90d8ab00_8cbcd30a_f7e45805_b8b34506
    case 0x7 => 0xd02c1e8f_ca3f0f02_c1afbd03_01138a6b
    case 0x8 => 0x3a911141_4f67dcea_97f2cfce_f0b4e673
    case 0x9 => 0x96ac7422_e7ad3585_e2f937e8_1c75df6e
    case 0xa => 0x47f11a71_1d29c589_6fb7620e_aa18be1b
    case 0xb => 0xfc563e4b_c6d27920_9adbc0fe_78cd5af4
    case 0xc => 0x1fdda833_8807c731_b1121059_2780ec5f
    case 0xd => 0x60517fa9_19b54a0d_2de57a9f_93c99cef
    case 0xe => 0xa0e03b4d_ae2af5b0_c8ebbb3c_83539961
    case _   => 0x172b047e_ba77d626_e1691463_55210c7d
  }

  // gf_mul, column 0: multiplication by {02}
  function Gf02Row(hi: bv8): bv128 {
    match hi
    case 0x0 => 0x00020406_080a0c0e_10121416_181a1c1e
    case 0x1 => 0x20222426_282a2c2e_30323436_383a3c3e
    case 0x2 => 0x40424446_484a4c4e_50525456_585a5c5e
    case 0x3 => 0x60626466_686a6c6e_70727476_787a7c7e
    case 0x4 => 0x80828486_888a8c8e_90929496_989a9c9e
    case 0x5 => 0xa0a2a4a6_a8aaacae_b0b2b4b6_b8babcbe
    case 0x6 => 0xc0c2c4c6_c8caccce_d0d2d4d6_d8dadcde
    case 0x7 => 0xe0e2e4e6_e8eaecee_f0f2f4f6_f8fafcfe
    case 0x8 => 0x1b191f1d_13111715_0b090f0d_03010705
    case 0x9 => 0x3b393f3d_33313735_2b292f2d_23212725
    case 0xa => 0x5b595f5d_53515755_4b494f4d_43414745
    case 0xb => 0x7b797f7d_73717775_6b696f6d_63616765
    case 0xc => 0x9b999f9d_93919795_8b898f8d_83818785
    case 0xd => 0xbbb9bfbd_b3b1b7b5_aba9afad_a3a1a7a5
    case 0xe => 0xdbd9dfdd_d3d1d7d5_cbc9cfcd_c3c1c7c5
    case _   => 0xfbf9fffd_f3f1f7f5_ebe9efed_e3e1e7e5
  }

  // gf_mul, column 1: multiplication by {03}
  function Gf03Row(hi: bv8): bv128 {
    match hi
    case 0x0 => 0x00030605_0c0f0a09_181b1e1d_14171211
    case 0x1 => 0x30333635_3c3f3a39_282b2e2d_24272221
    case 0x2 => 0x60636665_6c6f6a69_787b7e7d_74777271
    case 0x3 => 0x50535655_5c5f5a59_484b4e4d_44474241
    case 0x4 => 0xc0c3c6c5_cccfcac9_d8dbdedd_d4d7d2d1
    case 0x5 => 0xf0f3f6f5_fcfffaf9_e8ebeeed_e4e7e2e1
    case 0x6 => 0xa0a3a6a5_acafaaa9_b8bbbebd_b4b7b2b1
    case 0x7 => 0x90939695_9c9f9a99_888b8e8d_84878281
    case 0x8 => 0x9b989d9e_97949192_83808586_8f8c898a
    case 0x9 => 0xaba8adae_a7a4a1a2_b3b0b5b6_bfbcb9ba
    case 0xa => 0xfbf8fdfe_f7f4f1f2_e3e0e5e6_efece9ea
    case 0xb => 0xcbc8cdce_c7c4c1c2_d3d0d5d6_dfdcd9da
    case 0xc => 0x5b585d5e_57545152_43404546_4f4c494a
    case 0xd => 0x6b686d6e_67646162_73707576_7f7c797a
    case 0xe => 0x3b383d3e_37343132_23202526_2f2c292a
    case _   => 0x0b080d0e_07040102_13101516_1f1c191a
  }

  // gf_mul, column 2: multiplication by {09}
  function Gf09Row(hi: bv8): bv128 {
    match hi
    case 0x0 => 0x0009121b_242d363f_48415a53_6c657e77
    case 0x1 => 0x9099828b_b4bda6af_d8d1cac3_fcf5eee7
    case 0x2 => 0x3b322920_1f160d04_737a6168_575e454c
    case 0x3 => 0xaba2b9b0_8f869d94_e3eaf1f8_c7ced5dc
    case 0x4 => 0x767f646d_525b4049_3e372c25_1a130801
    case 0x5 => 0xe6eff4fd_c2cbd0d9_aea7bcb5_8a839891
    case 0x6 => 0x4d445f56_69607b72_050c171e_2128333a
    case 0x7 => 0xddd4cfc6_f9f0ebe2_959c878e_b1b8a3aa
    case 0x8 => 0xece5fef7_c8c1dad3_a4adb6bf_8089929b
    case 0x9 => 0x7c756e67_58514a43_343d262f_1019020b
    case 0xa => 0xd7dec5cc_f3fae1e8_9f968d84_bbb2a9a0
    case 0xb => 0x474e555c_636a7178_0f061d14_2b223930
    case 0xc => 0x9a938881_beb7aca5_d2dbc0c9_f6ffe4ed
    case 0xd => 0x0a031811_2e273c35_424b5059_666f747d
    case 0xe => 0xa1a8b3ba_858c979e_e9e0fbf2_cdc4dfd6
    case _   => 0x3138232a_151c070e_79706b62_5d544f46
  }

  // gf_mul, column 3: multiplication by {0b}
  function Gf0BRow(hi: bv8): bv128 {
    match hi
    case 0x0 => 0x000b161d_2c273a31_58534e45_747f6269
    case 0x1 => 0xb0bba6ad_9c978a81_e8e3fef5_c4cfd2d9
    case 0x2 => 0x7b706d66_575c414a_2328353e_0f041912
    case 0x3 => 0xcbc0ddd6_e7ecf1fa_9398858e_bfb4a9a2
    case 0x4 => 0xf6fde0eb_dad1ccc7_aea5b8b3_8289949f
    case 0x5 => 0x464d505b_6a617c77_1e150803_3239242f
    case 0x6 => 0x8d869b90_a1aab7bc_d5dec3c8_f9f2efe4
    case 0x7 => 0x3d362b20_111a070c_656e7378_49425f54
    case 0x8 => 0xf7fce1ea_dbd0cdc6_afa4b9b2_8388959e
    case 0x9 => 0x474c515a_6b607d76_1f140902_3338252e
    case 0xa => 0x8c879a91_a0abb6bd_d4dfc2c9_f8f3eee5
    case 0xb => 0x3c372a21_101b060d_646f7279_48435e55
    case 0xc => 0x010a171c_2d263b30_59524f44_757e6368
    case 0xd => 0xb1baa7ac_9d968b80_e9e2fff4_c5ced3d8
    case 0xe => 0x7a716c67_565d404b_2229343f_0e051813
    case _   => 0xcac1dcd7_e6edf0fb_9299848f_beb5a8a3
  }

  // gf_mul, column 4: multiplication by {0d}
  function Gf0DRow(hi: bv8): bv128 {
    match hi
    case 0x0 => 0x000d1a17_34392e23_6865727f_5c51464b
    case 0x1 => 0xd0ddcac7_e4e9fef3_b8b5a2af_8c81969b
    case 0x2 => 0xbbb6a1ac_8f829598_d3dec9c4_e7eafdf0
    case 0x3 => 0x6b66717c_5f524548_030e1914_373a2d20
    case 0x4 => 0x6d60777a_5954434e_05081f12_313c2b26
    case 0x5 => 0xbdb0a7aa_8984939e_d5d8cfc2_e1ecfbf6
    case 0x6 => 0xd6dbccc1_e2eff8f5_beb3a4a9_8a87909d
    case 0x7 => 0x060b1c11_323f2825_6e637479_5a57404d
    case 0x8 => 0xdad7c0cd_eee3f4f9_b2bfa8a5_868b9c91
    case 0x9 => 0x0a07101d_3e332429_626f7875_565b4c41
    case 0xa => 0x616c7b76_55584f42_0904131e_3d30272a
    case 0xb => 0xb1bcaba6_85889f92_d9d4c3ce_ede0f7fa
    case 0xc => 0xb7baada0_838e9994_dfd2c5c8_ebe6f1fc
    case 0xd => 0x676a7d70_535e4944_0f021518_3b36212c
    case 0xe => 0x0c01161b_3835222f_64697e73_505d4a47
    case _   => 0xdcd1c6cb_e8e5f2ff_b4b9aea3_808d9a97
  }

  // gf_mul, column 5: multiplication by {0e}
  function Gf0ERow(hi: bv8): bv128 {
    match hi
    case 0x0 => 0x000e1c12_3836242a_707e6c62_4846545a
    case 0x1 => 0xe0eefcf2_d8d6c4ca_909e8c82_a8a6b4ba
    case 0x2 => 0xdbd5c7c9_e3edfff1_aba5b7b9_939d8f81
    case 0x3 => 0x3b352729_030d1f11_4b455759_737d6f61
    case 0x4 => 0xada3b1bf_959b8987_ddd3c1cf_e5ebf9f7
    case 0x5 => 0x4d43515f_757b6967_3d33212f_050b1917
    case 0x6 => 0x76786a64_4e40525c_06081a14_3e30222c
    case 0x7 => 0x96988a84_aea0b2bc_e6e8faf4_ded0c2cc
    case 0x8 => 0x414f5d53_7977656b_313f2d23_0907151b
    case 0x9 => 0xa1afbdb3_9997858b_d1dfcdc3_e9e7f5fb
    case 0xa => 0x9a948688_a2acbeb0_eae4f6f8_d2dccec0
    case 0xb => 0x7a746668_424c5e50_0a041618_323c2e20
    case 0xc => 0xece2f0fe_d4dac8c6_9c92808e_a4aab8b6
    case 0xd => 0x0c02101e_343a2826_7c72606e_444a5856
    case 0xe => 0x37392b25_0f01131d_47495b55_7f71636d
    case _   => 0xd7d9cbc5_efe1f3fd_a7a9bbb5_9f91838d
  }

  function Sbox(x: bv8): bv8 {
    Entry(SboxRow(x >> 4), x & 0x0f)
  }

  function InvSbox(x: bv8): bv8 {
    Entry(InvSboxRow(x >> 4), x & 0x0f)
  }

  function Gf02(x: bv8): bv8 {
    Entry(Gf02Row(x >> 4), x & 0x0f)
  }

  function Gf03(x: bv8): bv8 {
    Entry(Gf03Row(x >> 4), x & 0x0f)
  }

  function Gf09(x: bv8): bv8 {
    Entry(Gf09Row(x >> 4), x & 0x0f)
  }

  function Gf0B(x: bv8): bv8 {
    Entry(Gf0BRow(x >> 4), x & 0x0f)
  }

  function Gf0D(x: bv8): bv8 {
    Entry(Gf0DRow(x >> 4), x & 0x0f)
  }

  function Gf0E(x: bv8): bv8 {
    Entry(Gf0ERow(x >> 4), x & 0x0f)
  }

  // ---------- The two S-boxes are each other's inverses ----------

  lemma SboxInverse(x: bv8)
    ensures InvSbox(Sbox(x)) == x
    ensures Sbox(InvSbox(x)) == x
  {
    hide *;
    if x < 0x80 {
      InvSboxOfSboxLow(x);
      SboxOfInvSboxLow(x);
    } else {
      InvSboxOfSboxHigh(x);
      SboxOfInvSboxHigh(x);
    }
  }

  lemma InvSboxOfSboxLow(x: bv8)
    requires x < 0x80
    ensures InvSbox(Sbox(x)) == x
  {
  }

  lemma InvSboxOfSboxHigh(x: bv8)
    requires 0x80 <= x
    ensures InvSbox(Sbox(x)) == x
  {
  }

  lemma SboxOfInvSboxLow(x: bv8)
    requires x < 0x80
    ensures Sbox(InvSbox(x)) == x
  {
  }

  lemma SboxOfInvSboxHigh(x: bv8)
    requires 0x80 <= x
    ensures Sbox(InvSbox(x)) == x
  {
  }

  // ---------- GF(2^8), section 4.2 of FIPS 197 ----------

  // Multiplication by {02}: shift, then reduce by x^8 + x^4 + x^3 + x + 1 when a bit falls out.
  function XTime(x: bv8): bv8 {
    (x << 1) ^ (x >> 7) ^ ((x >> 7) << 1) ^ ((x >> 7) << 3) ^ ((x >> 7) << 4)
  }

  // The contribution of bit k of a to a product.
  function Term(a: bv8, k: bv8, x: bv8): bv8
    requires k < 8
  {
    if (a >> k) & 1 != 0 then x else 0
  }

  // The product of two field elements.
  function Times(a: bv8, x: bv8): bv8 {
    var x1 := XTime(x);
    var x2 := XTime(x1);
    var x3 := XTime(x2);
    var x4 := XTime(x3);
    var x5 := XTime(x4);
    var x6 := XTime(x5);
    var x7 := XTime(x6);
    Term(a, 0, x) ^ Term(a, 1, x1) ^ Term(a, 2, x2) ^ Term(a, 3, x3) ^
    Term(a, 4, x4) ^ Term(a, 5, x5) ^ Term(a, 6, x6) ^ Term(a, 7, x7)
  }

  // The six products that AES needs, as sums of doublings.
  function Mul02(x: bv8): bv8 {
    XTime(x)
  }

  function Mul03(x: bv8): bv8 {
    Xor(XTime(x), x)
  }

  function Mul09(x: bv8): bv8 {
    Xor(XTime(XTime(XTime(x))), x)
  }

  function Mul0B(x: bv8): bv8 {
    Xor(Xor(XTime(XTime(XTime(x))), XTime(x)), x)
  }

  function Mul0D(x: bv8): bv8 {
    Xor(Xor(XTime(XTime(XTime(x))), XTime(XTime(x))), x)
  }

  function Mul0E(x: bv8): bv8 {
    Xor(Xor(XTime(XTime(XTime(x))), XTime(XTime(x))), XTime(x))
  }

  lemma DoublingsAreProducts(x: bv8)
    ensures Mul02(x) == Times(0x02, x)
    ensures Mul03(x) == Times(0x03, x)
    ensures Mul09(x) == Times(0x09, x)
  {
  }

  lemma Mul0BIsProduct(x: bv8)
    ensures Mul0B(x) == Times(0x0b, x)
  {
  }

  lemma Mul0DIsProduct(x: bv8)
    ensures Mul0D(x) == Times(0x0d, x)
  {
  }

  lemma Mul0EIsProduct(x: bv8)
    ensures Mul0E(x) == Times(0x0e, x)
  {
  }

  // ---------- The S-box, section 5.1.1 of FIPS 197 ----------

  function Affine(y: bv8): bv8 {
    y ^ y.RotateLeft(1) ^ y.RotateLeft(2) ^ y.RotateLeft(3) ^ y.RotateLeft(4) ^ 0x63
  }

  function InvAffine(z: bv8): bv8 {
    z.RotateLeft(1) ^ z.RotateLeft(3) ^ z.RotateLeft(6) ^ 0x05
  }

  // aes_sbox maps x to the affine image of its inverse in the field, and 0 to the image of 0.
  lemma SboxIsAffineInverse(x: bv8) returns (inverse: bv8)
    ensures if x == 0 then inverse == 0 else Times(x, inverse) == 1
    ensures Sbox(x) == Affine(inverse)
  {
    inverse := InvAffine(Sbox(x));
    AffineInverse(Sbox(x));
    if 0 < x < 0x80 {
      SboxProductLow(x);
    } else if 0x80 <= x {
      SboxProductHigh(x);
    }
  }

  lemma AffineInverse(z: bv8)
    ensures Affine(InvAffine(z)) == z
  {
  }

  lemma SboxProductLow(x: bv8)
    requires 0 < x < 0x80
    ensures Times(x, InvAffine(Sbox(x))) == 1
  {
  }

  lemma SboxProductHigh(x: bv8)
    requires 0x80 <= x
    ensures Times(x, InvAffine(Sbox(x))) == 1
  {
  }

  // ---------- gf_mul ----------

  // gf_mul, entry by entry.
  lemma GfTables(x: bv8)
    ensures Gf02(x) == Mul02(x)
    ensures Gf03(x) == Mul03(x)
    ensures Gf09(x) == Mul09(x)
    ensures Gf0B(x) == Mul0B(x)
    ensures Gf0D(x) == Mul0D(x)
    ensures Gf0E(x) == Mul0E(x)
  {
    hide *;
    Gf02Table(x);
    Gf03Table(x);
    if x < 0x80 {
      Gf09TableLow(x);
      Gf0BTableLow(x);
      Gf0DTableLow(x);
      Gf0ETableLow(x);
    } else {
      Gf09TableHigh(x);
      Gf0BTableHigh(x);
      Gf0DTableHigh(x);
      Gf0ETableHigh(x);
    }
  }

  lemma Gf02Table(x: bv8)
    ensures Gf02(x) == Mul02(x)
  {
  }

  lemma Gf03Table(x: bv8)
    ensures Gf03(x) == Mul03(x)
  {
  }

  lemma Gf09TableLow(x: bv8)
    requires x < 0x80
    ensures Gf09(x) == Mul09(x)
  {
  }

  lemma Gf09TableHigh(x: bv8)
    requires 0x80 <= x
    ensures Gf09(x) == Mul09(x)
  {
  }

  lemma Gf0BTableLow(x: bv8)
    requires x < 0x80
    ensures Gf0B(x) == Mul0B(x)
  {
  }

  lemma Gf0BTableHigh(x: bv8)
    requires 0x80 <= x
    ensures Gf0B(x) == Mul0B(x)
  {
  }

  lemma Gf0DTableLow(x: bv8)
    requires x < 0x80
    ensures Gf0D(x) == Mul0D(x)
  {
  }

  lemma Gf0DTableHigh(x: bv8)
    requires 0x80 <= x
    ensures Gf0D(x) == Mul0D(x)
  {
  }

  lemma Gf0ETableLow(x: bv8)
    requires x < 0x80
    ensures Gf0E(x) == Mul0E(x)
  {
  }

  lemma Gf0ETableHigh(x: bv8)
    requires 0x80 <= x
    ensures Gf0E(x) == Mul0E(x)
  {
  }

  // The columns of gf_mul are the products that its comment promises.
  lemma GfTablesAreProducts(x: bv8)
    ensures Gf02(x) == Times(0x02, x)
    ensures Gf03(x) == Times(0x03, x)
    ensures Gf09(x) == Times(0x09, x)
    ensures Gf0B(x) == Times(0x0b, x)
    ensures Gf0D(x) == Times(0x0d, x)
    ensures Gf0E(x) == Times(0x0e, x)
  {
    hide *;
    GfTables(x);
    DoublingsAreProducts(x);
    Mul0BIsProduct(x);
    Mul0DIsProduct(x);
    Mul0EIsProduct(x);
  }

  lemma XTimeXor(x: bv8, y: bv8)
    ensures XTime(Xor(x, y)) == Xor(XTime(x), XTime(y))
  {
  }

  // Each column of gf_mul distributes over XOR.
  lemma GfTablesXor(x: bv8, y: bv8)
    ensures Gf02(Xor(x, y)) == Xor(Gf02(x), Gf02(y))
    ensures Gf03(Xor(x, y)) == Xor(Gf03(x), Gf03(y))
    ensures Gf09(Xor(x, y)) == Xor(Gf09(x), Gf09(y))
    ensures Gf0B(Xor(x, y)) == Xor(Gf0B(x), Gf0B(y))
    ensures Gf0D(Xor(x, y)) == Xor(Gf0D(x), Gf0D(y))
    ensures Gf0E(Xor(x, y)) == Xor(Gf0E(x), Gf0E(y))
  {
    hide *;
    GfTables(x);
    GfTables(y);
    GfTables(Xor(x, y));
    MulXor(x, y);
  }

  lemma MulXor(x: bv8, y: bv8)
    ensures Mul02(Xor(x, y)) == Xor(Mul02(x), Mul02(y))
    ensures Mul03(Xor(x, y)) == Xor(Mul03(x), Mul03(y))
    ensures Mul09(Xor(x, y)) == Xor(Mul09(x), Mul09(y))
    ensures Mul0B(Xor(x, y)) == Xor(Mul0B(x), Mul0B(y))
    ensures Mul0D(Xor(x, y)) == Xor(Mul0D(x), Mul0D(y))
    ensures Mul0E(Xor(x, y)) == Xor(Mul0E(x), Mul0E(y))
  {
    hide Xor, XTime;
    var x1, y1 := XTime(x), XTime(y);
    var x2, y2 := XTime(x1), XTime(y1);
    var x3, y3 := XTime(x2), XTime(y2);
    XTimeXor(x, y);
    XTimeXor(x1, y1);
    XTimeXor(x2, y2);
    XorSwap(x1, y1, x, y);
    XorSwap(x3, y3, x, y);
    XorSwap(x3, y3, x1, y1);
    XorSwap(x3, y3, x2, y2);
    XorSwap(Xor(x3, x1), Xor(y3, y1), x, y);
    XorSwap(Xor(x3, x2), Xor(y3, y2), x, y);
    XorSwap(Xor(x3, x2), Xor(y3, y2), x1, y1);
  }

  // ---------- One octet of a column under MixColumns and InvMixColumns ----------

  // Row 0 of the two column matrices. Row r applies the same sum to the column rotated by r.
  function MixOctet(a: bv8, b: bv8, c: bv8, d: bv8): bv8 {
    Xor(Xor(Xor(Gf02(a), Gf03(b)), c), d)
  }

  function InvMixOctet(a: bv8, b: bv8, c: bv8, d: bv8): bv8 {
    Xor(Xor(Xor(Gf0E(a), Gf0B(b)), Gf0D(c)), Gf09(d))
  }

  // A sum of four octets, balanced.
  function Sum4(a: bv8, b: bv8, c: bv8, d: bv8): bv8 {
    Xor(Xor(a, b), Xor(c, d))
  }

  lemma MixOctetSums(a: bv8, b: bv8, c: bv8, d: bv8)
    ensures MixOctet(a, b, c, d) == Sum4(Mul02(a), Mul03(b), c, d)
    ensures InvMixOctet(a, b, c, d) == Sum4(Mul0E(a), Mul0B(b), Mul0D(c), Mul09(d))
  {
    hide Xor, XTime, Gf02, Gf03, Gf09, Gf0B, Gf0D, Gf0E, Mul02, Mul03, Mul09, Mul0B, Mul0D, Mul0E;
    GfTables(a);
    GfTables(b);
    GfTables(c);
    GfTables(d);
    XorAssociative(Xor(Gf02(a), Gf03(b)), c, d);
    XorAssociative(Xor(Gf0E(a), Gf0B(b)), Gf0D(c), Gf09(d));
  }

  // A 4x4 sum may be taken by rows or by columns.
  lemma Sum4Transpose(a0: bv8, a1: bv8, a2: bv8, a3: bv8, b0: bv8, b1: bv8, b2: bv8, b3: bv8,
                      c0: bv8, c1: bv8, c2: bv8, c3: bv8, d0: bv8, d1: bv8, d2: bv8, d3: bv8)
    ensures Sum4(Sum4(a0, a1, a2, a3), Sum4(b0, b1, b2, b3), Sum4(c0, c1, c2, c3), Sum4(d0, d1, d2, d3))
         == Sum4(Sum4(a0, b0, c0, d0), Sum4(a1, b1, c1, d1), Sum4(a2, b2, c2, d2), Sum4(a3, b3, c3, d3))
  {
    hide Xor;
    XorSwap(Xor(a0, a1), Xor(a2, a3), Xor(b0, b1), Xor(b2, b3));
    XorSwap(a0, a1, b0, b1);
    XorSwap(a2, a3, b2, b3);
    XorSwap(Xor(c0, c1), Xor(c2, c3), Xor(d0, d1), Xor(d2, d3));
    XorSwap(c0, c1, d0, d1);
    XorSwap(c2, c3, d2, d3);
    XorSwap(Xor(Xor(a0, b0), Xor(a1, b1)), Xor(Xor(a2, b2), Xor(a3, b3)),
            Xor(Xor(c0, d0), Xor(c1, d1)), Xor(Xor(c2, d2), Xor(c3, d3)));
    XorSwap(Xor(a0, b0), Xor(a1, b1), Xor(c0, d0), Xor(c1, d1));
    XorSwap(Xor(a2, b2), Xor(a3, b3), Xor(c2, d2), Xor(c3, d3));
  }

  lemma Sum4Rotate(a: bv8, b: bv8, c: bv8, d: bv8)
    ensures Sum4(b, c, d, a) == Sum4(a, b, c, d)
    ensures Sum4(c, d, a, b) == Sum4(a, b, c, d)
    ensures Sum4(d, a, b, c) == Sum4(a, b, c, d)
  {
    hide Xor;
    XorCancel(Xor(a, b), Xor(c, d));
    XorCancel(a, b);
    XorCancel(b, a);
    XorSwap(b, a, c, d);
    XorSwap(a, b, c, d);
    XorCancel(d, a);
    XorCancel(c, d);
    XorCancel(c, b);
    XorCancel(Xor(b, c), Xor(d, a));
    XorSwap(a, b, d, c);
  }

  lemma MulSum4(a: bv8, b: bv8, c: bv8, d: bv8)
    ensures Mul02(Sum4(a, b, c, d)) == Sum4(Mul02(a), Mul02(b), Mul02(c), Mul02(d))
    ensures Mul03(Sum4(a, b, c, d)) == Sum4(Mul03(a), Mul03(b), Mul03(c), Mul03(d))
    ensures Mul09(Sum4(a, b, c, d)) == Sum4(Mul09(a), Mul09(b), Mul09(c), Mul09(d))
    ensures Mul0B(Sum4(a, b, c, d)) == Sum4(Mul0B(a), Mul0B(b), Mul0B(c), Mul0B(d))
    ensures Mul0D(Sum4(a, b, c, d)) == Sum4(Mul0D(a), Mul0D(b), Mul0D(c), Mul0D(d))
    ensures Mul0E(Sum4(a, b, c, d)) == Sum4(Mul0E(a), Mul0E(b), Mul0E(c), Mul0E(d))
  {
    hide Xor, XTime, Mul02, Mul03, Mul09, Mul0B, Mul0D, Mul0E;
    MulXor(a, b);
    MulXor(c, d);
    MulXor(Xor(a, b), Xor(c, d));
  }

  lemma Sum4Zero(x: bv8)
    ensures Sum4(x, 0, 0, 0) == x
  {
    XorZero(x);
    XorZero(0);
  }

  // Entry (0, i) of the product InvMixColumns * MixColumns, then of the product in the other order.
  lemma InvMixMix0(x: bv8)
    ensures Sum4(Mul0E(Mul02(x)), Mul0B(x), Mul0D(x), Mul09(Mul03(x))) == x
  {
  }

  lemma InvMixMix1(x: bv8)
    ensures Sum4(Mul0E(Mul03(x)), Mul0B(Mul02(x)), Mul0D(x), Mul09(x)) == 0
  {
  }

  lemma InvMixMix2(x: bv8)
    ensures Sum4(Mul0E(x), Mul0B(Mul03(x)), Mul0D(Mul02(x)), Mul09(x)) == 0
  {
  }

  lemma InvMixMix3(x: bv8)
    ensures Sum4(Mul0E(x), Mul0B(x), Mul0D(Mul03(x)), Mul09(Mul02(x))) == 0
  {
  }

  lemma MixInvMix0(x: bv8)
    ensures Sum4(Mul02(Mul0E(x)), Mul03(Mul09(x)), Mul0D(x), Mul0B(x)) == x
  {
  }

  lemma MixInvMix1(x: bv8)
    ensures Sum4(Mul02(Mul0B(x)), Mul03(Mul0E(x)), Mul09(x), Mul0D(x)) == 0
  {
  }

  lemma MixInvMix2(x: bv8)
    ensures Sum4(Mul02(Mul0D(x)), Mul03(Mul0B(x)), Mul0E(x), Mul09(x)) == 0
  {
  }

  lemma MixInvMix3(x: bv8)
    ensures Sum4(Mul02(Mul09(x)), Mul03(Mul0D(x)), Mul0B(x), Mul0E(x)) == 0
  {
  }

  // On every column, InvMixColumns undoes MixColumns and the reverse.
  lemma InvMixOfMix(a: bv8, b: bv8, c: bv8, d: bv8)
    ensures InvMixOctet(MixOctet(a, b, c, d), MixOctet(b, c, d, a), MixOctet(c, d, a, b), MixOctet(d, a, b, c)) == a
  {
    hide Xor, XTime, MixOctet, InvMixOctet, Sum4, Mul02, Mul03, Mul09, Mul0B, Mul0D, Mul0E;
    MixOctetSums(a, b, c, d);
    MixOctetSums(b, c, d, a);
    MixOctetSums(c, d, a, b);
    MixOctetSums(d, a, b, c);
    MixOctetSums(MixOctet(a, b, c, d), MixOctet(b, c, d, a), MixOctet(c, d, a, b), MixOctet(d, a, b, c));
    MulSum4(Mul02(a), Mul03(b), c, d);
    MulSum4(Mul02(b), Mul03(c), d, a);
    MulSum4(Mul02(c), Mul03(d), a, b);
    MulSum4(Mul02(d), Mul03(a), b, c);
    Sum4Rotate(Mul0B(a), Mul0B(Mul02(b)), Mul0B(Mul03(c)), Mul0B(d));
    Sum4Rotate(Mul0D(a), Mul0D(b), Mul0D(Mul02(c)), Mul0D(Mul03(d)));
    Sum4Rotate(Mul09(Mul03(a)), Mul09(b), Mul09(c), Mul09(Mul02(d)));
    Sum4Transpose(Mul0E(Mul02(a)), Mul0E(Mul03(b)), Mul0E(c), Mul0E(d),
                  Mul0B(a), Mul0B(Mul02(b)), Mul0B(Mul03(c)), Mul0B(d),
                  Mul0D(a), Mul0D(b), Mul0D(Mul02(c)), Mul0D(Mul03(d)),
                  Mul09(Mul03(a)), Mul09(b), Mul09(c), Mul09(Mul02(d)));
    InvMixMix0(a);
    InvMixMix1(b);
    InvMixMix2(c);
    InvMixMix3(d);
    Sum4Zero(a);
  }

  lemma MixOfInvMix(a: bv8, b: bv8, c: bv8, d: bv8)
    ensures MixOctet(InvMixOctet(a, b, c, d), InvMixOctet(b, c, d, a), InvMixOctet(c, d, a, b), InvMixOctet(d, a, b, c)) == a
  {
    hide Xor, XTime, MixOctet, InvMixOctet, Sum4, Mul02, Mul03, Mul09, Mul0B, Mul0D, Mul0E;
    MixOctetSums(a, b, c, d);
    MixOctetSums(b, c, d, a);
    MixOctetSums(c, d, a, b);
    MixOctetSums(d, a, b, c);
    MixOctetSums(InvMixOctet(a, b, c, d), InvMixOctet(b, c, d, a), InvMixOctet(c, d, a, b), InvMixOctet(d, a, b, c));
    MulSum4(Mul0E(a), Mul0B(b), Mul0D(c), Mul09(d));
    MulSum4(Mul0E(b), Mul0B(c), Mul0D(d), Mul09(a));
    MulSum4(Mul0E(c), Mul0B(d), Mul0D(a), Mul09(b));
    MulSum4(Mul0E(d), Mul0B(a), Mul0D(b), Mul09(c));
    Sum4Rotate(Mul03(Mul09(a)), Mul03(Mul0E(b)), Mul03(Mul0B(c)), Mul03(Mul0D(d)));
    Sum4Rotate(Mul0D(a), Mul09(b), Mul0E(c), Mul0B(d));
    Sum4Rotate(Mul0B(a), Mul0D(b), Mul09(c), Mul0E(d));
    Sum4Transpose(Mul02(Mul0E(a)), Mul02(Mul0B(b)), Mul02(Mul0D(c)), Mul02(Mul09(d)),
                  Mul03(Mul09(a)), Mul03(Mul0E(b)), Mul03(Mul0B(c)), Mul03(Mul0D(d)),
                  Mul0D(a), Mul09(b), Mul0E(c), Mul0B(d),
                  Mul0B(a), Mul0D(b), Mul09(c), Mul0E(d));
    MixInvMix0(a);
    MixInvMix1(b);
    MixInvMix2(c);
    MixInvMix3(d);
    Sum4Zero(a);
  }
}
