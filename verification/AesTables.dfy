/** The tables of crypto/aes.c and what they are: a permutation with its inverse, and products in GF(2^8). */
module AesTables {
  import opened Tables

  // ---- The S-boxes ----

  /** aes_sbox */
  function Sbox(x: bv8): bv8 {
    var row, i := x >> 4, x & 0x0F;
    if row == 0 then Sixteen(i, 0x63, 0x7C, 0x77, 0x7B, 0xF2, 0x6B, 0x6F, 0xC5, 0x30, 0x01, 0x67, 0x2B, 0xFE, 0xD7, 0xAB, 0x76)
    else if row == 1 then Sixteen(i, 0xCA, 0x82, 0xC9, 0x7D, 0xFA, 0x59, 0x47, 0xF0, 0xAD, 0xD4, 0xA2, 0xAF, 0x9C, 0xA4, 0x72, 0xC0)
    else if row == 2 then Sixteen(i, 0xB7, 0xFD, 0x93, 0x26, 0x36, 0x3F, 0xF7, 0xCC, 0x34, 0xA5, 0xE5, 0xF1, 0x71, 0xD8, 0x31, 0x15)
    else if row == 3 then Sixteen(i, 0x04, 0xC7, 0x23, 0xC3, 0x18, 0x96, 0x05, 0x9A, 0x07, 0x12, 0x80, 0xE2, 0xEB, 0x27, 0xB2, 0x75)
    else if row == 4 then Sixteen(i, 0x09, 0x83, 0x2C, 0x1A, 0x1B, 0x6E, 0x5A, 0xA0, 0x52, 0x3B, 0xD6, 0xB3, 0x29, 0xE3, 0x2F, 0x84)
    else if row == 5 then Sixteen(i, 0x53, 0xD1, 0x00, 0xED, 0x20, 0xFC, 0xB1, 0x5B, 0x6A, 0xCB, 0xBE, 0x39, 0x4A, 0x4C, 0x58, 0xCF)
    else if row == 6 then Sixteen(i, 0xD0, 0xEF, 0xAA, 0xFB, 0x43, 0x4D, 0x33, 0x85, 0x45, 0xF9, 0x02, 0x7F, 0x50, 0x3C, 0x9F, 0xA8)
    else if row == 7 then Sixteen(i, 0x51, 0xA3, 0x40, 0x8F, 0x92, 0x9D, 0x38, 0xF5, 0xBC, 0xB6, 0xDA, 0x21, 0x10, 0xFF, 0xF3, 0xD2)
    else if row == 8 then Sixteen(i, 0xCD, 0x0C, 0x13, 0xEC, 0x5F, 0x97, 0x44, 0x17, 0xC4, 0xA7, 0x7E, 0x3D, 0x64, 0x5D, 0x19, 0x73)
    else if row == 9 then Sixteen(i, 0x60, 0x81, 0x4F, 0xDC, 0x22, 0x2A, 0x90, 0x88, 0x46, 0xEE, 0xB8, 0x14, 0xDE, 0x5E, 0x0B, 0xDB)
    else if row == 10 then Sixteen(i, 0xE0, 0x32, 0x3A, 0x0A, 0x49, 0x06, 0x24, 0x5C, 0xC2, 0xD3, 0xAC, 0x62, 0x91, 0x95, 0xE4, 0x79)
    else if row == 11 then Sixteen(i, 0xE7, 0xC8, 0x37, 0x6D, 0x8D, 0xD5, 0x4E, 0xA9, 0x6C, 0x56, 0xF4, 0xEA, 0x65, 0x7A, 0xAE, 0x08)
    else if row == 12 then Sixteen(i, 0xBA, 0x78, 0x25, 0x2E, 0x1C, 0xA6, 0xB4, 0xC6, 0xE8, 0xDD, 0x74, 0x1F, 0x4B, 0xBD, 0x8B, 0x8A)
    else if row == 13 then Sixteen(i, 0x70, 0x3E, 0xB5, 0x66, 0x48, 0x03, 0xF6, 0x0E, 0x61, 0x35, 0x57, 0xB9, 0x86, 0xC1, 0x1D, 0x9E)
    else if row == 14 then Sixteen(i, 0xE1, 0xF8, 0x98, 0x11, 0x69, 0xD9, 0x8E, 0x94, 0x9B, 0x1E, 0x87, 0xE9, 0xCE, 0x55, 0x28, 0xDF)
    else Sixteen(i, 0x8C, 0xA1, 0x89, 0x0D, 0xBF, 0xE6, 0x42, 0x68, 0x41, 0x99, 0x2D, 0x0F, 0xB0, 0x54, 0xBB, 0x16)
  }

  /** aes_invsbox */
  function InvSbox(x: bv8): bv8 {
    var row, i := x >> 4, x & 0x0F;
    if row == 0 then Sixteen(i, 0x52, 0x09, 0x6A, 0xD5, 0x30, 0x36, 0xA5, 0x38, 0xBF, 0x40, 0xA3, 0x9E, 0x81, 0xF3, 0xD7, 0xFB)
    else if row == 1 then Sixteen(i, 0x7C, 0xE3, 0x39, 0x82, 0x9B, 0x2F, 0xFF, 0x87, 0x34, 0x8E, 0x43, 0x44, 0xC4, 0xDE, 0xE9, 0xCB)
    else if row == 2 then Sixteen(i, 0x54, 0x7B, 0x94, 0x32, 0xA6, 0xC2, 0x23, 0x3D, 0xEE, 0x4C, 0x95, 0x0B, 0x42, 0xFA, 0xC3, 0x4E)
    else if row == 3 then Sixteen(i, 0x08, 0x2E, 0xA1, 0x66, 0x28, 0xD9, 0x24, 0xB2, 0x76, 0x5B, 0xA2, 0x49, 0x6D, 0x8B, 0xD1, 0x25)
    else if row == 4 then Sixteen(i, 0x72, 0xF8, 0xF6, 0x64, 0x86, 0x68, 0x98, 0x16, 0xD4, 0xA4, 0x5C, 0xCC, 0x5D, 0x65, 0xB6, 0x92)
    else if row == 5 then Sixteen(i, 0x6C, 0x70, 0x48, 0x50, 0xFD, 0xED, 0xB9, 0xDA, 0x5E, 0x15, 0x46, 0x57, 0xA7, 0x8D, 0x9D, 0x84)
    else if row == 6 then Sixteen(i, 0x90, 0xD8, 0xAB, 0x00, 0x8C, 0xBC, 0xD3, 0x0A, 0xF7, 0xE4, 0x58, 0x05, 0xB8, 0xB3, 0x45, 0x06)
    else if row == 7 then Sixteen(i, 0xD0, 0x2C, 0x1E, 0x8F, 0xCA, 0x3F, 0x0F, 0x02, 0xC1, 0xAF, 0xBD, 0x03, 0x01, 0x13, 0x8A, 0x6B)
    else if row == 8 then Sixteen(i, 0x3A, 0x91, 0x11, 0x41, 0x4F, 0x67, 0xDC, 0xEA, 0x97, 0xF2, 0xCF, 0xCE, 0xF0, 0xB4, 0xE6, 0x73)
    else if row == 9 then Sixteen(i, 0x96, 0xAC, 0x74, 0x22, 0xE7, 0xAD, 0x35, 0x85, 0xE2, 0xF9, 0x37, 0xE8, 0x1C, 0x75, 0xDF, 0x6E)
    else if row == 10 then Sixteen(i, 0x47, 0xF1, 0x1A, 0x71, 0x1D, 0x29, 0xC5, 0x89, 0x6F, 0xB7, 0x62, 0x0E, 0xAA, 0x18, 0xBE, 0x1B)
    else if row == 11 then Sixteen(i, 0xFC, 0x56, 0x3E, 0x4B, 0xC6, 0xD2, 0x79, 0x20, 0x9A, 0xDB, 0xC0, 0xFE, 0x78, 0xCD, 0x5A, 0xF4)
    else if row == 12 then Sixteen(i, 0x1F, 0xDD, 0xA8, 0x33, 0x88, 0x07, 0xC7, 0x31, 0xB1, 0x12, 0x10, 0x59, 0x27, 0x80, 0xEC, 0x5F)
    else if row == 13 then Sixteen(i, 0x60, 0x51, 0x7F, 0xA9, 0x19, 0xB5, 0x4A, 0x0D, 0x2D, 0xE5, 0x7A, 0x9F, 0x93, 0xC9, 0x9C, 0xEF)
    else if row == 14 then Sixteen(i, 0xA0, 0xE0, 0x3B, 0x4D, 0xAE, 0x2A, 0xF5, 0xB0, 0xC8, 0xEB, 0xBB, 0x3C, 0x83, 0x53, 0x99, 0x61)
    else Sixteen(i, 0x17, 0x2B, 0x04, 0x7E, 0xBA, 0x77, 0xD6, 0x26, 0xE1, 0x69, 0x14, 0x63, 0x55, 0x21, 0x0C, 0x7D)
  }

  lemma Inverts0(x: bv8)
    requires x >> 3 == 0
    ensures InvSbox(Sbox(x)) == x
  {
  }

  lemma Inverts1(x: bv8)
    requires x >> 3 == 1
    ensures InvSbox(Sbox(x)) == x
  {
  }

  lemma Inverts2(x: bv8)
    requires x >> 3 == 2
    ensures InvSbox(Sbox(x)) == x
  {
  }

  lemma Inverts3(x: bv8)
    requires x >> 3 == 3
    ensures InvSbox(Sbox(x)) == x
  {
  }

  lemma Inverts4(x: bv8)
    requires x >> 3 == 4
    ensures InvSbox(Sbox(x)) == x
  {
  }

  lemma Inverts5(x: bv8)
    requires x >> 3 == 5
    ensures InvSbox(Sbox(x)) == x
  {
  }

  lemma Inverts6(x: bv8)
    requires x >> 3 == 6
    ensures InvSbox(Sbox(x)) == x
  {
  }

  lemma Inverts7(x: bv8)
    requires x >> 3 == 7
    ensures InvSbox(Sbox(x)) == x
  {
  }

  lemma Inverts8(x: bv8)
    requires x >> 3 == 8
    ensures InvSbox(Sbox(x)) == x
  {
  }

  lemma Inverts9(x: bv8)
    requires x >> 3 == 9
    ensures InvSbox(Sbox(x)) == x
  {
  }

  lemma Inverts10(x: bv8)
    requires x >> 3 == 10
    ensures InvSbox(Sbox(x)) == x
  {
  }

  lemma Inverts11(x: bv8)
    requires x >> 3 == 11
    ensures InvSbox(Sbox(x)) == x
  {
  }

  lemma Inverts12(x: bv8)
    requires x >> 3 == 12
    ensures InvSbox(Sbox(x)) == x
  {
  }

  lemma Inverts13(x: bv8)
    requires x >> 3 == 13
    ensures InvSbox(Sbox(x)) == x
  {
  }

  lemma Inverts14(x: bv8)
    requires x >> 3 == 14
    ensures InvSbox(Sbox(x)) == x
  {
  }

  lemma Inverts15(x: bv8)
    requires x >> 3 == 15
    ensures InvSbox(Sbox(x)) == x
  {
  }

  lemma Inverts16(x: bv8)
    requires x >> 3 == 16
    ensures InvSbox(Sbox(x)) == x
  {
  }

  lemma Inverts17(x: bv8)
    requires x >> 3 == 17
    ensures InvSbox(Sbox(x)) == x
  {
  }

  lemma Inverts18(x: bv8)
    requires x >> 3 == 18
    ensures InvSbox(Sbox(x)) == x
  {
  }

  lemma Inverts19(x: bv8)
    requires x >> 3 == 19
    ensures InvSbox(Sbox(x)) == x
  {
  }

  lemma Inverts20(x: bv8)
    requires x >> 3 == 20
    ensures InvSbox(Sbox(x)) == x
  {
  }

  lemma Inverts21(x: bv8)
    requires x >> 3 == 21
    ensures InvSbox(Sbox(x)) == x
  {
  }

  lemma Inverts22(x: bv8)
    requires x >> 3 == 22
    ensures InvSbox(Sbox(x)) == x
  {
  }

  lemma Inverts23(x: bv8)
    requires x >> 3 == 23
    ensures InvSbox(Sbox(x)) == x
  {
  }

  lemma Inverts24(x: bv8)
    requires x >> 3 == 24
    ensures InvSbox(Sbox(x)) == x
  {
  }

  lemma Inverts25(x: bv8)
    requires x >> 3 == 25
    ensures InvSbox(Sbox(x)) == x
  {
  }

  lemma Inverts26(x: bv8)
    requires x >> 3 == 26
    ensures InvSbox(Sbox(x)) == x
  {
  }

  lemma Inverts27(x: bv8)
    requires x >> 3 == 27
    ensures InvSbox(Sbox(x)) == x
  {
  }

  lemma Inverts28(x: bv8)
    requires x >> 3 == 28
    ensures InvSbox(Sbox(x)) == x
  {
  }

  lemma Inverts29(x: bv8)
    requires x >> 3 == 29
    ensures InvSbox(Sbox(x)) == x
  {
  }

  lemma Inverts30(x: bv8)
    requires x >> 3 == 30
    ensures InvSbox(Sbox(x)) == x
  {
  }

  lemma Inverts31(x: bv8)
    requires x >> 3 == 31
    ensures InvSbox(Sbox(x)) == x
  {
  }

  lemma FourBits(x: bv8)
    ensures x >> 4 <= 15
  {
  }

  lemma FiveBits(x: bv8)
    ensures x >> 3 <= 31
  {
  }

  /** The two boxes are inverse permutations. */
  lemma InvSboxInverts(x: bv8)
    ensures InvSbox(Sbox(x)) == x
  {
    hide Sbox, InvSbox;
    FiveBits(x);
    var row := x >> 3;
    if row == 0 { Inverts0(x); }
    else if row == 1 { Inverts1(x); }
    else if row == 2 { Inverts2(x); }
    else if row == 3 { Inverts3(x); }
    else if row == 4 { Inverts4(x); }
    else if row == 5 { Inverts5(x); }
    else if row == 6 { Inverts6(x); }
    else if row == 7 { Inverts7(x); }
    else if row == 8 { Inverts8(x); }
    else if row == 9 { Inverts9(x); }
    else if row == 10 { Inverts10(x); }
    else if row == 11 { Inverts11(x); }
    else if row == 12 { Inverts12(x); }
    else if row == 13 { Inverts13(x); }
    else if row == 14 { Inverts14(x); }
    else if row == 15 { Inverts15(x); }
    else if row == 16 { Inverts16(x); }
    else if row == 17 { Inverts17(x); }
    else if row == 18 { Inverts18(x); }
    else if row == 19 { Inverts19(x); }
    else if row == 20 { Inverts20(x); }
    else if row == 21 { Inverts21(x); }
    else if row == 22 { Inverts22(x); }
    else if row == 23 { Inverts23(x); }
    else if row == 24 { Inverts24(x); }
    else if row == 25 { Inverts25(x); }
    else if row == 26 { Inverts26(x); }
    else if row == 27 { Inverts27(x); }
    else if row == 28 { Inverts28(x); }
    else if row == 29 { Inverts29(x); }
    else if row == 30 { Inverts30(x); }
    else { Inverts31(x); }
  }

  // ---- Multiplication ----

  /** One row of gf_mul: the products of a byte with 2, 3, 9, 11, 13 and 14. */
  datatype Products = Products(by2: bv8, by3: bv8, by9: bv8, by11: bv8, by13: bv8, by14: bv8)

  /** The rows of gf_mul, thirty-two at a time. */
  function Products0(x: bv8): Products {
    if x == 0x00 then Products(0x00, 0x00, 0x00, 0x00, 0x00, 0x00)
    else if x == 0x01 then Products(0x02, 0x03, 0x09, 0x0b, 0x0d, 0x0e)
    else if x == 0x02 then Products(0x04, 0x06, 0x12, 0x16, 0x1a, 0x1c)
    else if x == 0x03 then Products(0x06, 0x05, 0x1b, 0x1d, 0x17, 0x12)
    else if x == 0x04 then Products(0x08, 0x0c, 0x24, 0x2c, 0x34, 0x38)
    else if x == 0x05 then Products(0x0a, 0x0f, 0x2d, 0x27, 0x39, 0x36)
    else if x == 0x06 then Products(0x0c, 0x0a, 0x36, 0x3a, 0x2e, 0x24)
    else if x == 0x07 then Products(0x0e, 0x09, 0x3f, 0x31, 0x23, 0x2a)
    else if x == 0x08 then Products(0x10, 0x18, 0x48, 0x58, 0x68, 0x70)
    else if x == 0x09 then Products(0x12, 0x1b, 0x41, 0x53, 0x65, 0x7e)
    else if x == 0x0a then Products(0x14, 0x1e, 0x5a, 0x4e, 0x72, 0x6c)
    else if x == 0x0b then Products(0x16, 0x1d, 0x53, 0x45, 0x7f, 0x62)
    else if x == 0x0c then Products(0x18, 0x14, 0x6c, 0x74, 0x5c, 0x48)
    else if x == 0x0d then Products(0x1a, 0x17, 0x65, 0x7f, 0x51, 0x46)
    else if x == 0x0e then Products(0x1c, 0x12, 0x7e, 0x62, 0x46, 0x54)
    else if x == 0x0f then Products(0x1e, 0x11, 0x77, 0x69, 0x4b, 0x5a)
    else if x == 0x10 then Products(0x20, 0x30, 0x90, 0xb0, 0xd0, 0xe0)
    else if x == 0x11 then Products(0x22, 0x33, 0x99, 0xbb, 0xdd, 0xee)
    else if x == 0x12 then Products(0x24, 0x36, 0x82, 0xa6, 0xca, 0xfc)
    else if x == 0x13 then Products(0x26, 0x35, 0x8b, 0xad, 0xc7, 0xf2)
    else if x == 0x14 then Products(0x28, 0x3c, 0xb4, 0x9c, 0xe4, 0xd8)
    else if x == 0x15 then Products(0x2a, 0x3f, 0xbd, 0x97, 0xe9, 0xd6)
    else if x == 0x16 then Products(0x2c, 0x3a, 0xa6, 0x8a, 0xfe, 0xc4)
    else if x == 0x17 then Products(0x2e, 0x39, 0xaf, 0x81, 0xf3, 0xca)
    else if x == 0x18 then Products(0x30, 0x28, 0xd8, 0xe8, 0xb8, 0x90)
    else if x == 0x19 then Products(0x32, 0x2b, 0xd1, 0xe3, 0xb5, 0x9e)
    else if x == 0x1a then Products(0x34, 0x2e, 0xca, 0xfe, 0xa2, 0x8c)
    else if x == 0x1b then Products(0x36, 0x2d, 0xc3, 0xf5, 0xaf, 0x82)
    else if x == 0x1c then Products(0x38, 0x24, 0xfc, 0xc4, 0x8c, 0xa8)
    else if x == 0x1d then Products(0x3a, 0x27, 0xf5, 0xcf, 0x81, 0xa6)
    else if x == 0x1e then Products(0x3c, 0x22, 0xee, 0xd2, 0x96, 0xb4)
    else Products(0x3e, 0x21, 0xe7, 0xd9, 0x9b, 0xba)
  }

  function Products1(x: bv8): Products {
    if x == 0x20 then Products(0x40, 0x60, 0x3b, 0x7b, 0xbb, 0xdb)
    else if x == 0x21 then Products(0x42, 0x63, 0x32, 0x70, 0xb6, 0xd5)
    else if x == 0x22 then Products(0x44, 0x66, 0x29, 0x6d, 0xa1, 0xc7)
    else if x == 0x23 then Products(0x46, 0x65, 0x20, 0x66, 0xac, 0xc9)
    else if x == 0x24 then Products(0x48, 0x6c, 0x1f, 0x57, 0x8f, 0xe3)
    else if x == 0x25 then Products(0x4a, 0x6f, 0x16, 0x5c, 0x82, 0xed)
    else if x == 0x26 then Products(0x4c, 0x6a, 0x0d, 0x41, 0x95, 0xff)
    else if x == 0x27 then Products(0x4e, 0x69, 0x04, 0x4a, 0x98, 0xf1)
    else if x == 0x28 then Products(0x50, 0x78, 0x73, 0x23, 0xd3, 0xab)
    else if x == 0x29 then Products(0x52, 0x7b, 0x7a, 0x28, 0xde, 0xa5)
    else if x == 0x2a then Products(0x54, 0x7e, 0x61, 0x35, 0xc9, 0xb7)
    else if x == 0x2b then Products(0x56, 0x7d, 0x68, 0x3e, 0xc4, 0xb9)
    else if x == 0x2c then Products(0x58, 0x74, 0x57, 0x0f, 0xe7, 0x93)
    else if x == 0x2d then Products(0x5a, 0x77, 0x5e, 0x04, 0xea, 0x9d)
    else if x == 0x2e then Products(0x5c, 0x72, 0x45, 0x19, 0xfd, 0x8f)
    else if x == 0x2f then Products(0x5e, 0x71, 0x4c, 0x12, 0xf0, 0x81)
    else if x == 0x30 then Products(0x60, 0x50, 0xab, 0xcb, 0x6b, 0x3b)
    else if x == 0x31 then Products(0x62, 0x53, 0xa2, 0xc0, 0x66, 0x35)
    else if x == 0x32 then Products(0x64, 0x56, 0xb9, 0xdd, 0x71, 0x27)
    else if x == 0x33 then Products(0x66, 0x55, 0xb0, 0xd6, 0x7c, 0x29)
    else if x == 0x34 then Products(0x68, 0x5c, 0x8f, 0xe7, 0x5f, 0x03)
    else if x == 0x35 then Products(0x6a, 0x5f, 0x86, 0xec, 0x52, 0x0d)
    else if x == 0x36 then Products(0x6c, 0x5a, 0x9d, 0xf1, 0x45, 0x1f)
    else if x == 0x37 then Products(0x6e, 0x59, 0x94, 0xfa, 0x48, 0x11)
    else if x == 0x38 then Products(0x70, 0x48, 0xe3, 0x93, 0x03, 0x4b)
    else if x == 0x39 then Products(0x72, 0x4b, 0xea, 0x98, 0x0e, 0x45)
    else if x == 0x3a then Products(0x74, 0x4e, 0xf1, 0x85, 0x19, 0x57)
    else if x == 0x3b then Products(0x76, 0x4d, 0xf8, 0x8e, 0x14, 0x59)
    else if x == 0x3c then Products(0x78, 0x44, 0xc7, 0xbf, 0x37, 0x73)
    else if x == 0x3d then Products(0x7a, 0x47, 0xce, 0xb4, 0x3a, 0x7d)
    else if x == 0x3e then Products(0x7c, 0x42, 0xd5, 0xa9, 0x2d, 0x6f)
    else Products(0x7e, 0x41, 0xdc, 0xa2, 0x20, 0x61)
  }

  function Products2(x: bv8): Products {
    if x == 0x40 then Products(0x80, 0xc0, 0x76, 0xf6, 0x6d, 0xad)
    else if x == 0x41 then Products(0x82, 0xc3, 0x7f, 0xfd, 0x60, 0xa3)
    else if x == 0x42 then Products(0x84, 0xc6, 0x64, 0xe0, 0x77, 0xb1)
    else if x == 0x43 then Products(0x86, 0xc5, 0x6d, 0xeb, 0x7a, 0xbf)
    else if x == 0x44 then Products(0x88, 0xcc, 0x52, 0xda, 0x59, 0x95)
    else if x == 0x45 then Products(0x8a, 0xcf, 0x5b, 0xd1, 0x54, 0x9b)
    else if x == 0x46 then Products(0x8c, 0xca, 0x40, 0xcc, 0x43, 0x89)
    else if x == 0x47 then Products(0x8e, 0xc9, 0x49, 0xc7, 0x4e, 0x87)
    else if x == 0x48 then Products(0x90, 0xd8, 0x3e, 0xae, 0x05, 0xdd)
    else if x == 0x49 then Products(0x92, 0xdb, 0x37, 0xa5, 0x08, 0xd3)
    else if x == 0x4a then Products(0x94, 0xde, 0x2c, 0xb8, 0x1f, 0xc1)
    else if x == 0x4b then Products(0x96, 0xdd, 0x25, 0xb3, 0x12, 0xcf)
    else if x == 0x4c then Products(0x98, 0xd4, 0x1a, 0x82, 0x31, 0xe5)
    else if x == 0x4d then Products(0x9a, 0xd7, 0x13, 0x89, 0x3c, 0xeb)
    else if x == 0x4e then Products(0x9c, 0xd2, 0x08, 0x94, 0x2b, 0xf9)
    else if x == 0x4f then Products(0x9e, 0xd1, 0x01, 0x9f, 0x26, 0xf7)
    else if x == 0x50 then Products(0xa0, 0xf0, 0xe6, 0x46, 0xbd, 0x4d)
    else if x == 0x51 then Products(0xa2, 0xf3, 0xef, 0x4d, 0xb0, 0x43)
    else if x == 0x52 then Products(0xa4, 0xf6, 0xf4, 0x50, 0xa7, 0x51)
    else if x == 0x53 then Products(0xa6, 0xf5, 0xfd, 0x5b, 0xaa, 0x5f)
    else if x == 0x54 then Products(0xa8, 0xfc, 0xc2, 0x6a, 0x89, 0x75)
    else if x == 0x55 then Products(0xaa, 0xff, 0xcb, 0x61, 0x84, 0x7b)
    else if x == 0x56 then Products(0xac, 0xfa, 0xd0, 0x7c, 0x93, 0x69)
    else if x == 0x57 then Products(0xae, 0xf9, 0xd9, 0x77, 0x9e, 0x67)
    else if x == 0x58 then Products(0xb0, 0xe8, 0xae, 0x1e, 0xd5, 0x3d)
    else if x == 0x59 then Products(0xb2, 0xeb, 0xa7, 0x15, 0xd8, 0x33)
    else if x == 0x5a then Products(0xb4, 0xee, 0xbc, 0x08, 0xcf, 0x21)
    else if x == 0x5b then Products(0xb6, 0xed, 0xb5, 0x03, 0xc2, 0x2f)
    else if x == 0x5c then Products(0xb8, 0xe4, 0x8a, 0x32, 0xe1, 0x05)
    else if x == 0x5d then Products(0xba, 0xe7, 0x83, 0x39, 0xec, 0x0b)
    else if x == 0x5e then Products(0xbc, 0xe2, 0x98, 0x24, 0xfb, 0x19)
    else Products(0xbe, 0xe1, 0x91, 0x2f, 0xf6, 0x17)
  }

  function Products3(x: bv8): Products {
    if x == 0x60 then Products(0xc0, 0xa0, 0x4d, 0x8d, 0xd6, 0x76)
    else if x == 0x61 then Products(0xc2, 0xa3, 0x44, 0x86, 0xdb, 0x78)
    else if x == 0x62 then Products(0xc4, 0xa6, 0x5f, 0x9b, 0xcc, 0x6a)
    else if x == 0x63 then Products(0xc6, 0xa5, 0x56, 0x90, 0xc1, 0x64)
    else if x == 0x64 then Products(0xc8, 0xac, 0x69, 0xa1, 0xe2, 0x4e)
    else if x == 0x65 then Products(0xca, 0xaf, 0x60, 0xaa, 0xef, 0x40)
    else if x == 0x66 then Products(0xcc, 0xaa, 0x7b, 0xb7, 0xf8, 0x52)
    else if x == 0x67 then Products(0xce, 0xa9, 0x72, 0xbc, 0xf5, 0x5c)
    else if x == 0x68 then Products(0xd0, 0xb8, 0x05, 0xd5, 0xbe, 0x06)
    else if x == 0x69 then Products(0xd2, 0xbb, 0x0c, 0xde, 0xb3, 0x08)
    else if x == 0x6a then Products(0xd4, 0xbe, 0x17, 0xc3, 0xa4, 0x1a)
    else if x == 0x6b then Products(0xd6, 0xbd, 0x1e, 0xc8, 0xa9, 0x14)
    else if x == 0x6c then Products(0xd8, 0xb4, 0x21, 0xf9, 0x8a, 0x3e)
    else if x == 0x6d then Products(0xda, 0xb7, 0x28, 0xf2, 0x87, 0x30)
    else if x == 0x6e then Products(0xdc, 0xb2, 0x33, 0xef, 0x90, 0x22)
    else if x == 0x6f then Products(0xde, 0xb1, 0x3a, 0xe4, 0x9d, 0x2c)
    else if x == 0x70 then Products(0xe0, 0x90, 0xdd, 0x3d, 0x06, 0x96)
    else if x == 0x71 then Products(0xe2, 0x93, 0xd4, 0x36, 0x0b, 0x98)
    else if x == 0x72 then Products(0xe4, 0x96, 0xcf, 0x2b, 0x1c, 0x8a)
    else if x == 0x73 then Products(0xe6, 0x95, 0xc6, 0x20, 0x11, 0x84)
    else if x == 0x74 then Products(0xe8, 0x9c, 0xf9, 0x11, 0x32, 0xae)
    else if x == 0x75 then Products(0xea, 0x9f, 0xf0, 0x1a, 0x3f, 0xa0)
    else if x == 0x76 then Products(0xec, 0x9a, 0xeb, 0x07, 0x28, 0xb2)
    else if x == 0x77 then Products(0xee, 0x99, 0xe2, 0x0c, 0x25, 0xbc)
    else if x == 0x78 then Products(0xf0, 0x88, 0x95, 0x65, 0x6e, 0xe6)
    else if x == 0x79 then Products(0xf2, 0x8b, 0x9c, 0x6e, 0x63, 0xe8)
    else if x == 0x7a then Products(0xf4, 0x8e, 0x87, 0x73, 0x74, 0xfa)
    else if x == 0x7b then Products(0xf6, 0x8d, 0x8e, 0x78, 0x79, 0xf4)
    else if x == 0x7c then Products(0xf8, 0x84, 0xb1, 0x49, 0x5a, 0xde)
    else if x == 0x7d then Products(0xfa, 0x87, 0xb8, 0x42, 0x57, 0xd0)
    else if x == 0x7e then Products(0xfc, 0x82, 0xa3, 0x5f, 0x40, 0xc2)
    else Products(0xfe, 0x81, 0xaa, 0x54, 0x4d, 0xcc)
  }

  function Products4(x: bv8): Products {
    if x == 0x80 then Products(0x1b, 0x9b, 0xec, 0xf7, 0xda, 0x41)
    else if x == 0x81 then Products(0x19, 0x98, 0xe5, 0xfc, 0xd7, 0x4f)
    else if x == 0x82 then Products(0x1f, 0x9d, 0xfe, 0xe1, 0xc0, 0x5d)
    else if x == 0x83 then Products(0x1d, 0x9e, 0xf7, 0xea, 0xcd, 0x53)
    else if x == 0x84 then Products(0x13, 0x97, 0xc8, 0xdb, 0xee, 0x79)
    else if x == 0x85 then Products(0x11, 0x94, 0xc1, 0xd0, 0xe3, 0x77)
    else if x == 0x86 then Products(0x17, 0x91, 0xda, 0xcd, 0xf4, 0x65)
    else if x == 0x87 then Products(0x15, 0x92, 0xd3, 0xc6, 0xf9, 0x6b)
    else if x == 0x88 then Products(0x0b, 0x83, 0xa4, 0xaf, 0xb2, 0x31)
    else if x == 0x89 then Products(0x09, 0x80, 0xad, 0xa4, 0xbf, 0x3f)
    else if x == 0x8a then Products(0x0f, 0x85, 0xb6, 0xb9, 0xa8, 0x2d)
    else if x == 0x8b then Products(0x0d, 0x86, 0xbf, 0xb2, 0xa5, 0x23)
    else if x == 0x8c then Products(0x03, 0x8f, 0x80, 0x83, 0x86, 0x09)
    else if x == 0x8d then Products(0x01, 0x8c, 0x89, 0x88, 0x8b, 0x07)
    else if x == 0x8e then Products(0x07, 0x89, 0x92, 0x95, 0x9c, 0x15)
    else if x == 0x8f then Products(0x05, 0x8a, 0x9b, 0x9e, 0x91, 0x1b)
    else if x == 0x90 then Products(0x3b, 0xab, 0x7c, 0x47, 0x0a, 0xa1)
    else if x == 0x91 then Products(0x39, 0xa8, 0x75, 0x4c, 0x07, 0xaf)
    else if x == 0x92 then Products(0x3f, 0xad, 0x6e, 0x51, 0x10, 0xbd)
    else if x == 0x93 then Products(0x3d, 0xae, 0x67, 0x5a, 0x1d, 0xb3)
    else if x == 0x94 then Products(0x33, 0xa7, 0x58, 0x6b, 0x3e, 0x99)
    else if x == 0x95 then Products(0x31, 0xa4, 0x51, 0x60, 0x33, 0x97)
    else if x == 0x96 then Products(0x37, 0xa1, 0x4a, 0x7d, 0x24, 0x85)
    else if x == 0x97 then Products(0x35, 0xa2, 0x43, 0x76, 0x29, 0x8b)
    else if x == 0x98 then Products(0x2b, 0xb3, 0x34, 0x1f, 0x62, 0xd1)
    else if x == 0x99 then Products(0x29, 0xb0, 0x3d, 0x14, 0x6f, 0xdf)
    else if x == 0x9a then Products(0x2f, 0xb5, 0x26, 0x09, 0x78, 0xcd)
    else if x == 0x9b then Products(0x2d, 0xb6, 0x2f, 0x02, 0x75, 0xc3)
    else if x == 0x9c then Products(0x23, 0xbf, 0x10, 0x33, 0x56, 0xe9)
    else if x == 0x9d then Products(0x21, 0xbc, 0x19, 0x38, 0x5b, 0xe7)
    else if x == 0x9e then Products(0x27, 0xb9, 0x02, 0x25, 0x4c, 0xf5)
    else Products(0x25, 0xba, 0x0b, 0x2e, 0x41, 0xfb)
  }

  function Products5(x: bv8): Products {
    if x == 0xa0 then Products(0x5b, 0xfb, 0xd7, 0x8c, 0x61, 0x9a)
    else if x == 0xa1 then Products(0x59, 0xf8, 0xde, 0x87, 0x6c, 0x94)
    else if x == 0xa2 then Products(0x5f, 0xfd, 0xc5, 0x9a, 0x7b, 0x86)
    else if x == 0xa3 then Products(0x5d, 0xfe, 0xcc, 0x91, 0x76, 0x88)
    else if x == 0xa4 then Products(0x53, 0xf7, 0xf3, 0xa0, 0x55, 0xa2)
    else if x == 0xa5 then Products(0x51, 0xf4, 0xfa, 0xab, 0x58, 0xac)
    else if x == 0xa6 then Products(0x57, 0xf1, 0xe1, 0xb6, 0x4f, 0xbe)
    else if x == 0xa7 then Products(0x55, 0xf2, 0xe8, 0xbd, 0x42, 0xb0)
    else if x == 0xa8 then Products(0x4b, 0xe3, 0x9f, 0xd4, 0x09, 0xea)
    else if x == 0xa9 then Products(0x49, 0xe0, 0x96, 0xdf, 0x04, 0xe4)
    else if x == 0xaa then Products(0x4f, 0xe5, 0x8d, 0xc2, 0x13, 0xf6)
    else if x == 0xab then Products(0x4d, 0xe6, 0x84, 0xc9, 0x1e, 0xf8)
    else if x == 0xac then Products(0x43, 0xef, 0xbb, 0xf8, 0x3d, 0xd2)
    else if x == 0xad then Products(0x41, 0xec, 0xb2, 0xf3, 0x30, 0xdc)
    else if x == 0xae then Products(0x47, 0xe9, 0xa9, 0xee, 0x27, 0xce)
    else if x == 0xaf then Products(0x45, 0xea, 0xa0, 0xe5, 0x2a, 0xc0)
    else if x == 0xb0 then Products(0x7b, 0xcb, 0x47, 0x3c, 0xb1, 0x7a)
    else if x == 0xb1 then Products(0x79, 0xc8, 0x4e, 0x37, 0xbc, 0x74)
    else if x == 0xb2 then Products(0x7f, 0xcd, 0x55, 0x2a, 0xab, 0x66)
    else if x == 0xb3 then Products(0x7d, 0xce, 0x5c, 0x21, 0xa6, 0x68)
    else if x == 0xb4 then Products(0x73, 0xc7, 0x63, 0x10, 0x85, 0x42)
    else if x == 0xb5 then Products(0x71, 0xc4, 0x6a, 0x1b, 0x88, 0x4c)
    else if x == 0xb6 then Products(0x77, 0xc1, 0x71, 0x06, 0x9f, 0x5e)
    else if x == 0xb7 then Products(0x75, 0xc2, 0x78, 0x0d, 0x92, 0x50)
    else if x == 0xb8 then Products(0x6b, 0xd3, 0x0f, 0x64, 0xd9, 0x0a)
    else if x == 0xb9 then Products(0x69, 0xd0, 0x06, 0x6f, 0xd4, 0x04)
    else if x == 0xba then Products(0x6f, 0xd5, 0x1d, 0x72, 0xc3, 0x16)
    else if x == 0xbb then Products(0x6d, 0xd6, 0x14, 0x79, 0xce, 0x18)
    else if x == 0xbc then Products(0x63, 0xdf, 0x2b, 0x48, 0xed, 0x32)
    else if x == 0xbd then Products(0x61, 0xdc, 0x22, 0x43, 0xe0, 0x3c)
    else if x == 0xbe then Products(0x67, 0xd9, 0x39, 0x5e, 0xf7, 0x2e)
    else Products(0x65, 0xda, 0x30, 0x55, 0xfa, 0x20)
  }

  function Products6(x: bv8): Products {
    if x == 0xc0 then Products(0x9b, 0x5b, 0x9a, 0x01, 0xb7, 0xec)
    else if x == 0xc1 then Products(0x99, 0x58, 0x93, 0x0a, 0xba, 0xe2)
    else if x == 0xc2 then Products(0x9f, 0x5d, 0x88, 0x17, 0xad, 0xf0)
    else if x == 0xc3 then Products(0x9d, 0x5e, 0x81, 0x1c, 0xa0, 0xfe)
    else if x == 0xc4 then Products(0x93, 0x57, 0xbe, 0x2d, 0x83, 0xd4)
    else if x == 0xc5 then Products(0x91, 0x54, 0xb7, 0x26, 0x8e, 0xda)
    else if x == 0xc6 then Products(0x97, 0x51, 0xac, 0x3b, 0x99, 0xc8)
    else if x == 0xc7 then Products(0x95, 0x52, 0xa5, 0x30, 0x94, 0xc6)
    else if x == 0xc8 then Products(0x8b, 0x43, 0xd2, 0x59, 0xdf, 0x9c)
    else if x == 0xc9 then Products(0x89, 0x40, 0xdb, 0x52, 0xd2, 0x92)
    else if x == 0xca then Products(0x8f, 0x45, 0xc0, 0x4f, 0xc5, 0x80)
    else if x == 0xcb then Products(0x8d, 0x46, 0xc9, 0x44, 0xc8, 0x8e)
    else if x == 0xcc then Products(0x83, 0x4f, 0xf6, 0x75, 0xeb, 0xa4)
    else if x == 0xcd then Products(0x81, 0x4c, 0xff, 0x7e, 0xe6, 0xaa)
    else if x == 0xce then Products(0x87, 0x49, 0xe4, 0x63, 0xf1, 0xb8)
    else if x == 0xcf then Products(0x85, 0x4a, 0xed, 0x68, 0xfc, 0xb6)
    else if x == 0xd0 then Products(0xbb, 0x6b, 0x0a, 0xb1, 0x67, 0x0c)
    else if x == 0xd1 then Products(0xb9, 0x68, 0x03, 0xba, 0x6a, 0x02)
    else if x == 0xd2 then Products(0xbf, 0x6d, 0x18, 0xa7, 0x7d, 0x10)
    else if x == 0xd3 then Products(0xbd, 0x6e, 0x11, 0xac, 0x70, 0x1e)
    else if x == 0xd4 then Products(0xb3, 0x67, 0x2e, 0x9d, 0x53, 0x34)
    else if x == 0xd5 then Products(0xb1, 0x64, 0x27, 0x96, 0x5e, 0x3a)
    else if x == 0xd6 then Products(0xb7, 0x61, 0x3c, 0x8b, 0x49, 0x28)
    else if x == 0xd7 then Products(0xb5, 0x62, 0x35, 0x80, 0x44, 0x26)
    else if x == 0xd8 then Products(0xab, 0x73, 0x42, 0xe9, 0x0f, 0x7c)
    else if x == 0xd9 then Products(0xa9, 0x70, 0x4b, 0xe2, 0x02, 0x72)
    else if x == 0xda then Products(0xaf, 0x75, 0x50, 0xff, 0x15, 0x60)
    else if x == 0xdb then Products(0xad, 0x76, 0x59, 0xf4, 0x18, 0x6e)
    else if x == 0xdc then Products(0xa3, 0x7f, 0x66, 0xc5, 0x3b, 0x44)
    else if x == 0xdd then Products(0xa1, 0x7c, 0x6f, 0xce, 0x36, 0x4a)
    else if x == 0xde then Products(0xa7, 0x79, 0x74, 0xd3, 0x21, 0x58)
    else Products(0xa5, 0x7a, 0x7d, 0xd8, 0x2c, 0x56)
  }

  function Products7(x: bv8): Products {
    if x == 0xe0 then Products(0xdb, 0x3b, 0xa1, 0x7a, 0x0c, 0x37)
    else if x == 0xe1 then Products(0xd9, 0x38, 0xa8, 0x71, 0x01, 0x39)
    else if x == 0xe2 then Products(0xdf, 0x3d, 0xb3, 0x6c, 0x16, 0x2b)
    else if x == 0xe3 then Products(0xdd, 0x3e, 0xba, 0x67, 0x1b, 0x25)
    else if x == 0xe4 then Products(0xd3, 0x37, 0x85, 0x56, 0x38, 0x0f)
    else if x == 0xe5 then Products(0xd1, 0x34, 0x8c, 0x5d, 0x35, 0x01)
    else if x == 0xe6 then Products(0xd7, 0x31, 0x97, 0x40, 0x22, 0x13)
    else if x == 0xe7 then Products(0xd5, 0x32, 0x9e, 0x4b, 0x2f, 0x1d)
    else if x == 0xe8 then Products(0xcb, 0x23, 0xe9, 0x22, 0x64, 0x47)
    else if x == 0xe9 then Products(0xc9, 0x20, 0xe0, 0x29, 0x69, 0x49)
    else if x == 0xea then Products(0xcf, 0x25, 0xfb, 0x34, 0x7e, 0x5b)
    else if x == 0xeb then Products(0xcd, 0x26, 0xf2, 0x3f, 0x73, 0x55)
    else if x == 0xec then Products(0xc3, 0x2f, 0xcd, 0x0e, 0x50, 0x7f)
    else if x == 0xed then Products(0xc1, 0x2c, 0xc4, 0x05, 0x5d, 0x71)
    else if x == 0xee then Products(0xc7, 0x29, 0xdf, 0x18, 0x4a, 0x63)
    else if x == 0xef then Products(0xc5, 0x2a, 0xd6, 0x13, 0x47, 0x6d)
    else if x == 0xf0 then Products(0xfb, 0x0b, 0x31, 0xca, 0xdc, 0xd7)
    else if x == 0xf1 then Products(0xf9, 0x08, 0x38, 0xc1, 0xd1, 0xd9)
    else if x == 0xf2 then Products(0xff, 0x0d, 0x23, 0xdc, 0xc6, 0xcb)
    else if x == 0xf3 then Products(0xfd, 0x0e, 0x2a, 0xd7, 0xcb, 0xc5)
    else if x == 0xf4 then Products(0xf3, 0x07, 0x15, 0xe6, 0xe8, 0xef)
    else if x == 0xf5 then Products(0xf1, 0x04, 0x1c, 0xed, 0xe5, 0xe1)
    else if x == 0xf6 then Products(0xf7, 0x01, 0x07, 0xf0, 0xf2, 0xf3)
    else if x == 0xf7 then Products(0xf5, 0x02, 0x0e, 0xfb, 0xff, 0xfd)
    else if x == 0xf8 then Products(0xeb, 0x13, 0x79, 0x92, 0xb4, 0xa7)
    else if x == 0xf9 then Products(0xe9, 0x10, 0x70, 0x99, 0xb9, 0xa9)
    else if x == 0xfa then Products(0xef, 0x15, 0x6b, 0x84, 0xae, 0xbb)
    else if x == 0xfb then Products(0xed, 0x16, 0x62, 0x8f, 0xa3, 0xb5)
    else if x == 0xfc then Products(0xe3, 0x1f, 0x5d, 0xbe, 0x80, 0x9f)
    else if x == 0xfd then Products(0xe1, 0x1c, 0x54, 0xb5, 0x8d, 0x91)
    else if x == 0xfe then Products(0xe7, 0x19, 0x4f, 0xa8, 0x9a, 0x83)
    else Products(0xe5, 0x1a, 0x46, 0xa3, 0x97, 0x8d)
  }

  /** gf_mul */
  function Gf(x: bv8): Products {
    var k := x >> 5;
    if k == 0 then Products0(x) else if k == 1 then Products1(x) else if k == 2 then Products2(x)
    else if k == 3 then Products3(x) else if k == 4 then Products4(x) else if k == 5 then Products5(x)
    else if k == 6 then Products6(x) else Products7(x)
  }

  /** Addition in GF(2^8). */
  function Add(a: bv8, b: bv8): bv8 {
    a ^ b
  }

  predicate TopBit(x: bv8) {
    x & 0x80 != 0
  }

  function Double(x: bv8): bv8 {
    x << 1
  }

  /** Multiplication by x modulo x^8 + x^4 + x^3 + x + 1, section 4.2.1 of FIPS 197. */
  function XTime(x: bv8): bv8 {
    if TopBit(x) then Add(Double(x), 0x1b) else Double(x)
  }

  /** The products of a byte, from the binary expansions of the factors. */
  function ProductsOf(x: bv8): Products {
    var x2 := XTime(x);
    var x4 := XTime(x2);
    var x8 := XTime(x4);
    Products(x2, Add(x2, x), Add(x8, x), Add(Add(x8, x2), x), Add(Add(x8, x4), x), Add(Add(x8, x4), x2))
  }

  lemma Products0Right(x: bv8)
    requires x >> 5 == 0
    ensures Products0(x) == ProductsOf(x)
  {
    hide Products0, ProductsOf;
    if x & 0x10 == 0 { Products0Low(x); } else { Products0High(x); }
  }

  lemma Products0Low(x: bv8)
    requires x >> 5 == 0 && x & 0x10 == 0
    ensures Products0(x) == ProductsOf(x)
  {
  }

  lemma Products0High(x: bv8)
    requires x >> 5 == 0 && x & 0x10 != 0
    ensures Products0(x) == ProductsOf(x)
  {
  }

  lemma Products1Right(x: bv8)
    requires x >> 5 == 1
    ensures Products1(x) == ProductsOf(x)
  {
    hide Products1, ProductsOf;
    if x & 0x10 == 0 { Products1Low(x); } else { Products1High(x); }
  }

  lemma Products1Low(x: bv8)
    requires x >> 5 == 1 && x & 0x10 == 0
    ensures Products1(x) == ProductsOf(x)
  {
  }

  lemma Products1High(x: bv8)
    requires x >> 5 == 1 && x & 0x10 != 0
    ensures Products1(x) == ProductsOf(x)
  {
  }

  lemma Products2Right(x: bv8)
    requires x >> 5 == 2
    ensures Products2(x) == ProductsOf(x)
  {
    hide Products2, ProductsOf;
    if x & 0x10 == 0 { Products2Low(x); } else { Products2High(x); }
  }

  lemma Products2Low(x: bv8)
    requires x >> 5 == 2 && x & 0x10 == 0
    ensures Products2(x) == ProductsOf(x)
  {
  }

  lemma Products2High(x: bv8)
    requires x >> 5 == 2 && x & 0x10 != 0
    ensures Products2(x) == ProductsOf(x)
  {
  }

  lemma Products3Right(x: bv8)
    requires x >> 5 == 3
    ensures Products3(x) == ProductsOf(x)
  {
    hide Products3, ProductsOf;
    if x & 0x10 == 0 { Products3Low(x); } else { Products3High(x); }
  }

  lemma Products3Low(x: bv8)
    requires x >> 5 == 3 && x & 0x10 == 0
    ensures Products3(x) == ProductsOf(x)
  {
  }

  lemma Products3High(x: bv8)
    requires x >> 5 == 3 && x & 0x10 != 0
    ensures Products3(x) == ProductsOf(x)
  {
  }

  lemma Products4Right(x: bv8)
    requires x >> 5 == 4
    ensures Products4(x) == ProductsOf(x)
  {
    hide Products4, ProductsOf;
    if x & 0x10 == 0 { Products4Low(x); } else { Products4High(x); }
  }

  lemma Products4Low(x: bv8)
    requires x >> 5 == 4 && x & 0x10 == 0
    ensures Products4(x) == ProductsOf(x)
  {
  }

  lemma Products4High(x: bv8)
    requires x >> 5 == 4 && x & 0x10 != 0
    ensures Products4(x) == ProductsOf(x)
  {
  }

  lemma Products5Right(x: bv8)
    requires x >> 5 == 5
    ensures Products5(x) == ProductsOf(x)
  {
    hide Products5, ProductsOf;
    if x & 0x10 == 0 { Products5Low(x); } else { Products5High(x); }
  }

  lemma Products5Low(x: bv8)
    requires x >> 5 == 5 && x & 0x10 == 0
    ensures Products5(x) == ProductsOf(x)
  {
  }

  lemma Products5High(x: bv8)
    requires x >> 5 == 5 && x & 0x10 != 0
    ensures Products5(x) == ProductsOf(x)
  {
  }

  lemma Products6Right(x: bv8)
    requires x >> 5 == 6
    ensures Products6(x) == ProductsOf(x)
  {
    hide Products6, ProductsOf;
    if x & 0x10 == 0 { Products6Low(x); } else { Products6High(x); }
  }

  lemma Products6Low(x: bv8)
    requires x >> 5 == 6 && x & 0x10 == 0
    ensures Products6(x) == ProductsOf(x)
  {
  }

  lemma Products6High(x: bv8)
    requires x >> 5 == 6 && x & 0x10 != 0
    ensures Products6(x) == ProductsOf(x)
  {
  }

  lemma Products7Right(x: bv8)
    requires x >> 5 == 7
    ensures Products7(x) == ProductsOf(x)
  {
    hide Products7, ProductsOf;
    if x & 0x10 == 0 { Products7Low(x); } else { Products7High(x); }
  }

  lemma Products7Low(x: bv8)
    requires x >> 5 == 7 && x & 0x10 == 0
    ensures Products7(x) == ProductsOf(x)
  {
  }

  lemma Products7High(x: bv8)
    requires x >> 5 == 7 && x & 0x10 != 0
    ensures Products7(x) == ProductsOf(x)
  {
  }

  /** Every entry of gf_mul is the product that it stands for. */
  lemma GfRight(x: bv8)
    ensures Gf(x) == ProductsOf(x)
  {
    hide ProductsOf, Products0, Products1, Products2, Products3, Products4, Products5, Products6, Products7;
    var k := x >> 5;
    if k == 0 {
      Products0Right(x);
    } else if k == 1 {
      Products1Right(x);
    } else if k == 2 {
      Products2Right(x);
    } else if k == 3 {
      Products3Right(x);
    } else if k == 4 {
      Products4Right(x);
    } else if k == 5 {
      Products5Right(x);
    } else if k == 6 {
      Products6Right(x);
    } else {
      ThreeBits(x);
      Products7Right(x);
    }
  }

  lemma ThreeBits(x: bv8)
    ensures x >> 5 <= 7
  {
  }
}
