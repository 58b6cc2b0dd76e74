/**
 Examples of FIPS 197: a block under a key of 128 bits, appendix C.1, round by round, and the schedule of a
 key of 256 bits, that of appendix C.3.
 */
module AesExample {
  import opened AesTables
  import opened Aes

  const PLAIN: seq<bv8> := [0x00, 0x11, 0x22, 0x33, 0x44, 0x55, 0x66, 0x77, 0x88, 0x99, 0xaa, 0xbb, 0xcc, 0xdd, 0xee, 0xff]

  const KEY128: seq<bv8> := [0x00, 0x01, 0x02, 0x03, 0x04, 0x05, 0x06, 0x07, 0x08, 0x09, 0x0a, 0x0b, 0x0c, 0x0d, 0x0e, 0x0f]

  const MORE: seq<bv8> := [0x10, 0x11, 0x12, 0x13, 0x14, 0x15, 0x16, 0x17, 0x18, 0x19, 0x1a, 0x1b, 0x1c, 0x1d, 0x1e, 0x1f]

  const KEY256: seq<bv8> := KEY128 + MORE

  /** The schedule of one of the keys. */
  ghost predicate Expanded(w: seq<bv32>, nk: nat) {
    (nk == 4 && w == Expand(KEY128, 128)) || (nk == 8 && w == Expand(KEY256, 256))
  }

  // ---- The schedule ----

  lemma FirstWord(w: seq<bv32>, nk: nat, i: nat, x: bv32)
    requires Expanded(w, nk) && i < nk && (if nk == 4 then CipherKeyWord(KEY128, i) else CipherKeyWord(KEY256, i)) == x
    ensures |w| == 4 * nk + 28 && w[i] == x
  {
    hide CipherKeyWord;
    if nk == 4 {
      FirstWords(KEY128, 4, i);
    } else {
      FirstWords(KEY256, 8, i);
    }
  }

  /** A word from the one `nk` places back and the one before. */
  lemma LaterWord(w: seq<bv32>, nk: nat, i: nat, back: bv32, x: bv32)
    requires Expanded(w, nk) && nk <= i < 4 * nk + 28 <= |w| && w[i - nk] == back && i % nk != 0 && !(nk == 8 && i % nk == 4)
    requires AddWord(back, w[i - 1]) == x
    ensures w[i] == x
  {
    hide AddWord, ScheduleWord;
    StepOf(w, nk, i);
  }

  /** A word behind a multiple of the key's length, or with 256 bits behind four more. */
  lemma MixedWord(w: seq<bv32>, nk: nat, i: nat, k: nat, back: bv32, turned: bv32, c: Column, x: bv32)
    requires Expanded(w, nk) && nk <= i < 4 * nk + 28 <= |w| && w[i - nk] == back && (i % nk == 0 || (nk == 8 && i % nk == 4))
    requires k == (i - 1) / nk && k < 15 && (if i % nk == 0 then RotWord(w[i - 1]) else w[i - 1]) == turned
    requires SubColumn(WordColumn(turned)) == c
    requires (if i % nk == 0 then AddWord(back, AddWord(ColumnWord(c), Rcon(k))) else AddWord(back, ColumnWord(c))) == x
    ensures w[i] == x
  {
    hide Rcon, ScheduleWord, RotWord, SubColumn, WordColumn, ColumnWord, AddWord;
    StepOf(w, nk, i);
  }

  lemma WordOf(w: seq<bv32>, nk: nat, i: nat)
    requires Expanded(w, nk) && i < 4 * nk + 28
    ensures |w| == 4 * nk + 28 && w[i] == if nk == 4 then ScheduleWord(KEY128, 4, i) else ScheduleWord(KEY256, 8, i)
  {
    hide ScheduleWord, Expand;
    if nk == 4 {
      ExpandAt(KEY128, 128, i);
    } else {
      ExpandAt(KEY256, 256, i);
    }
  }

  lemma StepOf(w: seq<bv32>, nk: nat, i: nat)
    requires Expanded(w, nk) && nk <= i < 4 * nk + 28 <= |w|
    ensures (i - 1) / nk < 15
    ensures w[i] == AddWord(w[i - nk], Temp(i, nk, w[i - 1], Rcon((i - 1) / nk)))
  {
    hide Rcon, ScheduleWord, Temp, AddWord;
    WordOf(w, nk, i);
    WordOf(w, nk, i - 1);
    WordOf(w, nk, i - nk);
    if nk == 4 {
      NextWord(KEY128, 4, i);
    } else {
      NextWord(KEY256, 8, i);
    }
  }

  lemma Words128_0(w: seq<bv32>)
    requires Expanded(w, 4)
    ensures |w| == 44
    ensures w[0] == 0x00010203 && w[1] == 0x04050607 && w[2] == 0x08090a0b && w[3] == 0x0c0d0e0f
  {
    hide Expanded;
    FirstWord(w, 4, 0, 0x00010203);
    FirstWord(w, 4, 1, 0x04050607);
    FirstWord(w, 4, 2, 0x08090a0b);
    FirstWord(w, 4, 3, 0x0c0d0e0f);
  }

  lemma Words128_1(w: seq<bv32>)
    requires Expanded(w, 4)
    ensures |w| == 44
    ensures w[4] == 0xd6aa74fd && w[5] == 0xd2af72fa && w[6] == 0xdaa678f1 && w[7] == 0xd6ab76fe
  {
    hide Expanded;
    Words128_0(w);
    MixedWord(w, 4, 4, 0, 0x00010203, 0x0d0e0f0c, Column(0xd7, 0xab, 0x76, 0xfe), 0xd6aa74fd);
    LaterWord(w, 4, 5, 0x04050607, 0xd2af72fa);
    LaterWord(w, 4, 6, 0x08090a0b, 0xdaa678f1);
    LaterWord(w, 4, 7, 0x0c0d0e0f, 0xd6ab76fe);
  }

  lemma Words128_2(w: seq<bv32>)
    requires Expanded(w, 4)
    ensures |w| == 44
    ensures w[8] == 0xb692cf0b && w[9] == 0x643dbdf1 && w[10] == 0xbe9bc500 && w[11] == 0x6830b3fe
  {
    hide Expanded;
    Words128_1(w);
    MixedWord(w, 4, 8, 1, 0xd6aa74fd, 0xab76fed6, Column(0x62, 0x38, 0xbb, 0xf6), 0xb692cf0b);
    LaterWord(w, 4, 9, 0xd2af72fa, 0x643dbdf1);
    LaterWord(w, 4, 10, 0xdaa678f1, 0xbe9bc500);
    LaterWord(w, 4, 11, 0xd6ab76fe, 0x6830b3fe);
  }

  lemma Words128_3(w: seq<bv32>)
    requires Expanded(w, 4)
    ensures |w| == 44
    ensures w[12] == 0xb6ff744e && w[13] == 0xd2c2c9bf && w[14] == 0x6c590cbf && w[15] == 0x0469bf41
  {
    hide Expanded;
    Words128_2(w);
    MixedWord(w, 4, 12, 2, 0xb692cf0b, 0x30b3fe68, Column(0x04, 0x6d, 0xbb, 0x45), 0xb6ff744e);
    LaterWord(w, 4, 13, 0x643dbdf1, 0xd2c2c9bf);
    LaterWord(w, 4, 14, 0xbe9bc500, 0x6c590cbf);
    LaterWord(w, 4, 15, 0x6830b3fe, 0x0469bf41);
  }

  lemma Words128_4(w: seq<bv32>)
    requires Expanded(w, 4)
    ensures |w| == 44
    ensures w[16] == 0x47f7f7bc && w[17] == 0x95353e03 && w[18] == 0xf96c32bc && w[19] == 0xfd058dfd
  {
    hide Expanded;
    Words128_3(w);
    MixedWord(w, 4, 16, 3, 0xb6ff744e, 0x69bf4104, Column(0xf9, 0x08, 0x83, 0xf2), 0x47f7f7bc);
    LaterWord(w, 4, 17, 0xd2c2c9bf, 0x95353e03);
    LaterWord(w, 4, 18, 0x6c590cbf, 0xf96c32bc);
    LaterWord(w, 4, 19, 0x0469bf41, 0xfd058dfd);
  }

  lemma Words128_5(w: seq<bv32>)
    requires Expanded(w, 4)
    ensures |w| == 44
    ensures w[20] == 0x3caaa3e8 && w[21] == 0xa99f9deb && w[22] == 0x50f3af57 && w[23] == 0xadf622aa
  {
    hide Expanded;
    Words128_4(w);
    MixedWord(w, 4, 20, 4, 0x47f7f7bc, 0x058dfdfd, Column(0x6b, 0x5d, 0x54, 0x54), 0x3caaa3e8);
    LaterWord(w, 4, 21, 0x95353e03, 0xa99f9deb);
    LaterWord(w, 4, 22, 0xf96c32bc, 0x50f3af57);
    LaterWord(w, 4, 23, 0xfd058dfd, 0xadf622aa);
  }

  lemma Words128_6(w: seq<bv32>)
    requires Expanded(w, 4)
    ensures |w| == 44
    ensures w[24] == 0x5e390f7d && w[25] == 0xf7a69296 && w[26] == 0xa7553dc1 && w[27] == 0x0aa31f6b
  {
    hide Expanded;
    Words128_5(w);
    MixedWord(w, 4, 24, 5, 0x3caaa3e8, 0xf622aaad, Column(0x42, 0x93, 0xac, 0x95), 0x5e390f7d);
    LaterWord(w, 4, 25, 0xa99f9deb, 0xf7a69296);
    LaterWord(w, 4, 26, 0x50f3af57, 0xa7553dc1);
    LaterWord(w, 4, 27, 0xadf622aa, 0x0aa31f6b);
  }

  lemma Words128_7(w: seq<bv32>)
    requires Expanded(w, 4)
    ensures |w| == 44
    ensures w[28] == 0x14f9701a && w[29] == 0xe35fe28c && w[30] == 0x440adf4d && w[31] == 0x4ea9c026
  {
    hide Expanded;
    Words128_6(w);
    MixedWord(w, 4, 28, 6, 0x5e390f7d, 0xa31f6b0a, Column(0x0a, 0xc0, 0x7f, 0x67), 0x14f9701a);
    LaterWord(w, 4, 29, 0xf7a69296, 0xe35fe28c);
    LaterWord(w, 4, 30, 0xa7553dc1, 0x440adf4d);
    LaterWord(w, 4, 31, 0x0aa31f6b, 0x4ea9c026);
  }

  lemma Words128_8(w: seq<bv32>)
    requires Expanded(w, 4)
    ensures |w| == 44
    ensures w[32] == 0x47438735 && w[33] == 0xa41c65b9 && w[34] == 0xe016baf4 && w[35] == 0xaebf7ad2
  {
    hide Expanded;
    Words128_7(w);
    MixedWord(w, 4, 32, 7, 0x14f9701a, 0xa9c0264e, Column(0xd3, 0xba, 0xf7, 0x2f), 0x47438735);
    LaterWord(w, 4, 33, 0xe35fe28c, 0xa41c65b9);
    LaterWord(w, 4, 34, 0x440adf4d, 0xe016baf4);
    LaterWord(w, 4, 35, 0x4ea9c026, 0xaebf7ad2);
  }

  lemma Words128_9(w: seq<bv32>)
    requires Expanded(w, 4)
    ensures |w| == 44
    ensures w[36] == 0x549932d1 && w[37] == 0xf0855768 && w[38] == 0x1093ed9c && w[39] == 0xbe2c974e
  {
    hide Expanded;
    Words128_8(w);
    MixedWord(w, 4, 36, 8, 0x47438735, 0xbf7ad2ae, Column(0x08, 0xda, 0xb5, 0xe4), 0x549932d1);
    LaterWord(w, 4, 37, 0xa41c65b9, 0xf0855768);
    LaterWord(w, 4, 38, 0xe016baf4, 0x1093ed9c);
    LaterWord(w, 4, 39, 0xaebf7ad2, 0xbe2c974e);
  }

  lemma Words128_10(w: seq<bv32>)
    requires Expanded(w, 4)
    ensures |w| == 44
    ensures w[40] == 0x13111d7f && w[41] == 0xe3944a17 && w[42] == 0xf307a78b && w[43] == 0x4d2b30c5
  {
    hide Expanded;
    Words128_9(w);
    MixedWord(w, 4, 40, 9, 0x549932d1, 0x2c974ebe, Column(0x71, 0x88, 0x2f, 0xae), 0x13111d7f);
    LaterWord(w, 4, 41, 0xf0855768, 0xe3944a17);
    LaterWord(w, 4, 42, 0x1093ed9c, 0xf307a78b);
    LaterWord(w, 4, 43, 0xbe2c974e, 0x4d2b30c5);
  }

  lemma Words256_0(w: seq<bv32>)
    requires Expanded(w, 8)
    ensures |w| == 60
    ensures w[0] == 0x00010203 && w[1] == 0x04050607 && w[2] == 0x08090a0b && w[3] == 0x0c0d0e0f
  {
    hide Expanded;
    FirstWord(w, 8, 0, 0x00010203);
    FirstWord(w, 8, 1, 0x04050607);
    FirstWord(w, 8, 2, 0x08090a0b);
    FirstWord(w, 8, 3, 0x0c0d0e0f);
  }

  lemma Words256_1(w: seq<bv32>)
    requires Expanded(w, 8)
    ensures |w| == 60
    ensures w[4] == 0x10111213 && w[5] == 0x14151617 && w[6] == 0x18191a1b && w[7] == 0x1c1d1e1f
  {
    hide Expanded;
    FirstWord(w, 8, 4, 0x10111213);
    FirstWord(w, 8, 5, 0x14151617);
    FirstWord(w, 8, 6, 0x18191a1b);
    FirstWord(w, 8, 7, 0x1c1d1e1f);
  }

  lemma Words256_2(w: seq<bv32>)
    requires Expanded(w, 8)
    ensures |w| == 60
    ensures w[8] == 0xa573c29f && w[9] == 0xa176c498 && w[10] == 0xa97fce93 && w[11] == 0xa572c09c
  {
    hide Expanded;
    Words256_0(w);
    Words256_1(w);
    MixedWord(w, 8, 8, 0, 0x00010203, 0x1d1e1f1c, Column(0xa4, 0x72, 0xc0, 0x9c), 0xa573c29f);
    LaterWord(w, 8, 9, 0x04050607, 0xa176c498);
    LaterWord(w, 8, 10, 0x08090a0b, 0xa97fce93);
    LaterWord(w, 8, 11, 0x0c0d0e0f, 0xa572c09c);
  }

  lemma Words256_3(w: seq<bv32>)
    requires Expanded(w, 8)
    ensures |w| == 60
    ensures w[12] == 0x1651a8cd && w[13] == 0x0244beda && w[14] == 0x1a5da4c1 && w[15] == 0x0640bade
  {
    hide Expanded;
    Words256_1(w);
    Words256_2(w);
    MixedWord(w, 8, 12, 1, 0x10111213, 0xa572c09c, Column(0x06, 0x40, 0xba, 0xde), 0x1651a8cd);
    LaterWord(w, 8, 13, 0x14151617, 0x0244beda);
    LaterWord(w, 8, 14, 0x18191a1b, 0x1a5da4c1);
    LaterWord(w, 8, 15, 0x1c1d1e1f, 0x0640bade);
  }

  lemma Words256_4(w: seq<bv32>)
    requires Expanded(w, 8)
    ensures |w| == 60
    ensures w[16] == 0xae87dff0 && w[17] == 0x0ff11b68 && w[18] == 0xa68ed5fb && w[19] == 0x03fc1567
  {
    hide Expanded;
    Words256_2(w);
    Words256_3(w);
    MixedWord(w, 8, 16, 1, 0xa573c29f, 0x40bade06, Column(0x09, 0xf4, 0x1d, 0x6f), 0xae87dff0);
    LaterWord(w, 8, 17, 0xa176c498, 0x0ff11b68);
    LaterWord(w, 8, 18, 0xa97fce93, 0xa68ed5fb);
    LaterWord(w, 8, 19, 0xa572c09c, 0x03fc1567);
  }

  lemma Words256_5(w: seq<bv32>)
    requires Expanded(w, 8)
    ensures |w| == 60
    ensures w[20] == 0x6de1f148 && w[21] == 0x6fa54f92 && w[22] == 0x75f8eb53 && w[23] == 0x73b8518d
  {
    hide Expanded;
    Words256_3(w);
    Words256_4(w);
    MixedWord(w, 8, 20, 2, 0x1651a8cd, 0x03fc1567, Column(0x7b, 0xb0, 0x59, 0x85), 0x6de1f148);
    LaterWord(w, 8, 21, 0x0244beda, 0x6fa54f92);
    LaterWord(w, 8, 22, 0x1a5da4c1, 0x75f8eb53);
    LaterWord(w, 8, 23, 0x0640bade, 0x73b8518d);
  }

  lemma Words256_6(w: seq<bv32>)
    requires Expanded(w, 8)
    ensures |w| == 60
    ensures w[24] == 0xc656827f && w[25] == 0xc9a79917 && w[26] == 0x6f294cec && w[27] == 0x6cd5598b
  {
    hide Expanded;
    Words256_4(w);
    Words256_5(w);
    MixedWord(w, 8, 24, 2, 0xae87dff0, 0xb8518d73, Column(0x6c, 0xd1, 0x5d, 0x8f), 0xc656827f);
    LaterWord(w, 8, 25, 0x0ff11b68, 0xc9a79917);
    LaterWord(w, 8, 26, 0xa68ed5fb, 0x6f294cec);
    LaterWord(w, 8, 27, 0x03fc1567, 0x6cd5598b);
  }

  lemma Words256_7(w: seq<bv32>)
    requires Expanded(w, 8)
    ensures |w| == 60
    ensures w[28] == 0x3de23a75 && w[29] == 0x524775e7 && w[30] == 0x27bf9eb4 && w[31] == 0x5407cf39
  {
    hide Expanded;
    Words256_5(w);
    Words256_6(w);
    MixedWord(w, 8, 28, 3, 0x6de1f148, 0x6cd5598b, Column(0x50, 0x03, 0xcb, 0x3d), 0x3de23a75);
    LaterWord(w, 8, 29, 0x6fa54f92, 0x524775e7);
    LaterWord(w, 8, 30, 0x75f8eb53, 0x27bf9eb4);
    LaterWord(w, 8, 31, 0x73b8518d, 0x5407cf39);
  }

  lemma Words256_8(w: seq<bv32>)
    requires Expanded(w, 8)
    ensures |w| == 60
    ensures w[32] == 0x0bdc905f && w[33] == 0xc27b0948 && w[34] == 0xad5245a4 && w[35] == 0xc1871c2f
  {
    hide Expanded;
    Words256_6(w);
    Words256_7(w);
    MixedWord(w, 8, 32, 3, 0xc656827f, 0x07cf3954, Column(0xc5, 0x8a, 0x12, 0x20), 0x0bdc905f);
    LaterWord(w, 8, 33, 0xc9a79917, 0xc27b0948);
    LaterWord(w, 8, 34, 0x6f294cec, 0xad5245a4);
    LaterWord(w, 8, 35, 0x6cd5598b, 0xc1871c2f);
  }

  lemma Words256_9(w: seq<bv32>)
    requires Expanded(w, 8)
    ensures |w| == 60
    ensures w[36] == 0x45f5a660 && w[37] == 0x17b2d387 && w[38] == 0x300d4d33 && w[39] == 0x640a820a
  {
    hide Expanded;
    Words256_7(w);
    Words256_8(w);
    MixedWord(w, 8, 36, 4, 0x3de23a75, 0xc1871c2f, Column(0x78, 0x17, 0x9c, 0x15), 0x45f5a660);
    LaterWord(w, 8, 37, 0x524775e7, 0x17b2d387);
    LaterWord(w, 8, 38, 0x27bf9eb4, 0x300d4d33);
    LaterWord(w, 8, 39, 0x5407cf39, 0x640a820a);
  }

  lemma Words256_10(w: seq<bv32>)
    requires Expanded(w, 8)
    ensures |w| == 60
    ensures w[40] == 0x7ccff71c && w[41] == 0xbeb4fe54 && w[42] == 0x13e6bbf0 && w[43] == 0xd261a7df
  {
    hide Expanded;
    Words256_8(w);
    Words256_9(w);
    MixedWord(w, 8, 40, 4, 0x0bdc905f, 0x0a820a64, Column(0x67, 0x13, 0x67, 0x43), 0x7ccff71c);
    LaterWord(w, 8, 41, 0xc27b0948, 0xbeb4fe54);
    LaterWord(w, 8, 42, 0xad5245a4, 0x13e6bbf0);
    LaterWord(w, 8, 43, 0xc1871c2f, 0xd261a7df);
  }

  lemma Words256_11(w: seq<bv32>)
    requires Expanded(w, 8)
    ensures |w| == 60
    ensures w[44] == 0xf01afafe && w[45] == 0xe7a82979 && w[46] == 0xd7a5644a && w[47] == 0xb3afe640
  {
    hide Expanded;
    Words256_9(w);
    Words256_10(w);
    MixedWord(w, 8, 44, 5, 0x45f5a660, 0xd261a7df, Column(0xb5, 0xef, 0x5c, 0x9e), 0xf01afafe);
    LaterWord(w, 8, 45, 0x17b2d387, 0xe7a82979);
    LaterWord(w, 8, 46, 0x300d4d33, 0xd7a5644a);
    LaterWord(w, 8, 47, 0x640a820a, 0xb3afe640);
  }

  lemma Words256_12(w: seq<bv32>)
    requires Expanded(w, 8)
    ensures |w| == 60
    ensures w[48] == 0x2541fe71 && w[49] == 0x9bf50025 && w[50] == 0x8813bbd5 && w[51] == 0x5a721c0a
  {
    hide Expanded;
    Words256_10(w);
    Words256_11(w);
    MixedWord(w, 8, 48, 5, 0x7ccff71c, 0xafe640b3, Column(0x79, 0x8e, 0x09, 0x6d), 0x2541fe71);
    LaterWord(w, 8, 49, 0xbeb4fe54, 0x9bf50025);
    LaterWord(w, 8, 50, 0x13e6bbf0, 0x8813bbd5);
    LaterWord(w, 8, 51, 0xd261a7df, 0x5a721c0a);
  }

  lemma Words256_13(w: seq<bv32>)
    requires Expanded(w, 8)
    ensures |w| == 60
    ensures w[52] == 0x4e5a6699 && w[53] == 0xa9f24fe0 && w[54] == 0x7e572baa && w[55] == 0xcdf8cdea
  {
    hide Expanded;
    Words256_11(w);
    Words256_12(w);
    MixedWord(w, 8, 52, 6, 0xf01afafe, 0x5a721c0a, Column(0xbe, 0x40, 0x9c, 0x67), 0x4e5a6699);
    LaterWord(w, 8, 53, 0xe7a82979, 0xa9f24fe0);
    LaterWord(w, 8, 54, 0xd7a5644a, 0x7e572baa);
    LaterWord(w, 8, 55, 0xb3afe640, 0xcdf8cdea);
  }

  lemma Words256_14(w: seq<bv32>)
    requires Expanded(w, 8)
    ensures |w| == 60
    ensures w[56] == 0x24fc79cc && w[57] == 0xbf0979e9 && w[58] == 0x371ac23c && w[59] == 0x6d68de36
  {
    hide Expanded;
    Words256_12(w);
    Words256_13(w);
    MixedWord(w, 8, 56, 6, 0x2541fe71, 0xf8cdeacd, Column(0x41, 0xbd, 0x87, 0xbd), 0x24fc79cc);
    LaterWord(w, 8, 57, 0x9bf50025, 0xbf0979e9);
    LaterWord(w, 8, 58, 0x8813bbd5, 0x371ac23c);
    LaterWord(w, 8, 59, 0x5a721c0a, 0x6d68de36);
  }

  // ---- The rounds ----

  /** MixColumns as in section 5.1.3 of FIPS 197, with products by x. */
  function MixedByX(c: Column): Column {
    Column(Add4(XTime(c.r0), Add(XTime(c.r1), c.r1), c.r2, c.r3),
           Add4(c.r0, XTime(c.r1), Add(XTime(c.r2), c.r2), c.r3),
           Add4(c.r0, c.r1, XTime(c.r2), Add(XTime(c.r3), c.r3)),
           Add4(Add(XTime(c.r0), c.r0), c.r1, c.r2, XTime(c.r3)))
  }

  lemma MixColumnIs(c: Column)
    ensures MixColumn(c) == MixedByX(c)
  {
    hide Gf, Add, Add4, XTime;
    GfRight(c.r0);
    GfRight(c.r1);
    GfRight(c.r2);
    GfRight(c.r3);
  }

  /** The state of the example after some rounds, as columns of four bytes. */
  ghost predicate Reached(w: seq<bv32>, i: nat, s: State) {
    |w| >= 4 * i + 4 && Forward(ToState(PLAIN), w, i) == s
  }

  lemma Turn(w: seq<bv32>, i: nat, s: State, shifted: State, mixed: State, t: State)
    requires i > 0 && Reached(w, i - 1, s) && |w| >= 4 * i + 4
    requires ShiftState(SubState(s)) == shifted
    requires State(MixedByX(shifted.c0), MixedByX(shifted.c1), MixedByX(shifted.c2), MixedByX(shifted.c3)) == mixed
    requires AddState(mixed, RoundKey(w, i)) == t
    ensures Reached(w, i, t)
  {
    hide AddState, SubState, ShiftState, MixColumn, MixedByX, RoundKey;
    MixColumnIs(shifted.c0);
    MixColumnIs(shifted.c1);
    MixColumnIs(shifted.c2);
    MixColumnIs(shifted.c3);
  }

  lemma KeyIs(w: seq<bv32>, i: nat, w0: bv32, w1: bv32, w2: bv32, w3: bv32)
    requires |w| >= 4 * i + 4 && w[4 * i] == w0 && w[4 * i + 1] == w1 && w[4 * i + 2] == w2 && w[4 * i + 3] == w3
    ensures RoundKey(w, i) == State(WordColumn(w0), WordColumn(w1), WordColumn(w2), WordColumn(w3))
  {
    hide WordColumn;
  }

  lemma Round0(w: seq<bv32>)
    requires Expanded(w, 4)
    ensures Reached(w, 0, State(Column(0x00, 0x10, 0x20, 0x30), Column(0x40, 0x50, 0x60, 0x70), Column(0x80, 0x90, 0xa0, 0xb0), Column(0xc0, 0xd0, 0xe0, 0xf0)))
  {
    Words128_0(w);
    hide Expanded, RoundKey;
    KeyIs(w, 0, 0x00010203, 0x04050607, 0x08090a0b, 0x0c0d0e0f);
  }

  lemma Bytes1a()
    ensures SubColumn(Column(0x00, 0x10, 0x20, 0x30)) == Column(0x63, 0xca, 0xb7, 0x04)
    ensures SubColumn(Column(0x40, 0x50, 0x60, 0x70)) == Column(0x09, 0x53, 0xd0, 0x51)
  {
  }

  lemma Bytes1b()
    ensures SubColumn(Column(0x80, 0x90, 0xa0, 0xb0)) == Column(0xcd, 0x60, 0xe0, 0xe7)
    ensures SubColumn(Column(0xc0, 0xd0, 0xe0, 0xf0)) == Column(0xba, 0x70, 0xe1, 0x8c)
  {
  }

  lemma Round1(w: seq<bv32>)
    requires Expanded(w, 4)
    ensures Reached(w, 1, State(Column(0x89, 0xd8, 0x10, 0xe8), Column(0x85, 0x5a, 0xce, 0x68), Column(0x2d, 0x18, 0x43, 0xd8), Column(0xcb, 0x12, 0x8f, 0xe4)))
  {
    hide Reached, Expanded, RoundKey, SubColumn;
    Round0(w);
    Words128_1(w);
    KeyIs(w, 1, 0xd6aa74fd, 0xd2af72fa, 0xdaa678f1, 0xd6ab76fe);
    Bytes1a();
    Bytes1b();
    var shifted := State(Column(0x63, 0x53, 0xe0, 0x8c), Column(0x09, 0x60, 0xe1, 0x04), Column(0xcd, 0x70, 0xb7, 0x51), Column(0xba, 0xca, 0xd0, 0xe7));
    Turn(w, 1, State(Column(0x00, 0x10, 0x20, 0x30), Column(0x40, 0x50, 0x60, 0x70), Column(0x80, 0x90, 0xa0, 0xb0), Column(0xc0, 0xd0, 0xe0, 0xf0)),
      shifted, State(Column(0x5f, 0x72, 0x64, 0x15), Column(0x57, 0xf5, 0xbc, 0x92), Column(0xf7, 0xbe, 0x3b, 0x29), Column(0x1d, 0xb9, 0xf9, 0x1a)),
      State(Column(0x89, 0xd8, 0x10, 0xe8), Column(0x85, 0x5a, 0xce, 0x68), Column(0x2d, 0x18, 0x43, 0xd8), Column(0xcb, 0x12, 0x8f, 0xe4)));
  }

  lemma Bytes2a()
    ensures SubColumn(Column(0x89, 0xd8, 0x10, 0xe8)) == Column(0xa7, 0x61, 0xca, 0x9b)
    ensures SubColumn(Column(0x85, 0x5a, 0xce, 0x68)) == Column(0x97, 0xbe, 0x8b, 0x45)
  {
  }

  lemma Bytes2b()
    ensures SubColumn(Column(0x2d, 0x18, 0x43, 0xd8)) == Column(0xd8, 0xad, 0x1a, 0x61)
    ensures SubColumn(Column(0xcb, 0x12, 0x8f, 0xe4)) == Column(0x1f, 0xc9, 0x73, 0x69)
  {
  }

  lemma Round2(w: seq<bv32>)
    requires Expanded(w, 4)
    ensures Reached(w, 2, State(Column(0x49, 0x15, 0x59, 0x8f), Column(0x55, 0xe5, 0xd7, 0xa0), Column(0xda, 0xca, 0x94, 0xfa), Column(0x1f, 0x0a, 0x63, 0xf7)))
  {
    hide Reached, Expanded, RoundKey, SubColumn;
    Round1(w);
    Words128_2(w);
    KeyIs(w, 2, 0xb692cf0b, 0x643dbdf1, 0xbe9bc500, 0x6830b3fe);
    Bytes2a();
    Bytes2b();
    var shifted := State(Column(0xa7, 0xbe, 0x1a, 0x69), Column(0x97, 0xad, 0x73, 0x9b), Column(0xd8, 0xc9, 0xca, 0x45), Column(0x1f, 0x61, 0x8b, 0x61));
    Turn(w, 2, State(Column(0x89, 0xd8, 0x10, 0xe8), Column(0x85, 0x5a, 0xce, 0x68), Column(0x2d, 0x18, 0x43, 0xd8), Column(0xcb, 0x12, 0x8f, 0xe4)),
      shifted, State(Column(0xff, 0x87, 0x96, 0x84), Column(0x31, 0xd8, 0x6a, 0x51), Column(0x64, 0x51, 0x51, 0xfa), Column(0x77, 0x3a, 0xd0, 0x09)),
      State(Column(0x49, 0x15, 0x59, 0x8f), Column(0x55, 0xe5, 0xd7, 0xa0), Column(0xda, 0xca, 0x94, 0xfa), Column(0x1f, 0x0a, 0x63, 0xf7)));
  }

  lemma Bytes3a()
    ensures SubColumn(Column(0x49, 0x15, 0x59, 0x8f)) == Column(0x3b, 0x59, 0xcb, 0x73)
    ensures SubColumn(Column(0x55, 0xe5, 0xd7, 0xa0)) == Column(0xfc, 0xd9, 0x0e, 0xe0)
  {
  }

  lemma Bytes3b()
    ensures SubColumn(Column(0xda, 0xca, 0x94, 0xfa)) == Column(0x57, 0x74, 0x22, 0x2d)
    ensures SubColumn(Column(0x1f, 0x0a, 0x63, 0xf7)) == Column(0xc0, 0x67, 0xfb, 0x68)
  {
  }

  lemma Round3(w: seq<bv32>)
    requires Expanded(w, 4)
    ensures Reached(w, 3, State(Column(0xfa, 0x63, 0x6a, 0x28), Column(0x25, 0xb3, 0x39, 0xc9), Column(0x40, 0x66, 0x8a, 0x31), Column(0x57, 0x24, 0x4d, 0x17)))
  {
    hide Reached, Expanded, RoundKey, SubColumn;
    Round2(w);
    Words128_3(w);
    KeyIs(w, 3, 0xb6ff744e, 0xd2c2c9bf, 0x6c590cbf, 0x0469bf41);
    Bytes3a();
    Bytes3b();
    var shifted := State(Column(0x3b, 0xd9, 0x22, 0x68), Column(0xfc, 0x74, 0xfb, 0x73), Column(0x57, 0x67, 0xcb, 0xe0), Column(0xc0, 0x59, 0x0e, 0x2d));
    Turn(w, 3, State(Column(0x49, 0x15, 0x59, 0x8f), Column(0x55, 0xe5, 0xd7, 0xa0), Column(0xda, 0xca, 0x94, 0xfa), Column(0x1f, 0x0a, 0x63, 0xf7)),
      shifted, State(Column(0x4c, 0x9c, 0x1e, 0x66), Column(0xf7, 0x71, 0xf0, 0x76), Column(0x2c, 0x3f, 0x86, 0x8e), Column(0x53, 0x4d, 0xf2, 0x56)),
      State(Column(0xfa, 0x63, 0x6a, 0x28), Column(0x25, 0xb3, 0x39, 0xc9), Column(0x40, 0x66, 0x8a, 0x31), Column(0x57, 0x24, 0x4d, 0x17)));
  }

  lemma Bytes4a()
    ensures SubColumn(Column(0xfa, 0x63, 0x6a, 0x28)) == Column(0x2d, 0xfb, 0x02, 0x34)
    ensures SubColumn(Column(0x25, 0xb3, 0x39, 0xc9)) == Column(0x3f, 0x6d, 0x12, 0xdd)
  {
  }

  lemma Bytes4b()
    ensures SubColumn(Column(0x40, 0x66, 0x8a, 0x31)) == Column(0x09, 0x33, 0x7e, 0xc7)
    ensures SubColumn(Column(0x57, 0x24, 0x4d, 0x17)) == Column(0x5b, 0x36, 0xe3, 0xf0)
  {
  }

  lemma Round4(w: seq<bv32>)
    requires Expanded(w, 4)
    ensures Reached(w, 4, State(Column(0x24, 0x72, 0x40, 0x23), Column(0x69, 0x66, 0xb3, 0xfa), Column(0x6e, 0xd2, 0x75, 0x32), Column(0x88, 0x42, 0x5b, 0x6c)))
  {
    hide Reached, Expanded, RoundKey, SubColumn;
    Round3(w);
    Words128_4(w);
    KeyIs(w, 4, 0x47f7f7bc, 0x95353e03, 0xf96c32bc, 0xfd058dfd);
    Bytes4a();
    Bytes4b();
    var shifted := State(Column(0x2d, 0x6d, 0x7e, 0xf0), Column(0x3f, 0x33, 0xe3, 0x34), Column(0x09, 0x36, 0x02, 0xdd), Column(0x5b, 0xfb, 0x12, 0xc7));
    Turn(w, 4, State(Column(0xfa, 0x63, 0x6a, 0x28), Column(0x25, 0xb3, 0x39, 0xc9), Column(0x40, 0x66, 0x8a, 0x31), Column(0x57, 0x24, 0x4d, 0x17)),
      shifted, State(Column(0x63, 0x85, 0xb7, 0x9f), Column(0xfc, 0x53, 0x8d, 0xf9), Column(0x97, 0xbe, 0x47, 0x8e), Column(0x75, 0x47, 0xd6, 0x91)),
      State(Column(0x24, 0x72, 0x40, 0x23), Column(0x69, 0x66, 0xb3, 0xfa), Column(0x6e, 0xd2, 0x75, 0x32), Column(0x88, 0x42, 0x5b, 0x6c)));
  }

  lemma Bytes5a()
    ensures SubColumn(Column(0x24, 0x72, 0x40, 0x23)) == Column(0x36, 0x40, 0x09, 0x26)
    ensures SubColumn(Column(0x69, 0x66, 0xb3, 0xfa)) == Column(0xf9, 0x33, 0x6d, 0x2d)
  {
  }

  lemma Bytes5b()
    ensures SubColumn(Column(0x6e, 0xd2, 0x75, 0x32)) == Column(0x9f, 0xb5, 0x9d, 0x23)
    ensures SubColumn(Column(0x88, 0x42, 0x5b, 0x6c)) == Column(0xc4, 0x2c, 0x39, 0x50)
  {
  }

  lemma Round5(w: seq<bv32>)
    requires Expanded(w, 4)
    ensures Reached(w, 5, State(Column(0xc8, 0x16, 0x77, 0xbc), Column(0x9b, 0x7a, 0xc9, 0x3b), Column(0x25, 0x02, 0x79, 0x92), Column(0xb0, 0x26, 0x19, 0x96)))
  {
    hide Reached, Expanded, RoundKey, SubColumn;
    Round4(w);
    Words128_5(w);
    KeyIs(w, 5, 0x3caaa3e8, 0xa99f9deb, 0x50f3af57, 0xadf622aa);
    Bytes5a();
    Bytes5b();
    var shifted := State(Column(0x36, 0x33, 0x9d, 0x50), Column(0xf9, 0xb5, 0x39, 0x26), Column(0x9f, 0x2c, 0x09, 0x2d), Column(0xc4, 0x40, 0x6d, 0x23));
    Turn(w, 5, State(Column(0x24, 0x72, 0x40, 0x23), Column(0x69, 0x66, 0xb3, 0xfa), Column(0x6e, 0xd2, 0x75, 0x32), Column(0x88, 0x42, 0x5b, 0x6c)),
      shifted, State(Column(0xf4, 0xbc, 0xd4, 0x54), Column(0x32, 0xe5, 0x54, 0xd0), Column(0x75, 0xf1, 0xd6, 0xc5), Column(0x1d, 0xd0, 0x3b, 0x3c)),
      State(Column(0xc8, 0x16, 0x77, 0xbc), Column(0x9b, 0x7a, 0xc9, 0x3b), Column(0x25, 0x02, 0x79, 0x92), Column(0xb0, 0x26, 0x19, 0x96)));
  }

  lemma Bytes6a()
    ensures SubColumn(Column(0xc8, 0x16, 0x77, 0xbc)) == Column(0xe8, 0x47, 0xf5, 0x65)
    ensures SubColumn(Column(0x9b, 0x7a, 0xc9, 0x3b)) == Column(0x14, 0xda, 0xdd, 0xe2)
  {
  }

  lemma Bytes6b()
    ensures SubColumn(Column(0x25, 0x02, 0x79, 0x92)) == Column(0x3f, 0x77, 0xb6, 0x4f)
    ensures SubColumn(Column(0xb0, 0x26, 0x19, 0x96)) == Column(0xe7, 0xf7, 0xd4, 0x90)
  {
  }

  lemma Round6(w: seq<bv32>)
    requires Expanded(w, 4)
    ensures Reached(w, 6, State(Column(0xc6, 0x2f, 0xe1, 0x09), Column(0xf7, 0x5e, 0xed, 0xc3), Column(0xcc, 0x79, 0x39, 0x5d), Column(0x84, 0xf9, 0xcf, 0x5d)))
  {
    hide Reached, Expanded, RoundKey, SubColumn;
    Round5(w);
    Words128_6(w);
    KeyIs(w, 6, 0x5e390f7d, 0xf7a69296, 0xa7553dc1, 0x0aa31f6b);
    Bytes6a();
    Bytes6b();
    var shifted := State(Column(0xe8, 0xda, 0xb6, 0x90), Column(0x14, 0x77, 0xd4, 0x65), Column(0x3f, 0xf7, 0xf5, 0xe2), Column(0xe7, 0x47, 0xdd, 0x4f));
    Turn(w, 6, State(Column(0xc8, 0x16, 0x77, 0xbc), Column(0x9b, 0x7a, 0xc9, 0x3b), Column(0x25, 0x02, 0x79, 0x92), Column(0xb0, 0x26, 0x19, 0x96)),
      shifted, State(Column(0x98, 0x16, 0xee, 0x74), Column(0x00, 0xf8, 0x7f, 0x55), Column(0x6b, 0x2c, 0x04, 0x9c), Column(0x8e, 0x5a, 0xd0, 0x36)),
      State(Column(0xc6, 0x2f, 0xe1, 0x09), Column(0xf7, 0x5e, 0xed, 0xc3), Column(0xcc, 0x79, 0x39, 0x5d), Column(0x84, 0xf9, 0xcf, 0x5d)));
  }

  lemma Bytes7a()
    ensures SubColumn(Column(0xc6, 0x2f, 0xe1, 0x09)) == Column(0xb4, 0x15, 0xf8, 0x01)
    ensures SubColumn(Column(0xf7, 0x5e, 0xed, 0xc3)) == Column(0x68, 0x58, 0x55, 0x2e)
  {
  }

  lemma Bytes7b()
    ensures SubColumn(Column(0xcc, 0x79, 0x39, 0x5d)) == Column(0x4b, 0xb6, 0x12, 0x4c)
    ensures SubColumn(Column(0x84, 0xf9, 0xcf, 0x5d)) == Column(0x5f, 0x99, 0x8a, 0x4c)
  {
  }

  lemma Round7(w: seq<bv32>)
    requires Expanded(w, 4)
    ensures Reached(w, 7, State(Column(0xd1, 0x87, 0x6c, 0x0f), Column(0x79, 0xc4, 0x30, 0x0a), Column(0xb4, 0x55, 0x94, 0xad), Column(0xd6, 0x6f, 0xf4, 0x1f)))
  {
    hide Reached, Expanded, RoundKey, SubColumn;
    Round6(w);
    Words128_7(w);
    KeyIs(w, 7, 0x14f9701a, 0xe35fe28c, 0x440adf4d, 0x4ea9c026);
    Bytes7a();
    Bytes7b();
    var shifted := State(Column(0xb4, 0x58, 0x12, 0x4c), Column(0x68, 0xb6, 0x8a, 0x01), Column(0x4b, 0x99, 0xf8, 0x2e), Column(0x5f, 0x15, 0x55, 0x4c));
    Turn(w, 7, State(Column(0xc6, 0x2f, 0xe1, 0x09), Column(0xf7, 0x5e, 0xed, 0xc3), Column(0xcc, 0x79, 0x39, 0x5d), Column(0x84, 0xf9, 0xcf, 0x5d)),
      shifted, State(Column(0xc5, 0x7e, 0x1c, 0x15), Column(0x9a, 0x9b, 0xd2, 0x86), Column(0xf0, 0x5f, 0x4b, 0xe0), Column(0x98, 0xc6, 0x34, 0x39)),
      State(Column(0xd1, 0x87, 0x6c, 0x0f), Column(0x79, 0xc4, 0x30, 0x0a), Column(0xb4, 0x55, 0x94, 0xad), Column(0xd6, 0x6f, 0xf4, 0x1f)));
  }

  lemma Bytes8a()
    ensures SubColumn(Column(0xd1, 0x87, 0x6c, 0x0f)) == Column(0x3e, 0x17, 0x50, 0x76)
    ensures SubColumn(Column(0x79, 0xc4, 0x30, 0x0a)) == Column(0xb6, 0x1c, 0x04, 0x67)
  {
  }

  lemma Bytes8b()
    ensures SubColumn(Column(0xb4, 0x55, 0x94, 0xad)) == Column(0x8d, 0xfc, 0x22, 0x95)
    ensures SubColumn(Column(0xd6, 0x6f, 0xf4, 0x1f)) == Column(0xf6, 0xa8, 0xbf, 0xc0)
  {
  }

  lemma Round8(w: seq<bv32>)
    requires Expanded(w, 4)
    ensures Reached(w, 8, State(Column(0xfd, 0xe3, 0xba, 0xd2), Column(0x05, 0xe5, 0xd0, 0xd7), Column(0x35, 0x47, 0x96, 0x4e), Column(0xf1, 0xfe, 0x37, 0xf1)))
  {
    hide Reached, Expanded, RoundKey, SubColumn;
    Round7(w);
    Words128_8(w);
    KeyIs(w, 8, 0x47438735, 0xa41c65b9, 0xe016baf4, 0xaebf7ad2);
    Bytes8a();
    Bytes8b();
    var shifted := State(Column(0x3e, 0x1c, 0x22, 0xc0), Column(0xb6, 0xfc, 0xbf, 0x76), Column(0x8d, 0xa8, 0x50, 0x67), Column(0xf6, 0x17, 0x04, 0x95));
    Turn(w, 8, State(Column(0xd1, 0x87, 0x6c, 0x0f), Column(0x79, 0xc4, 0x30, 0x0a), Column(0xb4, 0x55, 0x94, 0xad), Column(0xd6, 0x6f, 0xf4, 0x1f)),
      shifted, State(Column(0xba, 0xa0, 0x3d, 0xe7), Column(0xa1, 0xf9, 0xb5, 0x6e), Column(0xd5, 0x51, 0x2c, 0xba), Column(0x5f, 0x41, 0x4d, 0x23)),
      State(Column(0xfd, 0xe3, 0xba, 0xd2), Column(0x05, 0xe5, 0xd0, 0xd7), Column(0x35, 0x47, 0x96, 0x4e), Column(0xf1, 0xfe, 0x37, 0xf1)));
  }

  lemma Bytes9a()
    ensures SubColumn(Column(0xfd, 0xe3, 0xba, 0xd2)) == Column(0x54, 0x11, 0xf4, 0xb5)
    ensures SubColumn(Column(0x05, 0xe5, 0xd0, 0xd7)) == Column(0x6b, 0xd9, 0x70, 0x0e)
  {
  }

  lemma Bytes9b()
    ensures SubColumn(Column(0x35, 0x47, 0x96, 0x4e)) == Column(0x96, 0xa0, 0x90, 0x2f)
    ensures SubColumn(Column(0xf1, 0xfe, 0x37, 0xf1)) == Column(0xa1, 0xbb, 0x9a, 0xa1)
  {
  }

  lemma Round9(w: seq<bv32>)
    requires Expanded(w, 4)
    ensures Reached(w, 9, State(Column(0xbd, 0x6e, 0x7c, 0x3d), Column(0xf2, 0xb5, 0x77, 0x9e), Column(0x0b, 0x61, 0x21, 0x6e), Column(0x8b, 0x10, 0xb6, 0x89)))
  {
    hide Reached, Expanded, RoundKey, SubColumn;
    Round8(w);
    Words128_9(w);
    KeyIs(w, 9, 0x549932d1, 0xf0855768, 0x1093ed9c, 0xbe2c974e);
    Bytes9a();
    Bytes9b();
    var shifted := State(Column(0x54, 0xd9, 0x90, 0xa1), Column(0x6b, 0xa0, 0x9a, 0xb5), Column(0x96, 0xbb, 0xf4, 0x0e), Column(0xa1, 0x11, 0x70, 0x2f));
    Turn(w, 9, State(Column(0xfd, 0xe3, 0xba, 0xd2), Column(0x05, 0xe5, 0xd0, 0xd7), Column(0x35, 0x47, 0x96, 0x4e), Column(0xf1, 0xfe, 0x37, 0xf1)),
      shifted, State(Column(0xe9, 0xf7, 0x4e, 0xec), Column(0x02, 0x30, 0x20, 0xf6), Column(0x1b, 0xf2, 0xcc, 0xf2), Column(0x35, 0x3c, 0x21, 0xc7)),
      State(Column(0xbd, 0x6e, 0x7c, 0x3d), Column(0xf2, 0xb5, 0x77, 0x9e), Column(0x0b, 0x61, 0x21, 0x6e), Column(0x8b, 0x10, 0xb6, 0x89)));
  }

  lemma Bytes10a()
    ensures SubColumn(Column(0xbd, 0x6e, 0x7c, 0x3d)) == Column(0x7a, 0x9f, 0x10, 0x27)
    ensures SubColumn(Column(0xf2, 0xb5, 0x77, 0x9e)) == Column(0x89, 0xd5, 0xf5, 0x0b)
  {
  }

  lemma Bytes10b()
    ensures SubColumn(Column(0x0b, 0x61, 0x21, 0x6e)) == Column(0x2b, 0xef, 0xfd, 0x9f)
    ensures SubColumn(Column(0x8b, 0x10, 0xb6, 0x89)) == Column(0x3d, 0xca, 0x4e, 0xa7)
  {
  }

  /** Appendix C.1. */
  lemma Example128()
    ensures EncryptBlock(PLAIN, Expand(KEY128, 128), 128) ==
      [0x69, 0xc4, 0xe0, 0xd8, 0x6a, 0x7b, 0x04, 0x30, 0xd8, 0xcd, 0xb7, 0x80, 0x70, 0xb4, 0xc5, 0x5a]
  {
    hide EncryptBlock, Expand, Forward, RoundKey, SubColumn;
    var w := Expand(KEY128, 128);
    Round9(w);
    Words128_10(w);
    KeyIs(w, 10, 0x13111d7f, 0xe3944a17, 0xf307a78b, 0x4d2b30c5);
    Bytes10a();
    Bytes10b();
    LastTurn(w, State(Column(0xbd, 0x6e, 0x7c, 0x3d), Column(0xf2, 0xb5, 0x77, 0x9e), Column(0x0b, 0x61, 0x21, 0x6e), Column(0x8b, 0x10, 0xb6, 0x89)),
      State(Column(0x7a, 0xd5, 0xfd, 0xa7), Column(0x89, 0xef, 0x4e, 0x27), Column(0x2b, 0xca, 0x10, 0x0b), Column(0x3d, 0x9f, 0xf5, 0x9f)));
  }

  lemma LastTurn(w: seq<bv32>, s: State, shifted: State)
    requires |w| == 44 && Reached(w, 9, s) && ShiftState(SubState(s)) == shifted
    ensures EncryptBlock(PLAIN, w, 128) == ToBlock(AddState(shifted, RoundKey(w, 10)))
  {
    hide AddState, SubState, ShiftState, RoundKey, Forward, ToBlock, ToState;
  }
}
