/**
 DES by examples: the permuted choices of FIPS 46-3 written out, and the block 0123456789abcdef under the key
 133457799bbcdff1, round by round.
 */
module DesExample {
  import opened Words
  import opened Des

  // ---- The permuted choices ----

  lemma LeftBitsGathered(w: Word)
    ensures Octet(w, 0) == Gather(LeftBit(w, 0), LeftBit(w, 1), LeftBit(w, 2), LeftBit(w, 3),
      LeftBit(w, 4), LeftBit(w, 5), LeftBit(w, 6), LeftBit(w, 7))
    ensures Octet(w, 1) == Gather(LeftBit(w, 8), LeftBit(w, 9), LeftBit(w, 10), LeftBit(w, 11),
      LeftBit(w, 12), LeftBit(w, 13), LeftBit(w, 14), LeftBit(w, 15))
    ensures Octet(w, 2) == Gather(LeftBit(w, 16), LeftBit(w, 17), LeftBit(w, 18), LeftBit(w, 19),
      LeftBit(w, 20), LeftBit(w, 21), LeftBit(w, 22), LeftBit(w, 23))
    ensures Octet(w, 3) == Gather(LeftBit(w, 24), LeftBit(w, 25), LeftBit(w, 26), LeftBit(w, 27),
      LeftBit(w, 28), LeftBit(w, 29), LeftBit(w, 30), LeftBit(w, 31))
  {
  }

  lemma LeftTaken(key: Block, b: bv5, n: nat, x: bv8)
    requires b < 28 && PermutedC()[b as int] == n && x == KeyBit(key, n)
    ensures LeftBit(Chosen(key, PermutedC(), 28), b) == x
  {
    hide Chosen, LeftBit, KeyBit, PermutedC;
    ChosenBit(key, PermutedC(), 28, b);
  }

  lemma LeftTable0()
    ensures var t := PermutedC(); t[0] == 56 && t[1] == 48 && t[2] == 40 && t[3] == 32
  {
  }

  lemma LeftTable1()
    ensures var t := PermutedC(); t[4] == 24 && t[5] == 16 && t[6] == 8 && t[7] == 0
  {
  }

  lemma LeftByte0(key: Block)
    ensures Octet(Chosen(key, PermutedC(), 28), 0) == Gather(Bit(key[7], 7), Bit(key[6], 7), Bit(key[5], 7), Bit(key[4], 7),
      Bit(key[3], 7), Bit(key[2], 7), Bit(key[1], 7), Bit(key[0], 7))
  {
    var w := Chosen(key, PermutedC(), 28);
    LeftBitsGathered(w);
    LeftTable0();
    LeftTable1();
    hide Chosen, LeftBit, Octet, Gather, Bit, PermutedC;
    LeftTaken(key, 0, 56, Bit(key[7], 7));
    LeftTaken(key, 1, 48, Bit(key[6], 7));
    LeftTaken(key, 2, 40, Bit(key[5], 7));
    LeftTaken(key, 3, 32, Bit(key[4], 7));
    LeftTaken(key, 4, 24, Bit(key[3], 7));
    LeftTaken(key, 5, 16, Bit(key[2], 7));
    LeftTaken(key, 6, 8, Bit(key[1], 7));
    LeftTaken(key, 7, 0, Bit(key[0], 7));
  }

  lemma LeftTable2()
    ensures var t := PermutedC(); t[8] == 57 && t[9] == 49 && t[10] == 41 && t[11] == 33
  {
  }

  lemma LeftTable3()
    ensures var t := PermutedC(); t[12] == 25 && t[13] == 17 && t[14] == 9 && t[15] == 1
  {
  }

  lemma LeftByte1(key: Block)
    ensures Octet(Chosen(key, PermutedC(), 28), 1) == Gather(Bit(key[7], 6), Bit(key[6], 6), Bit(key[5], 6), Bit(key[4], 6),
      Bit(key[3], 6), Bit(key[2], 6), Bit(key[1], 6), Bit(key[0], 6))
  {
    var w := Chosen(key, PermutedC(), 28);
    LeftBitsGathered(w);
    LeftTable2();
    LeftTable3();
    hide Chosen, LeftBit, Octet, Gather, Bit, PermutedC;
    LeftTaken(key, 8, 57, Bit(key[7], 6));
    LeftTaken(key, 9, 49, Bit(key[6], 6));
    LeftTaken(key, 10, 41, Bit(key[5], 6));
    LeftTaken(key, 11, 33, Bit(key[4], 6));
    LeftTaken(key, 12, 25, Bit(key[3], 6));
    LeftTaken(key, 13, 17, Bit(key[2], 6));
    LeftTaken(key, 14, 9, Bit(key[1], 6));
    LeftTaken(key, 15, 1, Bit(key[0], 6));
  }

  lemma LeftTable4()
    ensures var t := PermutedC(); t[16] == 58 && t[17] == 50 && t[18] == 42 && t[19] == 34
  {
  }

  lemma LeftTable5()
    ensures var t := PermutedC(); t[20] == 26 && t[21] == 18 && t[22] == 10 && t[23] == 2
  {
  }

  lemma LeftByte2(key: Block)
    ensures Octet(Chosen(key, PermutedC(), 28), 2) == Gather(Bit(key[7], 5), Bit(key[6], 5), Bit(key[5], 5), Bit(key[4], 5),
      Bit(key[3], 5), Bit(key[2], 5), Bit(key[1], 5), Bit(key[0], 5))
  {
    var w := Chosen(key, PermutedC(), 28);
    LeftBitsGathered(w);
    LeftTable4();
    LeftTable5();
    hide Chosen, LeftBit, Octet, Gather, Bit, PermutedC;
    LeftTaken(key, 16, 58, Bit(key[7], 5));
    LeftTaken(key, 17, 50, Bit(key[6], 5));
    LeftTaken(key, 18, 42, Bit(key[5], 5));
    LeftTaken(key, 19, 34, Bit(key[4], 5));
    LeftTaken(key, 20, 26, Bit(key[3], 5));
    LeftTaken(key, 21, 18, Bit(key[2], 5));
    LeftTaken(key, 22, 10, Bit(key[1], 5));
    LeftTaken(key, 23, 2, Bit(key[0], 5));
  }

  lemma LeftTable6()
    ensures var t := PermutedC(); t[24] == 59 && t[25] == 51 && t[26] == 43 && t[27] == 35
  {
  }

  lemma LeftByte3(key: Block)
    ensures Octet(Chosen(key, PermutedC(), 28), 3) == Gather(Bit(key[7], 4), Bit(key[6], 4), Bit(key[5], 4), Bit(key[4], 4),
      0, 0, 0, 0)
  {
    var w := Chosen(key, PermutedC(), 28);
    LeftBitsGathered(w);
    LeftTable6();
    hide Chosen, LeftBit, Octet, Gather, Bit, PermutedC;
    LeftTaken(key, 24, 59, Bit(key[7], 4));
    LeftTaken(key, 25, 51, Bit(key[6], 4));
    LeftTaken(key, 26, 43, Bit(key[5], 4));
    LeftTaken(key, 27, 35, Bit(key[4], 4));
    ChosenBit(key, PermutedC(), 28, 28);
    ChosenBit(key, PermutedC(), 28, 29);
    ChosenBit(key, PermutedC(), 28, 30);
    ChosenBit(key, PermutedC(), 28, 31);
  }

  lemma RightTaken(key: Block, b: bv5, n: nat, x: bv8)
    requires b < 28 && PermutedD()[b as int] == n && x == KeyBit(key, n)
    ensures LeftBit(Chosen(key, PermutedD(), 28), b) == x
  {
    hide Chosen, LeftBit, KeyBit, PermutedD;
    ChosenBit(key, PermutedD(), 28, b);
  }

  lemma RightTable0()
    ensures var t := PermutedD(); t[0] == 62 && t[1] == 54 && t[2] == 46 && t[3] == 38
  {
  }

  lemma RightTable1()
    ensures var t := PermutedD(); t[4] == 30 && t[5] == 22 && t[6] == 14 && t[7] == 6
  {
  }

  lemma RightByte0(key: Block)
    ensures Octet(Chosen(key, PermutedD(), 28), 0) == Gather(Bit(key[7], 1), Bit(key[6], 1), Bit(key[5], 1), Bit(key[4], 1),
      Bit(key[3], 1), Bit(key[2], 1), Bit(key[1], 1), Bit(key[0], 1))
  {
    var w := Chosen(key, PermutedD(), 28);
    LeftBitsGathered(w);
    RightTable0();
    RightTable1();
    hide Chosen, LeftBit, Octet, Gather, Bit, PermutedD;
    RightTaken(key, 0, 62, Bit(key[7], 1));
    RightTaken(key, 1, 54, Bit(key[6], 1));
    RightTaken(key, 2, 46, Bit(key[5], 1));
    RightTaken(key, 3, 38, Bit(key[4], 1));
    RightTaken(key, 4, 30, Bit(key[3], 1));
    RightTaken(key, 5, 22, Bit(key[2], 1));
    RightTaken(key, 6, 14, Bit(key[1], 1));
    RightTaken(key, 7, 6, Bit(key[0], 1));
  }

  lemma RightTable2()
    ensures var t := PermutedD(); t[8] == 61 && t[9] == 53 && t[10] == 45 && t[11] == 37
  {
  }

  lemma RightTable3()
    ensures var t := PermutedD(); t[12] == 29 && t[13] == 21 && t[14] == 13 && t[15] == 5
  {
  }

  lemma RightByte1(key: Block)
    ensures Octet(Chosen(key, PermutedD(), 28), 1) == Gather(Bit(key[7], 2), Bit(key[6], 2), Bit(key[5], 2), Bit(key[4], 2),
      Bit(key[3], 2), Bit(key[2], 2), Bit(key[1], 2), Bit(key[0], 2))
  {
    var w := Chosen(key, PermutedD(), 28);
    LeftBitsGathered(w);
    RightTable2();
    RightTable3();
    hide Chosen, LeftBit, Octet, Gather, Bit, PermutedD;
    RightTaken(key, 8, 61, Bit(key[7], 2));
    RightTaken(key, 9, 53, Bit(key[6], 2));
    RightTaken(key, 10, 45, Bit(key[5], 2));
    RightTaken(key, 11, 37, Bit(key[4], 2));
    RightTaken(key, 12, 29, Bit(key[3], 2));
    RightTaken(key, 13, 21, Bit(key[2], 2));
    RightTaken(key, 14, 13, Bit(key[1], 2));
    RightTaken(key, 15, 5, Bit(key[0], 2));
  }

  lemma RightTable4()
    ensures var t := PermutedD(); t[16] == 60 && t[17] == 52 && t[18] == 44 && t[19] == 36
  {
  }

  lemma RightTable5()
    ensures var t := PermutedD(); t[20] == 28 && t[21] == 20 && t[22] == 12 && t[23] == 4
  {
  }

  lemma RightByte2(key: Block)
    ensures Octet(Chosen(key, PermutedD(), 28), 2) == Gather(Bit(key[7], 3), Bit(key[6], 3), Bit(key[5], 3), Bit(key[4], 3),
      Bit(key[3], 3), Bit(key[2], 3), Bit(key[1], 3), Bit(key[0], 3))
  {
    var w := Chosen(key, PermutedD(), 28);
    LeftBitsGathered(w);
    RightTable4();
    RightTable5();
    hide Chosen, LeftBit, Octet, Gather, Bit, PermutedD;
    RightTaken(key, 16, 60, Bit(key[7], 3));
    RightTaken(key, 17, 52, Bit(key[6], 3));
    RightTaken(key, 18, 44, Bit(key[5], 3));
    RightTaken(key, 19, 36, Bit(key[4], 3));
    RightTaken(key, 20, 28, Bit(key[3], 3));
    RightTaken(key, 21, 20, Bit(key[2], 3));
    RightTaken(key, 22, 12, Bit(key[1], 3));
    RightTaken(key, 23, 4, Bit(key[0], 3));
  }

  lemma RightTable6()
    ensures var t := PermutedD(); t[24] == 27 && t[25] == 19 && t[26] == 11 && t[27] == 3
  {
  }

  lemma RightByte3(key: Block)
    ensures Octet(Chosen(key, PermutedD(), 28), 3) == Gather(Bit(key[3], 4), Bit(key[2], 4), Bit(key[1], 4), Bit(key[0], 4),
      0, 0, 0, 0)
  {
    var w := Chosen(key, PermutedD(), 28);
    LeftBitsGathered(w);
    RightTable6();
    hide Chosen, LeftBit, Octet, Gather, Bit, PermutedD;
    RightTaken(key, 24, 27, Bit(key[3], 4));
    RightTaken(key, 25, 19, Bit(key[2], 4));
    RightTaken(key, 26, 11, Bit(key[1], 4));
    RightTaken(key, 27, 3, Bit(key[0], 4));
    ChosenBit(key, PermutedD(), 28, 28);
    ChosenBit(key, PermutedD(), 28, 29);
    ChosenBit(key, PermutedD(), 28, 30);
    ChosenBit(key, PermutedD(), 28, 31);
  }

  lemma LastNibble(x: bv8)
    ensures Gather(BitAt(x, 7), BitAt(x, 6), BitAt(x, 5), BitAt(x, 4), 0, 0, 0, 0) == x & 0xf0
    ensures Gather(BitAt(x, 3), BitAt(x, 2), BitAt(x, 1), BitAt(x, 0), 0, 0, 0, 0) == x << 4
  {
  }

  /** Permuted choice 1 takes out the columns of the key: the upper bits for one half, the lower for the other. */
  lemma ChosenAre(key: Block)
    ensures Chosen(key, PermutedC(), 28) == WordOf(Column(key, 7), Column(key, 6), Column(key, 5), Column(key, 4) & 0xf0)
    ensures Chosen(key, PermutedD(), 28) == WordOf(Column(key, 1), Column(key, 2), Column(key, 3), Column(key, 4) << 4)
  {
    hide Chosen, WordOf, Octet, Gather, BitAt, PermutedC, PermutedD;
    LeftByte0(key); LeftByte1(key); LeftByte2(key); LeftByte3(key);
    RightByte0(key); RightByte1(key); RightByte2(key); RightByte3(key);
    WordOfOctets(Chosen(key, PermutedC(), 28));
    WordOfOctets(Chosen(key, PermutedD(), 28));
    var x := Column(key, 4);
    LastNibble(x);
    ColumnBits(key, 4);
  }

  lemma BitInByte(k: Subkey, i: nat, j: nat, c: nat)
    requires i < 6 && j == 8 * i + c && c < 8
    ensures SubkeyBit(k, j) == Bit(k[i], 7 - c)
  {
    hide BitAt;
    assert j / 8 == i && j % 8 == c;
  }

  lemma ByteOfBits(k: Subkey, i: nat, j: nat)
    requires i < 6 && j == 8 * i
    ensures k[i] == Gather(SubkeyBit(k, j), SubkeyBit(k, j + 1), SubkeyBit(k, j + 2), SubkeyBit(k, j + 3),
      SubkeyBit(k, j + 4), SubkeyBit(k, j + 5), SubkeyBit(k, j + 6), SubkeyBit(k, j + 7))
  {
    hide Gather, Bit, SubkeyBit;
    BitsGathered(k[i]);
    BitInByte(k, i, j, 0);
    BitInByte(k, i, j + 1, 1);
    BitInByte(k, i, j + 2, 2);
    BitInByte(k, i, j + 3, 3);
    BitInByte(k, i, j + 4, 4);
    BitInByte(k, i, j + 5, 5);
    BitInByte(k, i, j + 6, 6);
    BitInByte(k, i, j + 7, 7);
  }

  lemma ChoiceByte(h: Halves, i: nat, j: nat, b0: bv8, b1: bv8, b2: bv8, b3: bv8, b4: bv8, b5: bv8, b6: bv8, b7: bv8)
    requires i < 6 && j == 8 * i
    requires HalfBit(h, j) == b0 && HalfBit(h, j + 1) == b1 && HalfBit(h, j + 2) == b2 && HalfBit(h, j + 3) == b3
    requires HalfBit(h, j + 4) == b4 && HalfBit(h, j + 5) == b5 && HalfBit(h, j + 6) == b6 && HalfBit(h, j + 7) == b7
    ensures Compressed(h, 48)[i] == Gather(b0, b1, b2, b3, b4, b5, b6, b7)
  {
    hide Compressed, HalfBit, Gather, SubkeyBit;
    ByteOfBits(Compressed(h, 48), i, j);
    CompressedBit(h, 48, j);
    CompressedBit(h, 48, j + 1);
    CompressedBit(h, 48, j + 2);
    CompressedBit(h, 48, j + 3);
    CompressedBit(h, 48, j + 4);
    CompressedBit(h, 48, j + 5);
    CompressedBit(h, 48, j + 6);
    CompressedBit(h, 48, j + 7);
  }

  lemma ChoiceTable0(h: Halves)
    ensures HalfBit(h, 0) == LeftBit(h.l, 13) && HalfBit(h, 1) == LeftBit(h.l, 16)
    ensures HalfBit(h, 2) == LeftBit(h.l, 10) && HalfBit(h, 3) == LeftBit(h.l, 23)
  {
    hide LeftBit;
  }

  lemma ChoiceTable1(h: Halves)
    ensures HalfBit(h, 4) == LeftBit(h.l, 0) && HalfBit(h, 5) == LeftBit(h.l, 4)
    ensures HalfBit(h, 6) == LeftBit(h.l, 2) && HalfBit(h, 7) == LeftBit(h.l, 27)
  {
    hide LeftBit;
  }

  lemma Choice0(h: Halves)
    ensures Compressed(h, 48)[0] == Gather(LeftBit(h.l, 13), LeftBit(h.l, 16), LeftBit(h.l, 10), LeftBit(h.l, 23),
      LeftBit(h.l, 0), LeftBit(h.l, 4), LeftBit(h.l, 2), LeftBit(h.l, 27))
  {
    hide Compressed, HalfBit, LeftBit, Gather;
    ChoiceTable0(h);
    ChoiceTable1(h);
    ChoiceByte(h, 0, 0, LeftBit(h.l, 13), LeftBit(h.l, 16), LeftBit(h.l, 10), LeftBit(h.l, 23),
      LeftBit(h.l, 0), LeftBit(h.l, 4), LeftBit(h.l, 2), LeftBit(h.l, 27));
  }

  lemma ChoiceTable2(h: Halves)
    ensures HalfBit(h, 8) == LeftBit(h.l, 14) && HalfBit(h, 9) == LeftBit(h.l, 5)
    ensures HalfBit(h, 10) == LeftBit(h.l, 20) && HalfBit(h, 11) == LeftBit(h.l, 9)
  {
    hide LeftBit;
  }

  lemma ChoiceTable3(h: Halves)
    ensures HalfBit(h, 12) == LeftBit(h.l, 22) && HalfBit(h, 13) == LeftBit(h.l, 18)
    ensures HalfBit(h, 14) == LeftBit(h.l, 11) && HalfBit(h, 15) == LeftBit(h.l, 3)
  {
    hide LeftBit;
  }

  lemma Choice1(h: Halves)
    ensures Compressed(h, 48)[1] == Gather(LeftBit(h.l, 14), LeftBit(h.l, 5), LeftBit(h.l, 20), LeftBit(h.l, 9),
      LeftBit(h.l, 22), LeftBit(h.l, 18), LeftBit(h.l, 11), LeftBit(h.l, 3))
  {
    hide Compressed, HalfBit, LeftBit, Gather;
    ChoiceTable2(h);
    ChoiceTable3(h);
    ChoiceByte(h, 1, 8, LeftBit(h.l, 14), LeftBit(h.l, 5), LeftBit(h.l, 20), LeftBit(h.l, 9),
      LeftBit(h.l, 22), LeftBit(h.l, 18), LeftBit(h.l, 11), LeftBit(h.l, 3));
  }

  lemma ChoiceTable4(h: Halves)
    ensures HalfBit(h, 16) == LeftBit(h.l, 25) && HalfBit(h, 17) == LeftBit(h.l, 7)
    ensures HalfBit(h, 18) == LeftBit(h.l, 15) && HalfBit(h, 19) == LeftBit(h.l, 6)
  {
    hide LeftBit;
  }

  lemma ChoiceTable5(h: Halves)
    ensures HalfBit(h, 20) == LeftBit(h.l, 26) && HalfBit(h, 21) == LeftBit(h.l, 19)
    ensures HalfBit(h, 22) == LeftBit(h.l, 12) && HalfBit(h, 23) == LeftBit(h.l, 1)
  {
    hide LeftBit;
  }

  lemma Choice2(h: Halves)
    ensures Compressed(h, 48)[2] == Gather(LeftBit(h.l, 25), LeftBit(h.l, 7), LeftBit(h.l, 15), LeftBit(h.l, 6),
      LeftBit(h.l, 26), LeftBit(h.l, 19), LeftBit(h.l, 12), LeftBit(h.l, 1))
  {
    hide Compressed, HalfBit, LeftBit, Gather;
    ChoiceTable4(h);
    ChoiceTable5(h);
    ChoiceByte(h, 2, 16, LeftBit(h.l, 25), LeftBit(h.l, 7), LeftBit(h.l, 15), LeftBit(h.l, 6),
      LeftBit(h.l, 26), LeftBit(h.l, 19), LeftBit(h.l, 12), LeftBit(h.l, 1));
  }

  lemma ChoiceTable6(h: Halves)
    ensures HalfBit(h, 24) == LeftBit(h.r, 12) && HalfBit(h, 25) == LeftBit(h.r, 23)
    ensures HalfBit(h, 26) == LeftBit(h.r, 2) && HalfBit(h, 27) == LeftBit(h.r, 8)
  {
    hide LeftBit;
  }

  lemma ChoiceTable7(h: Halves)
    ensures HalfBit(h, 28) == LeftBit(h.r, 18) && HalfBit(h, 29) == LeftBit(h.r, 26)
    ensures HalfBit(h, 30) == LeftBit(h.r, 1) && HalfBit(h, 31) == LeftBit(h.r, 11)
  {
    hide LeftBit;
  }

  lemma Choice3(h: Halves)
    ensures Compressed(h, 48)[3] == Gather(LeftBit(h.r, 12), LeftBit(h.r, 23), LeftBit(h.r, 2), LeftBit(h.r, 8),
      LeftBit(h.r, 18), LeftBit(h.r, 26), LeftBit(h.r, 1), LeftBit(h.r, 11))
  {
    hide Compressed, HalfBit, LeftBit, Gather;
    ChoiceTable6(h);
    ChoiceTable7(h);
    ChoiceByte(h, 3, 24, LeftBit(h.r, 12), LeftBit(h.r, 23), LeftBit(h.r, 2), LeftBit(h.r, 8),
      LeftBit(h.r, 18), LeftBit(h.r, 26), LeftBit(h.r, 1), LeftBit(h.r, 11));
  }

  lemma ChoiceTable8(h: Halves)
    ensures HalfBit(h, 32) == LeftBit(h.r, 22) && HalfBit(h, 33) == LeftBit(h.r, 16)
    ensures HalfBit(h, 34) == LeftBit(h.r, 4) && HalfBit(h, 35) == LeftBit(h.r, 19)
  {
    hide LeftBit;
  }

  lemma ChoiceTable9(h: Halves)
    ensures HalfBit(h, 36) == LeftBit(h.r, 15) && HalfBit(h, 37) == LeftBit(h.r, 20)
    ensures HalfBit(h, 38) == LeftBit(h.r, 10) && HalfBit(h, 39) == LeftBit(h.r, 27)
  {
    hide LeftBit;
  }

  lemma Choice4(h: Halves)
    ensures Compressed(h, 48)[4] == Gather(LeftBit(h.r, 22), LeftBit(h.r, 16), LeftBit(h.r, 4), LeftBit(h.r, 19),
      LeftBit(h.r, 15), LeftBit(h.r, 20), LeftBit(h.r, 10), LeftBit(h.r, 27))
  {
    hide Compressed, HalfBit, LeftBit, Gather;
    ChoiceTable8(h);
    ChoiceTable9(h);
    ChoiceByte(h, 4, 32, LeftBit(h.r, 22), LeftBit(h.r, 16), LeftBit(h.r, 4), LeftBit(h.r, 19),
      LeftBit(h.r, 15), LeftBit(h.r, 20), LeftBit(h.r, 10), LeftBit(h.r, 27));
  }

  lemma ChoiceTable10(h: Halves)
    ensures HalfBit(h, 40) == LeftBit(h.r, 5) && HalfBit(h, 41) == LeftBit(h.r, 24)
    ensures HalfBit(h, 42) == LeftBit(h.r, 17) && HalfBit(h, 43) == LeftBit(h.r, 13)
  {
    hide LeftBit;
  }

  lemma ChoiceTable11(h: Halves)
    ensures HalfBit(h, 44) == LeftBit(h.r, 21) && HalfBit(h, 45) == LeftBit(h.r, 7)
    ensures HalfBit(h, 46) == LeftBit(h.r, 0) && HalfBit(h, 47) == LeftBit(h.r, 3)
  {
    hide LeftBit;
  }

  lemma Choice5(h: Halves)
    ensures Compressed(h, 48)[5] == Gather(LeftBit(h.r, 5), LeftBit(h.r, 24), LeftBit(h.r, 17), LeftBit(h.r, 13),
      LeftBit(h.r, 21), LeftBit(h.r, 7), LeftBit(h.r, 0), LeftBit(h.r, 3))
  {
    hide Compressed, HalfBit, LeftBit, Gather;
    ChoiceTable10(h);
    ChoiceTable11(h);
    ChoiceByte(h, 5, 40, LeftBit(h.r, 5), LeftBit(h.r, 24), LeftBit(h.r, 17), LeftBit(h.r, 13),
      LeftBit(h.r, 21), LeftBit(h.r, 7), LeftBit(h.r, 0), LeftBit(h.r, 3));
  }

  // ---- The subkeys ----

  const KEY: Block := [0x13, 0x34, 0x57, 0x79, 0x9b, 0xbc, 0xdf, 0xf1]

  const PLAIN: Block := [0x01, 0x23, 0x45, 0x67, 0x89, 0xab, 0xcd, 0xef]

  ghost predicate HalvesAt(round: nat, l: Word, r: Word) {
    round <= ROUNDS && KeyHalves(KEY, round) == Halves(l, r)
  }

  ghost predicate SubkeyAt(round: nat, k: Subkey) {
    round < ROUNDS && SubkeyOf(KEY, round) == k
  }

  lemma FirstHalves()
    ensures HalvesAt(0, 0xf0ccaaf0, 0x556678f0)
  {
    hide Chosen, PermutedC, PermutedD;
    ChosenAre(KEY);
  }

  lemma Shifted(round: nat, l: Word, r: Word, n: bv5, left: Word, right: Word)
    requires round < ROUNDS && HalvesAt(round, l, r) && Shift(round) == n && Turned(l, n) == left && Turned(r, n) == right
    ensures HalvesAt(round + 1, left, right)
  {
    hide Turned, Shift;
  }

  /** Permuted choice 2. */
  lemma ChoicesAre(round: nat, l: Word, r: Word, k: Subkey)
    requires round < ROUNDS && HalvesAt(round + 1, l, r)
    requires k[0] == Gather(LeftBit(l, 13), LeftBit(l, 16), LeftBit(l, 10), LeftBit(l, 23),
      LeftBit(l, 0), LeftBit(l, 4), LeftBit(l, 2), LeftBit(l, 27))
    requires k[1] == Gather(LeftBit(l, 14), LeftBit(l, 5), LeftBit(l, 20), LeftBit(l, 9),
      LeftBit(l, 22), LeftBit(l, 18), LeftBit(l, 11), LeftBit(l, 3))
    requires k[2] == Gather(LeftBit(l, 25), LeftBit(l, 7), LeftBit(l, 15), LeftBit(l, 6),
      LeftBit(l, 26), LeftBit(l, 19), LeftBit(l, 12), LeftBit(l, 1))
    requires k[3] == Gather(LeftBit(r, 12), LeftBit(r, 23), LeftBit(r, 2), LeftBit(r, 8),
      LeftBit(r, 18), LeftBit(r, 26), LeftBit(r, 1), LeftBit(r, 11))
    requires k[4] == Gather(LeftBit(r, 22), LeftBit(r, 16), LeftBit(r, 4), LeftBit(r, 19),
      LeftBit(r, 15), LeftBit(r, 20), LeftBit(r, 10), LeftBit(r, 27))
    requires k[5] == Gather(LeftBit(r, 5), LeftBit(r, 24), LeftBit(r, 17), LeftBit(r, 13),
      LeftBit(r, 21), LeftBit(r, 7), LeftBit(r, 0), LeftBit(r, 3))
    ensures SubkeyAt(round, k)
  {
    hide Compressed, LeftBit, Gather;
    var h := Halves(l, r);
    Choice0(h); Choice1(h); Choice2(h); Choice3(h); Choice4(h); Choice5(h);
    assert Compressed(h, 48) == k;
  }

  lemma Halves0()
    ensures HalvesAt(1, 0xe19955f0, 0xaaccf1e0) && HalvesAt(2, 0xc332abf0, 0x5599e3d0)
    ensures HalvesAt(3, 0x0ccaaff0, 0x56678f50) && HalvesAt(4, 0x332abfc0, 0x599e3d50)
  {
    FirstHalves();
    hide HalvesAt;
    Shifted(0, 0xf0ccaaf0, 0x556678f0, 1, 0xe19955f0, 0xaaccf1e0);
    Shifted(1, 0xe19955f0, 0xaaccf1e0, 1, 0xc332abf0, 0x5599e3d0);
    Shifted(2, 0xc332abf0, 0x5599e3d0, 2, 0x0ccaaff0, 0x56678f50);
    Shifted(3, 0x0ccaaff0, 0x56678f50, 2, 0x332abfc0, 0x599e3d50);
  }

  lemma Halves1()
    ensures HalvesAt(5, 0xccaaff00, 0x6678f550) && HalvesAt(6, 0x32abfc30, 0x99e3d550)
    ensures HalvesAt(7, 0xcaaff0c0, 0x678f5560) && HalvesAt(8, 0x2abfc330, 0x9e3d5590)
  {
    Halves0();
    hide HalvesAt;
    Shifted(4, 0x332abfc0, 0x599e3d50, 2, 0xccaaff00, 0x6678f550);
    Shifted(5, 0xccaaff00, 0x6678f550, 2, 0x32abfc30, 0x99e3d550);
    Shifted(6, 0x32abfc30, 0x99e3d550, 2, 0xcaaff0c0, 0x678f5560);
    Shifted(7, 0xcaaff0c0, 0x678f5560, 2, 0x2abfc330, 0x9e3d5590);
  }

  lemma Halves2()
    ensures HalvesAt(9, 0x557f8660, 0x3c7aab30) && HalvesAt(10, 0x55fe1990, 0xf1eaacc0)
    ensures HalvesAt(11, 0x57f86650, 0xc7aab330) && HalvesAt(12, 0x5fe19950, 0x1eaaccf0)
  {
    Halves1();
    hide HalvesAt;
    Shifted(8, 0x2abfc330, 0x9e3d5590, 1, 0x557f8660, 0x3c7aab30);
    Shifted(9, 0x557f8660, 0x3c7aab30, 2, 0x55fe1990, 0xf1eaacc0);
    Shifted(10, 0x55fe1990, 0xf1eaacc0, 2, 0x57f86650, 0xc7aab330);
    Shifted(11, 0x57f86650, 0xc7aab330, 2, 0x5fe19950, 0x1eaaccf0);
  }

  lemma Halves3()
    ensures HalvesAt(13, 0x7f866550, 0x7aab33c0) && HalvesAt(14, 0xfe199550, 0xeaaccf10)
    ensures HalvesAt(15, 0xf8665570, 0xaab33c70) && HalvesAt(16, 0xf0ccaaf0, 0x556678f0)
  {
    Halves2();
    hide HalvesAt;
    Shifted(12, 0x5fe19950, 0x1eaaccf0, 2, 0x7f866550, 0x7aab33c0);
    Shifted(13, 0x7f866550, 0x7aab33c0, 2, 0xfe199550, 0xeaaccf10);
    Shifted(14, 0xfe199550, 0xeaaccf10, 2, 0xf8665570, 0xaab33c70);
    Shifted(15, 0xf8665570, 0xaab33c70, 1, 0xf0ccaaf0, 0x556678f0);
  }

  lemma Subkey0()
    ensures SubkeyAt(0, [0x1b, 0x02, 0xef, 0xfc, 0x70, 0x72])
  {
    Halves0();
    hide HalvesAt, SubkeyAt;
    ChoicesAre(0, 0xe19955f0, 0xaaccf1e0, [0x1b, 0x02, 0xef, 0xfc, 0x70, 0x72]);
  }

  lemma Subkey1()
    ensures SubkeyAt(1, [0x79, 0xae, 0xd9, 0xdb, 0xc9, 0xe5])
  {
    Halves0();
    hide HalvesAt, SubkeyAt;
    ChoicesAre(1, 0xc332abf0, 0x5599e3d0, [0x79, 0xae, 0xd9, 0xdb, 0xc9, 0xe5]);
  }

  lemma Subkey2()
    ensures SubkeyAt(2, [0x55, 0xfc, 0x8a, 0x42, 0xcf, 0x99])
  {
    Halves0();
    hide HalvesAt, SubkeyAt;
    ChoicesAre(2, 0x0ccaaff0, 0x56678f50, [0x55, 0xfc, 0x8a, 0x42, 0xcf, 0x99]);
  }

  lemma Subkey3()
    ensures SubkeyAt(3, [0x72, 0xad, 0xd6, 0xdb, 0x35, 0x1d])
  {
    Halves0();
    hide HalvesAt, SubkeyAt;
    ChoicesAre(3, 0x332abfc0, 0x599e3d50, [0x72, 0xad, 0xd6, 0xdb, 0x35, 0x1d]);
  }

  lemma Subkey4()
    ensures SubkeyAt(4, [0x7c, 0xec, 0x07, 0xeb, 0x53, 0xa8])
  {
    Halves1();
    hide HalvesAt, SubkeyAt;
    ChoicesAre(4, 0xccaaff00, 0x6678f550, [0x7c, 0xec, 0x07, 0xeb, 0x53, 0xa8]);
  }

  lemma Subkey5()
    ensures SubkeyAt(5, [0x63, 0xa5, 0x3e, 0x50, 0x7b, 0x2f])
  {
    Halves1();
    hide HalvesAt, SubkeyAt;
    ChoicesAre(5, 0x32abfc30, 0x99e3d550, [0x63, 0xa5, 0x3e, 0x50, 0x7b, 0x2f]);
  }

  lemma Subkey6()
    ensures SubkeyAt(6, [0xec, 0x84, 0xb7, 0xf6, 0x18, 0xbc])
  {
    Halves1();
    hide HalvesAt, SubkeyAt;
    ChoicesAre(6, 0xcaaff0c0, 0x678f5560, [0xec, 0x84, 0xb7, 0xf6, 0x18, 0xbc]);
  }

  lemma Subkey7()
    ensures SubkeyAt(7, [0xf7, 0x8a, 0x3a, 0xc1, 0x3b, 0xfb])
  {
    Halves1();
    hide HalvesAt, SubkeyAt;
    ChoicesAre(7, 0x2abfc330, 0x9e3d5590, [0xf7, 0x8a, 0x3a, 0xc1, 0x3b, 0xfb]);
  }

  lemma Subkey8()
    ensures SubkeyAt(8, [0xe0, 0xdb, 0xeb, 0xed, 0xe7, 0x81])
  {
    Halves2();
    hide HalvesAt, SubkeyAt;
    ChoicesAre(8, 0x557f8660, 0x3c7aab30, [0xe0, 0xdb, 0xeb, 0xed, 0xe7, 0x81]);
  }

  lemma Subkey9()
    ensures SubkeyAt(9, [0xb1, 0xf3, 0x47, 0xba, 0x46, 0x4f])
  {
    Halves2();
    hide HalvesAt, SubkeyAt;
    ChoicesAre(9, 0x55fe1990, 0xf1eaacc0, [0xb1, 0xf3, 0x47, 0xba, 0x46, 0x4f]);
  }

  lemma Subkey10()
    ensures SubkeyAt(10, [0x21, 0x5f, 0xd3, 0xde, 0xd3, 0x86])
  {
    Halves2();
    hide HalvesAt, SubkeyAt;
    ChoicesAre(10, 0x57f86650, 0xc7aab330, [0x21, 0x5f, 0xd3, 0xde, 0xd3, 0x86]);
  }

  lemma Subkey11()
    ensures SubkeyAt(11, [0x75, 0x71, 0xf5, 0x94, 0x67, 0xe9])
  {
    Halves2();
    hide HalvesAt, SubkeyAt;
    ChoicesAre(11, 0x5fe19950, 0x1eaaccf0, [0x75, 0x71, 0xf5, 0x94, 0x67, 0xe9]);
  }

  lemma Subkey12()
    ensures SubkeyAt(12, [0x97, 0xc5, 0xd1, 0xfa, 0xba, 0x41])
  {
    Halves3();
    hide HalvesAt, SubkeyAt;
    ChoicesAre(12, 0x7f866550, 0x7aab33c0, [0x97, 0xc5, 0xd1, 0xfa, 0xba, 0x41]);
  }

  lemma Subkey13()
    ensures SubkeyAt(13, [0x5f, 0x43, 0xb7, 0xf2, 0xe7, 0x3a])
  {
    Halves3();
    hide HalvesAt, SubkeyAt;
    ChoicesAre(13, 0xfe199550, 0xeaaccf10, [0x5f, 0x43, 0xb7, 0xf2, 0xe7, 0x3a]);
  }

  lemma Subkey14()
    ensures SubkeyAt(14, [0xbf, 0x91, 0x8d, 0x3d, 0x3f, 0x0a])
  {
    Halves3();
    hide HalvesAt, SubkeyAt;
    ChoicesAre(14, 0xf8665570, 0xaab33c70, [0xbf, 0x91, 0x8d, 0x3d, 0x3f, 0x0a]);
  }

  lemma Subkey15()
    ensures SubkeyAt(15, [0xcb, 0x3d, 0x8b, 0x0e, 0x17, 0xf5])
  {
    Halves3();
    hide HalvesAt, SubkeyAt;
    ChoicesAre(15, 0xf0ccaaf0, 0x556678f0, [0xcb, 0x3d, 0x8b, 0x0e, 0x17, 0xf5]);
  }

  // ---- The rounds ----

  ghost predicate Reached(round: nat, l: Word, r: Word) {
    round < ROUNDS && Rounds(Ip(PLAIN), ScheduleOf(KEY, Encrypt)[..round]) == Halves(l, r)
  }

  /** A round: the half with its subkey, the substitution, the permutation, and the sum with the other half. */
  lemma Turn(round: nat, l: Word, r: Word, k: Subkey, e: Subkey, s: Word, f: Word, now: Word)
    requires round < ROUNDS - 1 && Reached(round, l, r) && SubkeyAt(round, k)
    requires Keyed(r, k) == e && Substituted(e) == s && Pbox(s) == f && Xor(f, l) == now
    ensures Reached(round + 1, r, now)
  {
    hide Keyed, Substituted, Pbox, Xor, Ip, SubkeyOf;
    var ks := ScheduleOf(KEY, Encrypt);
    assert ks[..round + 1] == ks[..round] + [k];
    RoundsLast(Ip(PLAIN), ks[..round], k);
  }

  /** The S-boxes, each with its six bits and its four. */
  lemma Substitution(e: Subkey, s0: bv8, s1: bv8, s2: bv8, s3: bv8, s4: bv8, s5: bv8, s6: bv8, s7: bv8)
    requires Sbox(0, SixBits(e, 0)) == s0 && Sbox(1, SixBits(e, 1)) == s1 && Sbox(2, SixBits(e, 2)) == s2 && Sbox(3, SixBits(e, 3)) == s3
    requires Sbox(4, SixBits(e, 4)) == s4 && Sbox(5, SixBits(e, 5)) == s5 && Sbox(6, SixBits(e, 6)) == s6 && Sbox(7, SixBits(e, 7)) == s7
    ensures Substituted(e) == InPlace(s0, s1, s2, s3, s4, s5, s6, s7)
  {
    Places(e);
    hide Looked, Sbox, SixBits, Joined;
  }

  lemma Places(e: Subkey)
    ensures Looked(e, 0) == Sbox(0, SixBits(e, 0)) as Word << 28 && Looked(e, 1) == Sbox(1, SixBits(e, 1)) as Word << 24
    ensures Looked(e, 2) == Sbox(2, SixBits(e, 2)) as Word << 20 && Looked(e, 3) == Sbox(3, SixBits(e, 3)) as Word << 16
    ensures Looked(e, 4) == Sbox(4, SixBits(e, 4)) as Word << 12 && Looked(e, 5) == Sbox(5, SixBits(e, 5)) as Word << 8
    ensures Looked(e, 6) == Sbox(6, SixBits(e, 6)) as Word << 4 && Looked(e, 7) == Sbox(7, SixBits(e, 7)) as Word
  {
    hide Sbox, SixBits;
  }

  function InPlace(s0: bv8, s1: bv8, s2: bv8, s3: bv8, s4: bv8, s5: bv8, s6: bv8, s7: bv8): Word {
    Joined(s0 as Word << 28, s1 as Word << 24, s2 as Word << 20, s3 as Word << 16,
      s4 as Word << 12, s5 as Word << 8, s6 as Word << 4, s7 as Word)
  }

  lemma FirstReached()
    ensures Reached(0, 0xcc00ccff, 0xf0aaf0aa)
  {
    Permuted();
    hide Ip;
  }

  lemma Permuted()
    ensures Ip(PLAIN) == Halves(0xcc00ccff, 0xf0aaf0aa)
  {
  }

  lemma Substituted0()
    ensures Substituted([0x61, 0x17, 0xba, 0x86, 0x65, 0x27]) == 0x5c82b597
  {
    Substitution([0x61, 0x17, 0xba, 0x86, 0x65, 0x27], 5, 12, 8, 2, 11, 5, 9, 7);
    hide Substituted;
  }

  lemma Round0()
    ensures Reached(1, 0xf0aaf0aa, 0xef4a6544)
  {
    Subkey0();
    FirstReached();
    Substituted0();
    hide Reached, SubkeyAt, Substituted;
    Turn(0, 0xcc00ccff, 0xf0aaf0aa, [0x1b, 0x02, 0xef, 0xfc, 0x70, 0x72], [0x61, 0x17, 0xba, 0x86, 0x65, 0x27], 0x5c82b597, 0x234aa9bb, 0xef4a6544);
  }

  lemma Substituted1()
    ensures Substituted([0x0c, 0x44, 0x8d, 0xeb, 0x63, 0xec]) == 0xf8d03aae
  {
    Substitution([0x0c, 0x44, 0x8d, 0xeb, 0x63, 0xec], 15, 8, 13, 0, 3, 10, 10, 14);
    hide Substituted;
  }

  lemma Round1()
    ensures Reached(2, 0xef4a6544, 0xcc017709)
  {
    Subkey1();
    Round0();
    Substituted1();
    hide Reached, SubkeyAt, Substituted;
    Turn(1, 0xf0aaf0aa, 0xef4a6544, [0x79, 0xae, 0xd9, 0xdb, 0xc9, 0xe5], [0x0c, 0x44, 0x8d, 0xeb, 0x63, 0xec], 0xf8d03aae, 0x3cab87a3, 0xcc017709);
  }

  lemma Substituted2()
    ensures Substituted([0xb0, 0x7c, 0x88, 0xf8, 0x27, 0xca]) == 0x2710e16f
  {
    Substitution([0xb0, 0x7c, 0x88, 0xf8, 0x27, 0xca], 2, 7, 1, 0, 14, 1, 6, 15);
    hide Substituted;
  }

  lemma Round2()
    ensures Reached(3, 0xcc017709, 0xa25c0bf4)
  {
    Subkey2();
    Round1();
    Substituted2();
    hide Reached, SubkeyAt, Substituted;
    Turn(2, 0xef4a6544, 0xcc017709, [0x55, 0xfc, 0x8a, 0x42, 0xcf, 0x99], [0xb0, 0x7c, 0x88, 0xf8, 0x27, 0xca], 0x2710e16f, 0x4d166eb0, 0xa25c0bf4);
  }

  lemma Substituted3()
    ensures Substituted([0x22, 0xef, 0x2e, 0xde, 0x4a, 0xb4]) == 0x21ed9f3a
  {
    Substitution([0x22, 0xef, 0x2e, 0xde, 0x4a, 0xb4], 2, 1, 14, 13, 9, 15, 3, 10);
    hide Substituted;
  }

  lemma Round3()
    ensures Reached(4, 0xa25c0bf4, 0x77220045)
  {
    Subkey3();
    Round2();
    Substituted3();
    hide Reached, SubkeyAt, Substituted;
    Turn(3, 0xcc017709, 0xa25c0bf4, [0x72, 0xad, 0xd6, 0xdb, 0x35, 0x1d], [0x22, 0xef, 0x2e, 0xde, 0x4a, 0xb4], 0x21ed9f3a, 0xbb23774c, 0x77220045);
  }

  lemma Substituted4()
    ensures Substituted([0xc6, 0x05, 0x03, 0xeb, 0x51, 0xa2]) == 0x50c831eb
  {
    Substitution([0xc6, 0x05, 0x03, 0xeb, 0x51, 0xa2], 5, 0, 12, 8, 3, 1, 14, 11);
    hide Substituted;
  }

  lemma Round4()
    ensures Reached(5, 0x77220045, 0x8a4fa637)
  {
    Subkey4();
    Round3();
    Substituted4();
    hide Reached, SubkeyAt, Substituted;
    Turn(4, 0xa25c0bf4, 0x77220045, [0x7c, 0xec, 0x07, 0xeb, 0x53, 0xa8], [0xc6, 0x05, 0x03, 0xeb, 0x51, 0xa2], 0x50c831eb, 0x2813adc3, 0x8a4fa637);
  }

  lemma Substituted5()
    ensures Substituted([0xa6, 0xe7, 0x61, 0x80, 0xba, 0x80]) == 0x41f34c3d
  {
    Substitution([0xa6, 0xe7, 0x61, 0x80, 0xba, 0x80], 4, 1, 15, 3, 4, 12, 3, 13);
    hide Substituted;
  }

  lemma Round5()
    ensures Reached(6, 0x8a4fa637, 0xe967cd69)
  {
    Subkey5();
    Round4();
    Substituted5();
    hide Reached, SubkeyAt, Substituted;
    Turn(5, 0x77220045, 0x8a4fa637, [0x63, 0xa5, 0x3e, 0x50, 0x7b, 0x2f], [0xa6, 0xe7, 0x61, 0x80, 0xba, 0x80], 0x41f34c3d, 0x9e45cd2c, 0xe967cd69);
  }

  lemma Substituted6()
    ensures Substituted([0x19, 0xaf, 0xb8, 0x13, 0xb3, 0xef]) == 0x107540ad
  {
    Substitution([0x19, 0xaf, 0xb8, 0x13, 0xb3, 0xef], 1, 0, 7, 5, 4, 0, 10, 13);
    hide Substituted;
  }

  lemma Round6()
    ensures Reached(7, 0xe967cd69, 0x064aba10)
  {
    Subkey6();
    Round5();
    Substituted6();
    hide Reached, SubkeyAt, Substituted;
    Turn(6, 0x8a4fa637, 0xe967cd69, [0xec, 0x84, 0xb7, 0xf6, 0x18, 0xbc], [0x19, 0xaf, 0xb8, 0x13, 0xb3, 0xef], 0x107540ad, 0x8c051c27, 0x064aba10);
  }

  lemma Substituted7()
    ensures Substituted([0xf7, 0x48, 0x6f, 0x9e, 0x7b, 0x5b]) == 0x6c187cae
  {
    Substitution([0xf7, 0x48, 0x6f, 0x9e, 0x7b, 0x5b], 6, 12, 1, 8, 7, 12, 10, 14);
    hide Substituted;
  }

  lemma Round7()
    ensures Reached(8, 0x064aba10, 0xd5694b90)
  {
    Subkey7();
    Round6();
    Substituted7();
    hide Reached, SubkeyAt, Substituted;
    Turn(7, 0xe967cd69, 0x064aba10, [0xf7, 0x8a, 0x3a, 0xc1, 0x3b, 0xfb], [0xf7, 0x48, 0x6f, 0x9e, 0x7b, 0x5b], 0x6c187cae, 0x3c0e86f9, 0xd5694b90);
  }

  lemma Substituted8()
    ensures Substituted([0x8a, 0x70, 0xb9, 0x48, 0x9b, 0x20]) == 0x110c5777
  {
    Substitution([0x8a, 0x70, 0xb9, 0x48, 0x9b, 0x20], 1, 1, 0, 12, 5, 7, 7, 7);
    hide Substituted;
  }

  lemma Round8()
    ensures Reached(9, 0xd5694b90, 0x247cc67a)
  {
    Subkey8();
    Round7();
    Substituted8();
    hide Reached, SubkeyAt, Substituted;
    Turn(8, 0x064aba10, 0xd5694b90, [0xe0, 0xdb, 0xeb, 0xed, 0xe7, 0x81], [0x8a, 0x70, 0xb9, 0x48, 0x9b, 0x20], 0x110c5777, 0x22367c6a, 0x247cc67a);
  }

  lemma Substituted9()
    ensures Substituted([0xa1, 0x70, 0xbe, 0xda, 0x85, 0xbb]) == 0xda045275
  {
    Substitution([0xa1, 0x70, 0xbe, 0xda, 0x85, 0xbb], 13, 10, 0, 4, 5, 2, 7, 5);
    hide Substituted;
  }

  lemma Round9()
    ensures Reached(10, 0x247cc67a, 0xb7d5d7b2)
  {
    Subkey9();
    Round8();
    Substituted9();
    hide Reached, SubkeyAt, Substituted;
    Turn(9, 0xd5694b90, 0x247cc67a, [0xb1, 0xf3, 0x47, 0xba, 0x46, 0x4f], [0xa1, 0x70, 0xbe, 0xda, 0x85, 0xbb], 0xda045275, 0x62bc9c22, 0xb7d5d7b2);
  }

  lemma Substituted10()
    ensures Substituted([0x7b, 0xa1, 0x78, 0x34, 0x2e, 0x23]) == 0x7305d101
  {
    Substitution([0x7b, 0xa1, 0x78, 0x34, 0x2e, 0x23], 7, 3, 0, 5, 13, 1, 0, 1);
    hide Substituted;
  }

  lemma Round10()
    ensures Reached(11, 0xb7d5d7b2, 0xc5783c78)
  {
    Subkey10();
    Round9();
    Substituted10();
    hide Reached, SubkeyAt, Substituted;
    Turn(10, 0x247cc67a, 0xb7d5d7b2, [0x21, 0x5f, 0xd3, 0xde, 0xd3, 0x86], [0x7b, 0xa1, 0x78, 0x34, 0x2e, 0x23], 0x7305d101, 0xe104fa02, 0xc5783c78);
  }

  lemma Substituted11()
    ensures Substituted([0x15, 0xda, 0x05, 0x8b, 0xe4, 0x18]) == 0x7b8b2635
  {
    Substitution([0x15, 0xda, 0x05, 0x8b, 0xe4, 0x18], 7, 11, 8, 11, 2, 6, 3, 5);
    hide Substituted;
  }

  lemma Round11()
    ensures Reached(12, 0xc5783c78, 0x75bd1858)
  {
    Subkey11();
    Round10();
    Substituted11();
    hide Reached, SubkeyAt, Substituted;
    Turn(11, 0xb7d5d7b2, 0xc5783c78, [0x75, 0x71, 0xf5, 0x94, 0x67, 0xe9], [0x15, 0xda, 0x05, 0x8b, 0xe4, 0x18], 0x7b8b2635, 0xc268cfea, 0x75bd1858);
  }

  lemma Substituted12()
    ensures Substituted([0xad, 0x78, 0x2b, 0x75, 0xb8, 0xb1]) == 0x9ad18b4f
  {
    Substitution([0xad, 0x78, 0x2b, 0x75, 0xb8, 0xb1], 9, 10, 13, 1, 8, 11, 4, 15);
    hide Substituted;
  }

  lemma Round12()
    ensures Reached(13, 0x75bd1858, 0x18c3155a)
  {
    Subkey12();
    Round11();
    Substituted12();
    hide Reached, SubkeyAt, Substituted;
    Turn(12, 0xc5783c78, 0x75bd1858, [0x97, 0xc5, 0xd1, 0xfa, 0xba, 0x41], [0xad, 0x78, 0x2b, 0x75, 0xb8, 0xb1], 0x9ad18b4f, 0xddbb2922, 0x18c3155a);
  }

  lemma Substituted13()
    ensures Substituted([0x50, 0x55, 0xb1, 0x78, 0x4d, 0xce]) == 0x64799af1
  {
    Substitution([0x50, 0x55, 0xb1, 0x78, 0x4d, 0xce], 6, 4, 7, 9, 9, 10, 15, 1);
    hide Substituted;
  }

  lemma Round13()
    ensures Reached(14, 0x18c3155a, 0xc28c960d)
  {
    Subkey13();
    Round12();
    Substituted13();
    hide Reached, SubkeyAt, Substituted;
    Turn(13, 0x75bd1858, 0x18c3155a, [0x5f, 0x43, 0xb7, 0xf2, 0xe7, 0x3a], [0x50, 0x55, 0xb1, 0x78, 0x4d, 0xce], 0x64799af1, 0xb7318e55, 0xc28c960d);
  }

  lemma Substituted14()
    ensures Substituted([0x5f, 0xc5, 0xd4, 0x77, 0xff, 0x51]) == 0xb2e88d3c
  {
    Substitution([0x5f, 0xc5, 0xd4, 0x77, 0xff, 0x51], 11, 2, 14, 8, 8, 13, 3, 12);
    hide Substituted;
  }

  lemma Round14()
    ensures Reached(15, 0xc28c960d, 0x43423234)
  {
    Subkey14();
    Round13();
    Substituted14();
    hide Reached, SubkeyAt, Substituted;
    Turn(14, 0x18c3155a, 0xc28c960d, [0xbf, 0x91, 0x8d, 0x3d, 0x3f, 0x0a], [0x5f, 0xc5, 0xd4, 0x77, 0xff, 0x51], 0xb2e88d3c, 0x5b81276e, 0x43423234);
  }

  lemma Substituted15()
    ensures Substituted([0xeb, 0x57, 0x8f, 0x14, 0x56, 0x5d]) == 0xa7832429
  {
    Substitution([0xeb, 0x57, 0x8f, 0x14, 0x56, 0x5d], 10, 7, 8, 3, 2, 4, 2, 9);
    hide Substituted;
  }

  /** The block is encrypted to 85e813540f0ab405. */
  lemma BlockOfExample()
    ensures Crypt(PLAIN, ScheduleOf(KEY, Encrypt)) == [0x85, 0xe8, 0x13, 0x54, 0x0f, 0x0a, 0xb4, 0x05]
  {
    Subkey15();
    Round14();
    LastRound();
    hide Ip, InvIp, Mixed, SubkeyOf, Rounds;
  }

  lemma LastRound()
    ensures Mixed(Halves(0xc28c960d, 0x43423234), [0xcb, 0x3d, 0x8b, 0x0e, 0x17, 0xf5]) == 0x0a4cd995
    ensures InvIp(Halves(0x0a4cd995, 0x43423234)) == [0x85, 0xe8, 0x13, 0x54, 0x0f, 0x0a, 0xb4, 0x05]
  {
    Substituted15();
    hide Substituted;
  }
}
