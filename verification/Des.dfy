/**
 DES and triple DES, crypto/des.c: encrypting with the schedule of the other mode gives back the block,
 for every key, FIPS 46-3.
 */
module Des {
  import opened Tables
  import opened Words

  type Block = s: seq<bv8> | |s| == 8 witness seq(8, _ => 0)
  type Subkey = k: seq<bv8> | |k| == 6 witness seq(6, _ => 0)

  const ROUNDS := 16

  // ---- The initial permutation and its inverse ----

  /** A bit of a byte, counted from the right. */
  function BitAt(x: bv8, i: bv3): bv8 {
    (x >> i) & 1
  }

  function Bit(x: bv8, i: nat): bv8
    requires i < 8
  {
    BitAt(x, i as bv3)
  }

  /** The byte of eight bits. */
  function Gather(b7: bv8, b6: bv8, b5: bv8, b4: bv8, b3: bv8, b2: bv8, b1: bv8, b0: bv8): bv8 {
    (b7 << 7) | (b6 << 6) | (b5 << 5) | (b4 << 4) | (b3 << 3) | (b2 << 2) | (b1 << 1) | b0
  }

  /** One byte of a permuted half: bit `i` of every byte of the block. */
  function Column(s: Block, i: nat): bv8
    requires i < 8
  {
    Gather(Bit(s[7], i), Bit(s[6], i), Bit(s[5], i), Bit(s[4], i), Bit(s[3], i), Bit(s[2], i), Bit(s[1], i), Bit(s[0], i))
  }

  function Ip(s: Block): Halves {
    Halves(WordOf(Column(s, 6), Column(s, 4), Column(s, 2), Column(s, 0)), WordOf(Column(s, 7), Column(s, 5), Column(s, 3), Column(s, 1)))
  }

  /** A byte of the block: bit `j` of every byte of the halves, the right half first. */
  function Interleaved(h: Halves, j: nat): bv8
    requires j < 8
  {
    Gather(Bit(Octet(h.r, 0), j), Bit(Octet(h.l, 0), j), Bit(Octet(h.r, 1), j), Bit(Octet(h.l, 1), j),
      Bit(Octet(h.r, 2), j), Bit(Octet(h.l, 2), j), Bit(Octet(h.r, 3), j), Bit(Octet(h.l, 3), j))
  }

  function InvIp(h: Halves): Block {
    seq(8, j requires 0 <= j < 8 => Interleaved(h, j))
  }

  lemma GatheredBits(b7: bv8, b6: bv8, b5: bv8, b4: bv8, b3: bv8, b2: bv8, b1: bv8, b0: bv8)
    requires b7 <= 1 && b6 <= 1 && b5 <= 1 && b4 <= 1 && b3 <= 1 && b2 <= 1 && b1 <= 1 && b0 <= 1
    ensures var x := Gather(b7, b6, b5, b4, b3, b2, b1, b0);
      Bit(x, 7) == b7 && Bit(x, 6) == b6 && Bit(x, 5) == b5 && Bit(x, 4) == b4 &&
      Bit(x, 3) == b3 && Bit(x, 2) == b2 && Bit(x, 1) == b1 && Bit(x, 0) == b0
  {
  }

  lemma BitsGathered(x: bv8)
    ensures Gather(Bit(x, 7), Bit(x, 6), Bit(x, 5), Bit(x, 4), Bit(x, 3), Bit(x, 2), Bit(x, 1), Bit(x, 0)) == x
  {
  }

  lemma BitIsSmall(x: bv8, i: nat)
    requires i < 8
    ensures Bit(x, i) <= 1
  {
  }

  lemma ColumnBits(s: Block, i: nat)
    requires i < 8
    ensures forall j: nat :: j < 8 ==> Bit(Column(s, i), j) == Bit(s[j], i)
  {
    hide Bit, Gather;
    forall j: nat | j < 8 ensures Bit(s[j], i) <= 1 { BitIsSmall(s[j], i); }
    GatheredBits(Bit(s[7], i), Bit(s[6], i), Bit(s[5], i), Bit(s[4], i), Bit(s[3], i), Bit(s[2], i), Bit(s[1], i), Bit(s[0], i));
  }

  /** The final permutation undoes the initial one. */
  lemma InvIpIp(s: Block)
    ensures InvIp(Ip(s)) == s
  {
    hide Bit, Gather, Octet, WordOf, Column;
    var h := Ip(s);
    OctetsOfWord(Column(s, 6), Column(s, 4), Column(s, 2), Column(s, 0));
    OctetsOfWord(Column(s, 7), Column(s, 5), Column(s, 3), Column(s, 1));
    forall j: nat | j < 8 ensures Interleaved(h, j) == s[j] {
      forall i: nat | i < 8 ensures Bit(Column(s, i), j) == Bit(s[j], i) { ColumnBits(s, i); }
      BitsGathered(s[j]);
    }
    assert InvIp(h) == s;
  }

  lemma InterleavedBits(h: Halves, j: nat)
    requires j < 8
    ensures var x := Interleaved(h, j);
      Bit(x, 7) == Bit(Octet(h.r, 0), j) && Bit(x, 6) == Bit(Octet(h.l, 0), j) &&
      Bit(x, 5) == Bit(Octet(h.r, 1), j) && Bit(x, 4) == Bit(Octet(h.l, 1), j) &&
      Bit(x, 3) == Bit(Octet(h.r, 2), j) && Bit(x, 2) == Bit(Octet(h.l, 2), j) &&
      Bit(x, 1) == Bit(Octet(h.r, 3), j) && Bit(x, 0) == Bit(Octet(h.l, 3), j)
  {
    hide Bit, Gather, Octet;
    forall i: nat | i < 4 ensures Bit(Octet(h.r, i), j) <= 1 && Bit(Octet(h.l, i), j) <= 1 {
      BitIsSmall(Octet(h.r, i), j);
      BitIsSmall(Octet(h.l, i), j);
    }
    GatheredBits(Bit(Octet(h.r, 0), j), Bit(Octet(h.l, 0), j), Bit(Octet(h.r, 1), j), Bit(Octet(h.l, 1), j),
      Bit(Octet(h.r, 2), j), Bit(Octet(h.l, 2), j), Bit(Octet(h.r, 3), j), Bit(Octet(h.l, 3), j));
  }

  lemma ColumnsBack(h: Halves, k: nat)
    requires k < 4
    ensures Column(InvIp(h), 7 - 2 * k) == Octet(h.r, k) && Column(InvIp(h), 6 - 2 * k) == Octet(h.l, k)
  {
    hide Bit, Gather, Octet;
    var s := InvIp(h);
    forall j: nat | j < 8 ensures Bit(s[j], 7 - 2 * k) == Bit(Octet(h.r, k), j) && Bit(s[j], 6 - 2 * k) == Bit(Octet(h.l, k), j) {
      InterleavedBits(h, j);
    }
    BitsGathered(Octet(h.r, k));
    BitsGathered(Octet(h.l, k));
  }

  /** And the initial permutation undoes the final one. */
  lemma IpInvIp(h: Halves)
    ensures Ip(InvIp(h)) == h
  {
    hide Column, Octet, WordOf, InvIp;
    ColumnsBack(h, 0);
    ColumnsBack(h, 1);
    ColumnsBack(h, 2);
    ColumnsBack(h, 3);
    WordOfOctets(h.l);
    WordOfOctets(h.r);
  }

  // ---- The function f ----

  function BitLeft(w: Word, b: bv5, c: bv5): Word {
    ((w << b) & 0x80000000) >> c
  }

  /** The expansion, in two halves of 24 bits at the top of a word. */
  function ExpandHigh(w: Word): Word {
    BitLeft(w, 31, 0) | ((w & 0xf0000000) >> 1) | BitLeft(w, 4, 5) | BitLeft(w, 3, 6)
    | ((w & 0x0f000000) >> 3) | BitLeft(w, 8, 11) | BitLeft(w, 7, 12) | ((w & 0x00f00000) >> 5)
    | BitLeft(w, 12, 17) | BitLeft(w, 11, 18) | ((w & 0x000f0000) >> 7) | BitLeft(w, 16, 23)
  }

  function ExpandLow(w: Word): Word {
    BitLeft(w, 15, 0) | ((w & 0x0000f000) << 15) | BitLeft(w, 20, 5) | BitLeft(w, 19, 6)
    | ((w & 0x00000f00) << 13) | BitLeft(w, 24, 11) | BitLeft(w, 23, 12) | ((w & 0x000000f0) << 11)
    | BitLeft(w, 28, 17) | BitLeft(w, 27, 18) | ((w & 0x0000000f) << 9) | BitLeft(w, 0, 23)
  }

  /** The six bits of an S-box as row and column. */
  function SboxBit(a: bv8): bv8 {
    (a & 0x20) | ((a & 0x1f) >> 1) | ((a & 0x01) << 4)
  }

  function Sbox1(row: bv8, i: bv8): bv8 {
    if row == 0 then Sixteen(i, 14, 4, 13, 1, 2, 15, 11, 8, 3, 10, 6, 12, 5, 9, 0, 7)
    else if row == 1 then Sixteen(i, 0, 15, 7, 4, 14, 2, 13, 1, 10, 6, 12, 11, 9, 5, 3, 8)
    else if row == 2 then Sixteen(i, 4, 1, 14, 8, 13, 6, 2, 11, 15, 12, 9, 7, 3, 10, 5, 0)
    else Sixteen(i, 15, 12, 8, 2, 4, 9, 1, 7, 5, 11, 3, 14, 10, 0, 6, 13)
  }

  function Sbox2(row: bv8, i: bv8): bv8 {
    if row == 0 then Sixteen(i, 15, 1, 8, 14, 6, 11, 3, 4, 9, 7, 2, 13, 12, 0, 5, 10)
    else if row == 1 then Sixteen(i, 3, 13, 4, 7, 15, 2, 8, 14, 12, 0, 1, 10, 6, 9, 11, 5)
    else if row == 2 then Sixteen(i, 0, 14, 7, 11, 10, 4, 13, 1, 5, 8, 12, 6, 9, 3, 2, 15)
    else Sixteen(i, 13, 8, 10, 1, 3, 15, 4, 2, 11, 6, 7, 12, 0, 5, 14, 9)
  }

  function Sbox3(row: bv8, i: bv8): bv8 {
    if row == 0 then Sixteen(i, 10, 0, 9, 14, 6, 3, 15, 5, 1, 13, 12, 7, 11, 4, 2, 8)
    else if row == 1 then Sixteen(i, 13, 7, 0, 9, 3, 4, 6, 10, 2, 8, 5, 14, 12, 11, 15, 1)
    else if row == 2 then Sixteen(i, 13, 6, 4, 9, 8, 15, 3, 0, 11, 1, 2, 12, 5, 10, 14, 7)
    else Sixteen(i, 1, 10, 13, 0, 6, 9, 8, 7, 4, 15, 14, 3, 11, 5, 2, 12)
  }

  function Sbox4(row: bv8, i: bv8): bv8 {
    if row == 0 then Sixteen(i, 7, 13, 14, 3, 0, 6, 9, 10, 1, 2, 8, 5, 11, 12, 4, 15)
    else if row == 1 then Sixteen(i, 13, 8, 11, 5, 6, 15, 0, 3, 4, 7, 2, 12, 1, 10, 14, 9)
    else if row == 2 then Sixteen(i, 10, 6, 9, 0, 12, 11, 7, 13, 15, 1, 3, 14, 5, 2, 8, 4)
    else Sixteen(i, 3, 15, 0, 6, 10, 1, 13, 8, 9, 4, 5, 11, 12, 7, 2, 14)
  }

  function Sbox5(row: bv8, i: bv8): bv8 {
    if row == 0 then Sixteen(i, 2, 12, 4, 1, 7, 10, 11, 6, 8, 5, 3, 15, 13, 0, 14, 9)
    else if row == 1 then Sixteen(i, 14, 11, 2, 12, 4, 7, 13, 1, 5, 0, 15, 10, 3, 9, 8, 6)
    else if row == 2 then Sixteen(i, 4, 2, 1, 11, 10, 13, 7, 8, 15, 9, 12, 5, 6, 3, 0, 14)
    else Sixteen(i, 11, 8, 12, 7, 1, 14, 2, 13, 6, 15, 0, 9, 10, 4, 5, 3)
  }

  function Sbox6(row: bv8, i: bv8): bv8 {
    if row == 0 then Sixteen(i, 12, 1, 10, 15, 9, 2, 6, 8, 0, 13, 3, 4, 14, 7, 5, 11)
    else if row == 1 then Sixteen(i, 10, 15, 4, 2, 7, 12, 9, 5, 6, 1, 13, 14, 0, 11, 3, 8)
    else if row == 2 then Sixteen(i, 9, 14, 15, 5, 2, 8, 12, 3, 7, 0, 4, 10, 1, 13, 11, 6)
    else Sixteen(i, 4, 3, 2, 12, 9, 5, 15, 10, 11, 14, 1, 7, 6, 0, 8, 13)
  }

  function Sbox7(row: bv8, i: bv8): bv8 {
    if row == 0 then Sixteen(i, 4, 11, 2, 14, 15, 0, 8, 13, 3, 12, 9, 7, 5, 10, 6, 1)
    else if row == 1 then Sixteen(i, 13, 0, 11, 7, 4, 9, 1, 10, 14, 3, 5, 12, 2, 15, 8, 6)
    else if row == 2 then Sixteen(i, 1, 4, 11, 13, 12, 3, 7, 14, 10, 15, 6, 8, 0, 5, 9, 2)
    else Sixteen(i, 6, 11, 13, 8, 1, 4, 10, 7, 9, 5, 0, 15, 14, 2, 3, 12)
  }

  function Sbox8(row: bv8, i: bv8): bv8 {
    if row == 0 then Sixteen(i, 13, 2, 8, 4, 6, 15, 11, 1, 10, 9, 3, 14, 5, 0, 12, 7)
    else if row == 1 then Sixteen(i, 1, 15, 13, 8, 10, 3, 7, 4, 12, 5, 6, 11, 0, 14, 9, 2)
    else if row == 2 then Sixteen(i, 7, 11, 4, 1, 9, 12, 14, 2, 0, 6, 10, 13, 15, 3, 5, 8)
    else Sixteen(i, 2, 1, 14, 7, 4, 10, 8, 13, 15, 12, 9, 0, 3, 5, 6, 11)
  }

  /** The six bits for an S-box. */
  function SixBits(k: Subkey, n: nat): bv8
    requires n < 8
  {
    if n == 0 then k[0] >> 2
    else if n == 1 then ((k[0] & 0x03) << 4) | (k[1] >> 4)
    else if n == 2 then ((k[1] & 0x0f) << 2) | (k[2] >> 6)
    else if n == 3 then k[2] & 0x3f
    else if n == 4 then k[3] >> 2
    else if n == 5 then ((k[3] & 0x03) << 4) | (k[4] >> 4)
    else if n == 6 then ((k[4] & 0x0f) << 2) | (k[5] >> 6)
    else k[5] & 0x3f
  }

  function Sbox(n: nat, a: bv8): bv8
    requires n < 8
  {
    var x := SboxBit(a);
    var row, i := x >> 4, x & 0x0f;
    if n == 0 then Sbox1(row, i) else if n == 1 then Sbox2(row, i) else if n == 2 then Sbox3(row, i)
    else if n == 3 then Sbox4(row, i) else if n == 4 then Sbox5(row, i) else if n == 5 then Sbox6(row, i)
    else if n == 6 then Sbox7(row, i) else Sbox8(row, i)
  }

  /** The substitution of six bits by four, in their place in the word. */
  function Looked(k: Subkey, n: nat): Word
    requires n < 8
  {
    (Sbox(n, SixBits(k, n)) as Word) << (28 - 4 * n)
  }

  function Substituted(k: Subkey): Word {
    Joined(Looked(k, 0), Looked(k, 1), Looked(k, 2), Looked(k, 3), Looked(k, 4), Looked(k, 5), Looked(k, 6), Looked(k, 7))
  }

  function Joined(a: Word, b: Word, c: Word, d: Word, e: Word, f: Word, g: Word, h: Word): Word {
    a | b | c | d | e | f | g | h
  }

  function Pbox(w: Word): Word {
    BitLeft(w, 15, 0) | BitLeft(w, 6, 1) | BitLeft(w, 19, 2) | BitLeft(w, 20, 3)
    | BitLeft(w, 28, 4) | BitLeft(w, 11, 5) | BitLeft(w, 27, 6) | BitLeft(w, 16, 7)
    | BitLeft(w, 0, 8) | BitLeft(w, 14, 9) | BitLeft(w, 22, 10) | BitLeft(w, 25, 11)
    | BitLeft(w, 4, 12) | BitLeft(w, 17, 13) | BitLeft(w, 30, 14) | BitLeft(w, 9, 15)
    | BitLeft(w, 1, 16) | BitLeft(w, 7, 17) | BitLeft(w, 23, 18) | BitLeft(w, 13, 19)
    | BitLeft(w, 31, 20) | BitLeft(w, 26, 21) | BitLeft(w, 2, 22) | BitLeft(w, 8, 23)
    | BitLeft(w, 18, 24) | BitLeft(w, 12, 25) | BitLeft(w, 29, 26) | BitLeft(w, 5, 27)
    | BitLeft(w, 21, 28) | BitLeft(w, 10, 29) | BitLeft(w, 3, 30) | BitLeft(w, 24, 31)
  }

  /** The expansion of a half, mixed with the subkey. */
  function Keyed(w: Word, k: Subkey): Subkey {
    var t1, t2 := ExpandHigh(w), ExpandLow(w);
    [Octet(t1, 0) ^ k[0], Octet(t1, 1) ^ k[1], Octet(t1, 2) ^ k[2], Octet(t2, 0) ^ k[3], Octet(t2, 1) ^ k[4], Octet(t2, 2) ^ k[5]]
  }

  function F(w: Word, k: Subkey): Word {
    Pbox(Substituted(Keyed(w, k)))
  }

  function Six(w: Word): bv8 {
    (w & 0x3f) as bv8
  }

  /** The four bits of a word from bit 4n on, with the bit before them and the bit after them, cyclically. */
  function Around(w: Word, n: nat): bv8
    requires n < 8
  {
    if n == 0 then Six((w << 5) | (w >> 27))
    else if n == 1 then Six((w << 9) | (w >> 23))
    else if n == 2 then Six((w << 13) | (w >> 19))
    else if n == 3 then Six((w << 17) | (w >> 15))
    else if n == 4 then Six((w << 21) | (w >> 11))
    else if n == 5 then Six((w << 25) | (w >> 7))
    else if n == 6 then Six((w << 29) | (w >> 3))
    else Six((w << 1) | (w >> 31))
  }

  lemma Expanded0(w: Word, k: Subkey)
    ensures SixBits(Keyed(w, k), 0) == Around(w, 0) ^ SixBits(k, 0)
  {
  }

  lemma Expanded1(w: Word, k: Subkey)
    ensures SixBits(Keyed(w, k), 1) == Around(w, 1) ^ SixBits(k, 1)
  {
  }

  lemma Expanded2(w: Word, k: Subkey)
    ensures SixBits(Keyed(w, k), 2) == Around(w, 2) ^ SixBits(k, 2)
  {
  }

  lemma Expanded3(w: Word, k: Subkey)
    ensures SixBits(Keyed(w, k), 3) == Around(w, 3) ^ SixBits(k, 3)
  {
  }

  lemma Expanded4(w: Word, k: Subkey)
    ensures SixBits(Keyed(w, k), 4) == Around(w, 4) ^ SixBits(k, 4)
  {
  }

  lemma Expanded5(w: Word, k: Subkey)
    ensures SixBits(Keyed(w, k), 5) == Around(w, 5) ^ SixBits(k, 5)
  {
  }

  lemma Expanded6(w: Word, k: Subkey)
    ensures SixBits(Keyed(w, k), 6) == Around(w, 6) ^ SixBits(k, 6)
  {
  }

  lemma Expanded7(w: Word, k: Subkey)
    ensures SixBits(Keyed(w, k), 7) == Around(w, 7) ^ SixBits(k, 7)
  {
  }

  /** The expansion gives each S-box four bits of the half and their neighbours, table E of FIPS 46-3, mixed with six bits of the subkey. */
  lemma ExpansionIs(w: Word, k: Subkey, n: nat)
    requires n < 8
    ensures SixBits(Keyed(w, k), n) == Around(w, n) ^ SixBits(k, n)
  {
    hide Keyed, Around, SixBits;
    if n == 0 { Expanded0(w, k); }
    else if n == 1 { Expanded1(w, k); }
    else if n == 2 { Expanded2(w, k); }
    else if n == 3 { Expanded3(w, k); }
    else if n == 4 { Expanded4(w, k); }
    else if n == 5 { Expanded5(w, k); }
    else if n == 6 { Expanded6(w, k); }
    else { Expanded7(w, k); }
  }

  /** The P-box loses no bit. */
  lemma PboxInjective(x: Word, y: Word)
    requires Pbox(x) == Pbox(y)
    ensures x == y
  {
  }

  // ---- The rounds ----

  function Mixed(h: Halves, k: Subkey): Word {
    Xor(F(h.r, k), h.l)
  }

  function Rounds(h: Halves, ks: seq<Subkey>): Halves
    decreases |ks|
  {
    if ks == [] then h else Rounds(Halves(h.r, Mixed(h, ks[0])), ks[1..])
  }

  type Schedule = ks: seq<Subkey> | |ks| == ROUNDS witness seq<Subkey>(ROUNDS, _ => [0, 0, 0, 0, 0, 0])

  /** des_crypt: the last round does not switch sides. */
  function Crypt(s: Block, ks: Schedule): Block {
    var h := Rounds(Ip(s), ks[..ROUNDS - 1]);
    InvIp(Halves(Mixed(h, ks[ROUNDS - 1]), h.r))
  }

  lemma {:induction false} RoundsLast(h: Halves, ks: seq<Subkey>, k: Subkey)
    ensures var g := Rounds(h, ks); Rounds(h, ks + [k]) == Halves(g.r, Mixed(g, k))
    decreases |ks|
  {
    hide Mixed;
    if ks == [] {
      assert (ks + [k])[1..] == [];
    } else {
      assert (ks + [k])[1..] == ks[1..] + [k];
      RoundsLast(Halves(h.r, Mixed(h, ks[0])), ks[1..], k);
    }
  }

  lemma CryptIsRounds(s: Block, ks: Schedule)
    ensures Crypt(s, ks) == InvIp(Swapped(Rounds(Ip(s), ks)))
  {
    hide Ip, InvIp, Mixed, Rounds;
    assert ks[..ROUNDS - 1] + [ks[ROUNDS - 1]] == ks;
    RoundsLast(Ip(s), ks[..ROUNDS - 1], ks[ROUNDS - 1]);
  }

  function Reversed(ks: seq<Subkey>): (r: seq<Subkey>)
    ensures |r| == |ks|
  {
    seq(|ks|, i requires 0 <= i < |ks| => ks[|ks| - 1 - i])
  }

  lemma MixedTwice(h: Halves, k: Subkey)
    ensures Mixed(Halves(Mixed(h, k), h.r), k) == h.l
  {
    XorTwice(h.l, F(h.r, k));
    XorSymmetric(F(h.r, k), h.l);
    XorSymmetric(F(h.r, k), Xor(h.l, F(h.r, k)));
    hide F, Xor;
  }

  /** The rounds backwards undo the rounds, whatever the function of a round is. */
  lemma {:induction false} RoundsBack(h: Halves, ks: seq<Subkey>)
    ensures Rounds(Swapped(Rounds(h, ks)), Reversed(ks)) == Swapped(h)
    decreases |ks|
  {
    hide Mixed, Reversed;
    ReversedStep(ks);
    if ks != [] {
      RoundsBack(Halves(h.r, Mixed(h, ks[0])), ks[1..]);
      RoundsLast(Swapped(Rounds(h, ks)), Reversed(ks[1..]), ks[0]);
      MixedTwice(h, ks[0]);
    }
  }

  lemma ReversedStep(ks: seq<Subkey>)
    ensures ks == [] ==> Reversed(ks) == []
    ensures ks != [] ==> Reversed(ks) == Reversed(ks[1..]) + [ks[0]]
  {
  }

  /** DES with the reversed schedule inverts DES, for every schedule and block. */
  lemma CryptInverts(s: Block, ks: Schedule)
    ensures Crypt(Crypt(s, ks), Reversed(ks)) == s
  {
    hide Ip, InvIp, Mixed, Rounds, Reversed, Crypt;
    CryptIsRounds(s, ks);
    CryptIsRounds(Crypt(s, ks), Reversed(ks));
    IpInvIp(Swapped(Rounds(Ip(s), ks)));
    RoundsBack(Ip(s), ks);
    InvIpIp(s);
  }

  // ---- The key schedule ----

  function PermutedC(): (t: seq<nat>)
    ensures |t| == 28 && forall i :: 0 <= i < |t| ==> t[i] < 64
  {
    [56, 48, 40, 32, 24, 16, 8, 0, 57, 49, 41, 33, 25, 17, 9, 1, 58, 50, 42, 34, 26, 18, 10, 2, 59, 51, 43, 35]
  }

  function PermutedD(): (t: seq<nat>)
    ensures |t| == 28 && forall i :: 0 <= i < |t| ==> t[i] < 64
  {
    [62, 54, 46, 38, 30, 22, 14, 6, 61, 53, 45, 37, 29, 21, 13, 5, 60, 52, 44, 36, 28, 20, 12, 4, 27, 19, 11, 3]
  }

  /** The compression: bits of C for the first half of a subkey, of D for the second. */
  function CompressedC(): (t: seq<nat>)
    ensures |t| == 24 && forall i :: 0 <= i < |t| ==> t[i] < 28
  {
    [13, 16, 10, 23, 0, 4, 2, 27, 14, 5, 20, 9, 22, 18, 11, 3, 25, 7, 15, 6, 26, 19, 12, 1]
  }

  function CompressedD(): (t: seq<nat>)
    ensures |t| == 24 && forall i :: 0 <= i < |t| ==> 28 <= t[i] < 56
  {
    [40, 51, 30, 36, 46, 54, 29, 39, 50, 44, 32, 47, 43, 48, 38, 55, 33, 52, 45, 41, 49, 35, 28, 31]
  }

  function Shift(round: nat): (n: bv5)
    requires round < ROUNDS
    ensures n == 1 || n == 2
  {
    if round == 0 || round == 1 || round == 8 || round == 15 then 1 else 2
  }

  /** A bit of the key, counted from the left of its first byte. */
  function KeyBit(key: Block, b: nat): bv8
    requires b < 64
  {
    Bit(key[b / 8], 7 - b % 8)
  }

  /** A bit of a word, counted from the left. */
  function LeftBit(w: Word, b: bv5): bv8 {
    ((w >> (31 - b)) & 1) as bv8
  }

  function Placed(x: bv8, b: bv5): Word {
    (x as Word) << (31 - b)
  }

  /** A word or byte with a bit put in. */
  function WithLeft(w: Word, x: bv8, b: bv5): Word {
    w | Placed(x, b)
  }

  function WithBit(y: bv8, x: bv8, i: bv3): bv8 {
    y | (x << i)
  }

  /** The first `n` bits that a table takes out of the key. */
  function Chosen(key: Block, t: seq<nat>, n: nat): Word
    requires n <= |t| == 28 && forall i :: 0 <= i < |t| ==> t[i] < 64
  {
    if n == 0 then 0 else WithLeft(Chosen(key, t, n - 1), KeyBit(key, t[n - 1]), (n - 1) as bv5)
  }

  function Turned(w: Word, n: bv5): Word
    requires n == 1 || n == 2
  {
    ((w << n) | (w >> (28 - n))) & 0xfffffff0
  }

  /** The two halves of the key for a round. */
  function KeyHalves(key: Block, round: nat): Halves
    requires round <= ROUNDS
  {
    if round == 0 then Halves(Chosen(key, PermutedC(), 28), Chosen(key, PermutedD(), 28))
    else
      var h := KeyHalves(key, round - 1);
      Halves(Turned(h.l, Shift(round - 1)), Turned(h.r, Shift(round - 1)))
  }

  /** The bit of the halves that goes to place `j` of a subkey. */
  function HalfBit(h: Halves, j: nat): bv8
    requires j < 48
  {
    if j < 24 then LeftBit(h.l, CompressedC()[j] as bv5) else LeftBit(h.r, (CompressedD()[j - 24] - 28) as bv5)
  }

  /** The place of a bit in its byte. */
  function PlaceOf(j: nat): bv3 {
    (7 - j % 8) as bv3
  }

  /** A subkey with its first `n` bits. */
  function Compressed(h: Halves, n: nat): Subkey
    requires n <= 48
  {
    if n == 0 then [0, 0, 0, 0, 0, 0]
    else
      var k, j := Compressed(h, n - 1), n - 1;
      k[j / 8 := WithBit(k[j / 8], HalfBit(h, j), PlaceOf(j))]
  }

  function SubkeyOf(key: Block, round: nat): Subkey
    requires round < ROUNDS
  {
    Compressed(KeyHalves(key, round + 1), 48)
  }

  datatype Mode = Encrypt | Decrypt

  function Other(mode: Mode): Mode {
    if mode == Encrypt then Decrypt else Encrypt
  }

  function ScheduleOf(key: Block, mode: Mode): Schedule {
    seq(ROUNDS, i requires 0 <= i < ROUNDS => SubkeyOf(key, if mode == Decrypt then 15 - i else i))
  }

  /** The schedule of one mode is that of the other backwards. */
  lemma ScheduleReversed(key: Block, mode: Mode)
    ensures ScheduleOf(key, Other(mode)) == Reversed(ScheduleOf(key, mode))
  {
    hide SubkeyOf;
  }

  /** DES with the schedule of either mode inverts DES with that of the other. */
  lemma DesInverts(s: Block, key: Block, mode: Mode)
    ensures Crypt(Crypt(s, ScheduleOf(key, mode)), ScheduleOf(key, Other(mode))) == s
  {
    hide Crypt, ScheduleOf, Reversed;
    ScheduleReversed(key, mode);
    CryptInverts(s, ScheduleOf(key, mode));
  }

  // ---- The bits of the subkeys ----

  lemma WithLeftBit(w: Word, x: bv8, b: bv5, i: bv5)
    requires x <= 1
    ensures LeftBit(WithLeft(w, x, b), i) == if i == b then LeftBit(w, i) | x else LeftBit(w, i)
  {
    hide LeftBit, WithLeft, Placed;
    WithLeftOr(w, x, b, i);
    PlacedBit(x, b, i);
    OrNothing(LeftBit(w, i));
  }

  lemma WithLeftOr(w: Word, x: bv8, b: bv5, i: bv5)
    ensures LeftBit(WithLeft(w, x, b), i) == LeftBit(w, i) | LeftBit(Placed(x, b), i)
  {
    hide LeftBit, Placed;
    LeftBitOr(w, Placed(x, b), i);
  }

  lemma PlacedBit(x: bv8, b: bv5, i: bv5)
    requires x <= 1
    ensures LeftBit(Placed(x, b), i) == if i == b then x else 0
  {
  }

  lemma LeftBitOr(w: Word, y: Word, i: bv5)
    ensures LeftBit(w | y, i) == LeftBit(w, i) | LeftBit(y, i)
  {
  }

  lemma TurnedBit(w: Word, n: bv5, b: bv5)
    requires (n == 1 || n == 2) && w & 0xf == 0 && b < 28
    ensures LeftBit(Turned(w, n), b) == LeftBit(w, if b + n < 28 then b + n else b + n - 28)
    ensures Turned(w, n) & 0xf == 0
  {
  }

  lemma WithBitAt(y: bv8, x: bv8, i: bv3, j: bv3)
    requires x <= 1
    ensures BitAt(WithBit(y, x, i), j) == if i == j then BitAt(y, j) | x else BitAt(y, j)
  {
  }

  lemma FiveBits(n: int)
    requires 0 <= n < 32
    ensures (n as bv5) as int == n
  {
    assert 0 <= (n as bv5) as int < 32;
  }

  lemma ThreeBits(n: int)
    requires 0 <= n < 8
    ensures (n as bv3) as int == n
  {
    assert 0 <= (n as bv3) as int < 8;
  }

  lemma LowBitsClear(w: Word)
    requires LeftBit(w, 28) == LeftBit(w, 29) == LeftBit(w, 30) == LeftBit(w, 31) == 0
    ensures w & 0xf == 0
  {
  }

  /** Permuted choice 1 puts the bits of its table side by side. */
  lemma {:induction false} ChosenBit(key: Block, t: seq<nat>, n: nat, i: bv5)
    requires n <= |t| == 28 && forall i :: 0 <= i < |t| ==> t[i] < 64
    ensures LeftBit(Chosen(key, t, n), i) == if i as int < n then KeyBit(key, t[i as int]) else 0
  {
    hide LeftBit, WithLeft;
    if n == 0 {
      NoBits(i);
    } else {
      ChosenBit(key, t, n - 1, i);
      var x := KeyBit(key, t[n - 1]);
      BitIsSmall(key[t[n - 1] / 8], 7 - t[n - 1] % 8);
      FiveBits(n - 1);
      WithLeftBit(Chosen(key, t, n - 1), x, (n - 1) as bv5, i);
      OrNothing(x);
    }
  }

  lemma NoBits(i: bv5)
    ensures LeftBit(0, i) == 0
  {
  }

  lemma OrNothing(x: bv8)
    ensures 0 | x == x == x | 0
  {
  }

  /** The sum of the shifts of the rounds before `round`. */
  function Total(round: nat): (n: nat)
    requires round <= ROUNDS
  {
    if round == 0 then 0 else Total(round - 1) + Shift(round - 1) as int
  }

  /** After all sixteen rounds the halves have come round. */
  lemma TotalIsWhole()
    ensures Total(ROUNDS) == 28
  {
    assert Total(4) == 6 && Total(8) == 14 && Total(12) == 21;
  }

  lemma TurnedIndex(b: bv5, n: bv5)
    requires (n == 1 || n == 2) && b < 28
    ensures b + n < 28 ==> (b + n) as int == b as int + n as int
    ensures b + n >= 28 ==> (b + n - 28) as int == b as int + n as int - 28
    ensures b as int < 28 && (b + n < 28 <==> b as int + n as int < 28)
  {
  }

  lemma IndexTurns(b: nat, n: nat, total: nat)
    requires b < 28 && n <= 2
    ensures ((if b + n < 28 then b + n else b + n - 28) + total) % 28 == (b + (total + n)) % 28
  {
  }

  ghost predicate HalfIs(w: Word, key: Block, t: seq<nat>, total: nat)
    requires |t| == 28 && forall i :: 0 <= i < |t| ==> t[i] < 64
  {
    w & 0xf == 0 && forall b: bv5 :: b < 28 ==> LeftBit(w, b) == KeyBit(key, t[(b as int + total) % 28])
  }

  lemma TurnKeeps(w: Word, key: Block, t: seq<nat>, total: nat, n: bv5)
    requires |t| == 28 && forall i :: 0 <= i < |t| ==> t[i] < 64
    requires (n == 1 || n == 2) && HalfIs(w, key, t, total)
    ensures HalfIs(Turned(w, n), key, t, total + n as int)
  {
    TurnedBit(w, n, 0);
    forall b: bv5 | b < 28 ensures LeftBit(Turned(w, n), b) == KeyBit(key, t[(b as int + (total + n as int)) % 28]) {
      hide LeftBit, KeyBit, Turned;
      TurnedBit(w, n, b);
      TurnedIndex(b, n);
      IndexTurns(b as int, n as int, total);
    }
  }

  lemma {:induction false} HalvesAre(key: Block, round: nat)
    requires round <= ROUNDS
    ensures HalfIs(KeyHalves(key, round).l, key, PermutedC(), Total(round))
    ensures HalfIs(KeyHalves(key, round).r, key, PermutedD(), Total(round))
  {
    hide HalfIs, Chosen, Turned, PermutedC, PermutedD;
    if round == 0 {
      ChosenIs(key, PermutedC());
      ChosenIs(key, PermutedD());
    } else {
      HalvesAre(key, round - 1);
      var h := KeyHalves(key, round - 1);
      TurnKeeps(h.l, key, PermutedC(), Total(round - 1), Shift(round - 1));
      TurnKeeps(h.r, key, PermutedD(), Total(round - 1), Shift(round - 1));
    }
  }

  lemma ChosenIs(key: Block, t: seq<nat>)
    requires |t| == 28 && forall i :: 0 <= i < |t| ==> t[i] < 64
    ensures HalfIs(Chosen(key, t, 28), key, t, 0)
  {
    hide Chosen, LeftBit, KeyBit;
    var w := Chosen(key, t, 28);
    ChosenBit(key, t, 28, 28);
    ChosenBit(key, t, 28, 29);
    ChosenBit(key, t, 28, 30);
    ChosenBit(key, t, 28, 31);
    LowBitsClear(w);
    forall b: bv5 | b < 28 ensures LeftBit(w, b) == KeyBit(key, t[(b as int + 0) % 28]) {
      ChosenBit(key, t, 28, b);
    }
  }

  /** Bit `j` of a subkey, counted from the left of its first byte. */
  function SubkeyBit(k: Subkey, j: nat): bv8
    requires j < 48
  {
    BitAt(k[j / 8], PlaceOf(j))
  }

  lemma {:induction false} CompressedBit(h: Halves, n: nat, j: nat)
    requires n <= 48 && j < 48
    ensures SubkeyBit(Compressed(h, n), j) == if j < n then HalfBit(h, j) else 0
  {
    hide BitAt, WithBit, HalfBit, PlaceOf;
    if n == 0 {
      NoBitAt(PlaceOf(j));
    } else {
      var k, i := Compressed(h, n - 1), n - 1;
      CompressedBit(h, n - 1, j);
      HalfBitIsSmall(h, i);
      WithBitAt(k[i / 8], HalfBit(h, i), PlaceOf(i), PlaceOf(j));
      OrNothing(HalfBit(h, i));
      if i / 8 == j / 8 && PlaceOf(i) == PlaceOf(j) {
        PlacesApart(i, j);
      }
    }
  }

  lemma PlacesApart(i: nat, j: nat)
    requires i / 8 == j / 8 && PlaceOf(i) == PlaceOf(j)
    ensures i == j
  {
    ThreeBits(7 - i % 8);
    ThreeBits(7 - j % 8);
  }

  lemma NoBitAt(i: bv3)
    ensures BitAt(0, i) == 0
  {
  }

  lemma HalfBitIsSmall(h: Halves, j: nat)
    requires j < 48
    ensures HalfBit(h, j) <= 1
  {
    hide CompressedC, CompressedD;
    if j < 24 {
      LeftBitIsSmall(h.l, CompressedC()[j] as bv5);
    } else {
      LeftBitIsSmall(h.r, (CompressedD()[j - 24] - 28) as bv5);
    }
    hide LeftBit;
  }

  lemma LeftBitIsSmall(w: Word, b: bv5)
    ensures LeftBit(w, b) <= 1
  {
  }

  /**
   Every bit of every subkey is one bit of the key: the one that the two permuted choices give after
   the shifts so far, as a table of FIPS 46-3 would have it.
   */
  lemma SubkeyBitIs(key: Block, round: nat, j: nat)
    requires round < ROUNDS && j < 48
    ensures j < 24 ==>
      SubkeyBit(SubkeyOf(key, round), j) == KeyBit(key, PermutedC()[(CompressedC()[j] + Total(round + 1)) % 28])
    ensures j >= 24 ==>
      SubkeyBit(SubkeyOf(key, round), j) == KeyBit(key, PermutedD()[(CompressedD()[j - 24] - 28 + Total(round + 1)) % 28])
  {
    hide PermutedC, PermutedD, CompressedC, CompressedD, LeftBit, KeyBit, KeyHalves, Compressed, SubkeyBit, Total;
    var h := KeyHalves(key, round + 1);
    CompressedBit(h, 48, j);
    HalvesAre(key, round + 1);
    var b := if j < 24 then CompressedC()[j] else CompressedD()[j - 24] - 28;
    FiveBits(b);
    SmallIndex(b as bv5);
  }

  lemma SmallIndex(b: bv5)
    ensures b < 28 <==> b as int < 28
  {
  }

  // ---- Triple DES ----

  datatype Triple<T> = Triple(first: T, second: T, third: T)

  /** three_des_key_setup */
  function TripleSchedule(keys: Triple<Block>, mode: Mode): Triple<Schedule> {
    if mode == Encrypt then
      Triple(ScheduleOf(keys.first, mode), ScheduleOf(keys.second, Other(mode)), ScheduleOf(keys.third, mode))
    else
      Triple(ScheduleOf(keys.third, mode), ScheduleOf(keys.second, Other(mode)), ScheduleOf(keys.first, mode))
  }

  /** three_des_crypt */
  function TripleCrypt(s: Block, ks: Triple<Schedule>): Block {
    Crypt(Crypt(Crypt(s, ks.first), ks.second), ks.third)
  }

  lemma TripleInverts(s: Block, keys: Triple<Block>, mode: Mode)
    ensures TripleCrypt(TripleCrypt(s, TripleSchedule(keys, mode)), TripleSchedule(keys, Other(mode))) == s
  {
    hide Crypt, ScheduleOf;
    var ks := TripleSchedule(keys, mode);
    var x := Crypt(s, ks.first);
    var y := Crypt(x, ks.second);
    DesInverts(s, if mode == Encrypt then keys.first else keys.third, mode);
    DesInverts(x, keys.second, Other(mode));
    DesInverts(y, if mode == Encrypt then keys.third else keys.first, mode);
  }

  /** Under the first key, back under the second and under the third; where two neighbours are one key, that is DES under the other. */
  lemma TripleIs(s: Block, keys: Triple<Block>, mode: Mode)
    ensures TripleCrypt(s, TripleSchedule(keys, Encrypt)) ==
      Crypt(Crypt(Crypt(s, ScheduleOf(keys.first, Encrypt)), ScheduleOf(keys.second, Decrypt)), ScheduleOf(keys.third, Encrypt))
    ensures keys.first == keys.second ==> TripleCrypt(s, TripleSchedule(keys, mode)) == Crypt(s, ScheduleOf(keys.third, mode))
    ensures keys.second == keys.third ==> TripleCrypt(s, TripleSchedule(keys, mode)) == Crypt(s, ScheduleOf(keys.first, mode))
  {
    hide Crypt, ScheduleOf;
    var ks := TripleSchedule(keys, mode);
    DesInverts(s, keys.second, mode);
    DesInverts(Crypt(s, ks.first), keys.second, Other(mode));
  }

  // ---- The functions as they work on arrays ----

  /** A subkey of a schedule in memory. */
  function RowOf(a: array2<bv8>, i: nat): Subkey
    requires i < a.Length0 && a.Length1 == 6
    reads a
  {
    seq(6, j requires 0 <= j < 6 reads a => a[i, j])
  }

  function RowsOf(a: array2<bv8>): Schedule
    requires a.Length0 == ROUNDS && a.Length1 == 6
    reads a
  {
    seq(ROUNDS, i requires 0 <= i < ROUNDS reads a => RowOf(a, i))
  }

  /** The loops of permuted choice 1. */
  method Choose(key: Block, t: seq<nat>) returns (w: Word)
    requires |t| == 28 && forall i :: 0 <= i < |t| ==> t[i] < 64
    ensures w == Chosen(key, t, 28)
  {
    hide KeyBit, WithLeft;
    w := 0;
    for i := 0 to 28
      invariant w == Chosen(key, t, i)
    {
      w := WithLeft(w, KeyBit(key, t[i]), i as bv5);
    }
  }

  /** The loop that clears one subkey. */
  method Clear(schedule: array2<bv8>, row: nat)
    requires schedule.Length0 == ROUNDS && schedule.Length1 == 6 && row < ROUNDS
    modifies schedule
    ensures RowOf(schedule, row) == [0, 0, 0, 0, 0, 0]
    ensures forall i, j :: 0 <= i < ROUNDS && 0 <= j < 6 && i != row ==> schedule[i, j] == old(schedule[i, j])
  {
    for j := 0 to 6
      invariant forall i, k :: 0 <= i < ROUNDS && 0 <= k < 6 && i != row ==> schedule[i, k] == old(schedule[i, k])
      invariant forall k :: 0 <= k < j ==> schedule[row, k] == 0
    {
      schedule[row, j] := 0;
    }
  }

  /** The loops that fill in one subkey. */
  method Compress(h: Halves, schedule: array2<bv8>, row: nat)
    requires schedule.Length0 == ROUNDS && schedule.Length1 == 6 && row < ROUNDS
    modifies schedule
    ensures RowOf(schedule, row) == Compressed(h, 48)
    ensures forall i, j :: 0 <= i < ROUNDS && 0 <= j < 6 && i != row ==> schedule[i, j] == old(schedule[i, j])
  {
    hide HalfBit, WithBit, PlaceOf;
    Clear(schedule, row);
    for j := 0 to 48
      invariant forall i, k :: 0 <= i < ROUNDS && 0 <= k < 6 && i != row ==> schedule[i, k] == old(schedule[i, k])
      invariant RowOf(schedule, row) == Compressed(h, j)
    {
      schedule[row, j / 8] := WithBit(schedule[row, j / 8], HalfBit(h, j), PlaceOf(j));
    }
  }

  /** des_key_setup */
  method KeySetup(key: Block, schedule: array2<bv8>, mode: Mode)
    requires schedule.Length0 == ROUNDS && schedule.Length1 == 6
    modifies schedule
    ensures RowsOf(schedule) == ScheduleOf(key, mode)
  {
    hide Chosen, Turned, Compressed, PermutedC, PermutedD;
    var c := Choose(key, PermutedC());
    var d := Choose(key, PermutedD());
    for i := 0 to ROUNDS
      invariant Halves(c, d) == KeyHalves(key, i)
      invariant forall k :: 0 <= k < i ==> RowOf(schedule, if mode == Decrypt then 15 - k else k) == SubkeyOf(key, k)
    {
      c := Turned(c, Shift(i));
      d := Turned(d, Shift(i));
      var to_gen := if mode == Decrypt then 15 - i else i;
      ghost var before := RowsOf(schedule);
      Compress(Halves(c, d), schedule, to_gen);
      forall k | 0 <= k < i ensures RowOf(schedule, if mode == Decrypt then 15 - k else k) == SubkeyOf(key, k) {
        var row := if mode == Decrypt then 15 - k else k;
        assert RowOf(schedule, row) == before[row];
      }
    }
    forall i | 0 <= i < ROUNDS ensures RowsOf(schedule)[i] == ScheduleOf(key, mode)[i] {
      var k := if mode == Decrypt then 15 - i else i;
      assert RowOf(schedule, if mode == Decrypt then 15 - k else k) == SubkeyOf(key, k);
    }
  }

  /** des_crypt; the block may be encrypted in place. */
  method CryptBlock(input: array<bv8>, output: array<bv8>, key: array2<bv8>)
    requires input.Length == 8 && output.Length == 8 && key.Length0 == ROUNDS && key.Length1 == 6
    modifies output
    ensures output[..] == Crypt(old(input[..]), RowsOf(key))
  {
    hide Ip, Mixed, InvIp;
    var h := Ip(input[..]);
    ghost var ks, first := RowsOf(key), h;
    assert ks[..0] == [];
    for idx := 0 to ROUNDS - 1
      invariant h == Rounds(first, ks[..idx])
    {
      RoundsLast(first, ks[..idx], ks[idx]);
      assert ks[..idx + 1] == ks[..idx] + [ks[idx]];
      h := Halves(h.r, Mixed(h, RowOf(key, idx)));
    }
    h := Halves(Mixed(h, RowOf(key, ROUNDS - 1)), h.r);
    var block := InvIp(h);
    forall i | 0 <= i < 8 {
      output[i] := block[i];
    }
    assert output[..] == block;
  }

  /** three_des_crypt */
  method TripleCryptBlock(input: array<bv8>, output: array<bv8>, first: array2<bv8>, second: array2<bv8>, third: array2<bv8>)
    requires input.Length == 8 && output.Length == 8
    requires first.Length0 == second.Length0 == third.Length0 == ROUNDS && first.Length1 == second.Length1 == third.Length1 == 6
    modifies output
    ensures output[..] == TripleCrypt(old(input[..]), Triple(RowsOf(first), RowsOf(second), RowsOf(third)))
  {
    hide Crypt, RowsOf;
    CryptBlock(input, output, first);
    CryptBlock(output, output, second);
    CryptBlock(output, output, third);
  }
}
