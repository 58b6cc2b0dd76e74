/**
 The symmetry of DES: complementing key and block complements the result. It goes through every step
 of crypto/des.c, for each of them either moves bits or hides the complement.
 */
module DesSymmetry {
  import opened Words
  import opened Des

  function Flipped(s: seq<bv8>): (r: seq<bv8>)
    ensures |r| == |s|
  {
    seq(|s|, i requires 0 <= i < |s| => !s[i])
  }

  function FlippedKeys(ks: seq<Subkey>): (r: seq<Subkey>)
    ensures |r| == |ks|
  {
    seq(|ks|, i requires 0 <= i < |ks| => Flipped(ks[i]))
  }

  function FlippedHalves(h: Halves): Halves {
    Halves(Not(h.l), Not(h.r))
  }

  function Not(w: Word): Word {
    !w
  }

  lemma FlippedBit(x: bv8, i: nat)
    requires i < 8
    ensures Bit(!x, i) == 1 - Bit(x, i)
  {
  }

  lemma FlippedGather(b7: bv8, b6: bv8, b5: bv8, b4: bv8, b3: bv8, b2: bv8, b1: bv8, b0: bv8)
    requires b7 <= 1 && b6 <= 1 && b5 <= 1 && b4 <= 1 && b3 <= 1 && b2 <= 1 && b1 <= 1 && b0 <= 1
    ensures Gather(1 - b7, 1 - b6, 1 - b5, 1 - b4, 1 - b3, 1 - b2, 1 - b1, 1 - b0) == !Gather(b7, b6, b5, b4, b3, b2, b1, b0)
  {
  }

  lemma FlippedWord(a: bv8, b: bv8, c: bv8, d: bv8)
    ensures WordOf(!a, !b, !c, !d) == !WordOf(a, b, c, d)
  {
  }

  lemma FlippedColumn(s: Block, i: nat)
    requires i < 8
    ensures Column(Flipped(s), i) == !Column(s, i)
  {
    hide Bit, Gather;
    forall j: nat | j < 8 ensures Bit(!s[j], i) == 1 - Bit(s[j], i) && Bit(s[j], i) <= 1 {
      FlippedBit(s[j], i);
      BitIsSmall(s[j], i);
    }
    FlippedGather(Bit(s[7], i), Bit(s[6], i), Bit(s[5], i), Bit(s[4], i), Bit(s[3], i), Bit(s[2], i), Bit(s[1], i), Bit(s[0], i));
  }

  lemma FlippedIp(s: Block)
    ensures Ip(Flipped(s)) == FlippedHalves(Ip(s))
  {
    hide Column, WordOf, Flipped;
    FlippedColumn(s, 0); FlippedColumn(s, 1); FlippedColumn(s, 2); FlippedColumn(s, 3);
    FlippedColumn(s, 4); FlippedColumn(s, 5); FlippedColumn(s, 6); FlippedColumn(s, 7);
    FlippedWord(Column(s, 6), Column(s, 4), Column(s, 2), Column(s, 0));
    FlippedWord(Column(s, 7), Column(s, 5), Column(s, 3), Column(s, 1));
  }

  lemma FlippedInvIp(h: Halves)
    ensures InvIp(FlippedHalves(h)) == Flipped(InvIp(h))
  {
    hide InvIp, Ip, Flipped;
    FlippedIp(InvIp(h));
    IpInvIp(h);
    InvIpIp(Flipped(InvIp(h)));
  }

  lemma FlippedAround0(w: Word) ensures Around(!w, 0) == 0x3f - Around(w, 0) {}
  lemma FlippedAround1(w: Word) ensures Around(!w, 1) == 0x3f - Around(w, 1) {}
  lemma FlippedAround2(w: Word) ensures Around(!w, 2) == 0x3f - Around(w, 2) {}
  lemma FlippedAround3(w: Word) ensures Around(!w, 3) == 0x3f - Around(w, 3) {}
  lemma FlippedAround4(w: Word) ensures Around(!w, 4) == 0x3f - Around(w, 4) {}
  lemma FlippedAround5(w: Word) ensures Around(!w, 5) == 0x3f - Around(w, 5) {}
  lemma FlippedAround6(w: Word) ensures Around(!w, 6) == 0x3f - Around(w, 6) {}
  lemma FlippedAround7(w: Word) ensures Around(!w, 7) == 0x3f - Around(w, 7) {}

  lemma FlippedAround(w: Word, n: nat)
    requires n < 8
    ensures Around(Not(w), n) == 0x3f - Around(w, n)
  {
    hide Around;
    if n == 0 { FlippedAround0(w); }
    else if n == 1 { FlippedAround1(w); }
    else if n == 2 { FlippedAround2(w); }
    else if n == 3 { FlippedAround3(w); }
    else if n == 4 { FlippedAround4(w); }
    else if n == 5 { FlippedAround5(w); }
    else if n == 6 { FlippedAround6(w); }
    else { FlippedAround7(w); }
  }

  lemma FlippedSixBits(k: Subkey, n: nat)
    requires n < 8
    ensures SixBits(Flipped(k), n) == 0x3f - SixBits(k, n) && SixBits(k, n) <= 0x3f
  {
  }

  lemma AroundIsSmall(w: Word, n: nat)
    requires n < 8
    ensures Around(w, n) <= 0x3f
  {
  }

  lemma BothFlipped(a: bv8, b: bv8)
    requires a <= 0x3f && b <= 0x3f
    ensures (0x3f - a) ^ (0x3f - b) == a ^ b
  {
  }

  lemma SameSubstitution(a: Subkey, b: Subkey)
    requires forall n: nat :: n < 8 ==> SixBits(a, n) == SixBits(b, n)
    ensures Substituted(a) == Substituted(b)
  {
    hide Looked, SixBits, Joined;
    SameLooked(a, b, 0); SameLooked(a, b, 1); SameLooked(a, b, 2); SameLooked(a, b, 3);
    SameLooked(a, b, 4); SameLooked(a, b, 5); SameLooked(a, b, 6); SameLooked(a, b, 7);
  }

  lemma SameLooked(a: Subkey, b: Subkey, n: nat)
    requires n < 8 && SixBits(a, n) == SixBits(b, n)
    ensures Looked(a, n) == Looked(b, n)
  {
    hide SixBits, Sbox;
  }

  /** What goes into the S-boxes does not change if half and subkey are both complemented. */
  lemma FlippedF(w: Word, k: Subkey)
    ensures F(Not(w), Flipped(k)) == F(w, k)
  {
    hide Keyed, Pbox, SixBits, Around, Flipped, Not, Substituted;
    var a, b := Keyed(Not(w), Flipped(k)), Keyed(w, k);
    forall n: nat | n < 8 ensures SixBits(a, n) == SixBits(b, n) {
      ExpansionIs(w, k, n);
      ExpansionIs(Not(w), Flipped(k), n);
      FlippedAround(w, n);
      FlippedSixBits(k, n);
      AroundIsSmall(w, n);
      BothFlipped(Around(w, n), SixBits(k, n));
    }
    SameSubstitution(a, b);
  }

  lemma FlippedMixed(h: Halves, k: Subkey)
    ensures Mixed(FlippedHalves(h), Flipped(k)) == Not(Mixed(h, k))
  {
    hide F, Flipped, Not, Xor;
    FlippedF(h.r, k);
    XorNot(F(h.r, k), h.l);
  }

  lemma XorNot(a: Word, b: Word)
    ensures Xor(a, Not(b)) == Not(Xor(a, b))
  {
  }

  lemma {:induction false} FlippedRounds(h: Halves, ks: seq<Subkey>)
    ensures Rounds(FlippedHalves(h), FlippedKeys(ks)) == FlippedHalves(Rounds(h, ks))
    decreases |ks|
  {
    hide Mixed, Flipped, Not;
    if ks != [] {
      FlippedMixed(h, ks[0]);
      assert FlippedKeys(ks)[1..] == FlippedKeys(ks[1..]) && FlippedKeys(ks)[0] == Flipped(ks[0]);
      FlippedRounds(Halves(h.r, Mixed(h, ks[0])), ks[1..]);
    }
  }

  lemma FlippedCrypt(s: Block, ks: Schedule)
    ensures Crypt(Flipped(s), FlippedKeys(ks)) == Flipped(Crypt(s, ks))
  {
    hide Ip, InvIp, Rounds, Crypt, Flipped, FlippedKeys, Not;
    CryptIsRounds(s, ks);
    CryptIsRounds(Flipped(s), FlippedKeys(ks));
    FlippedIp(s);
    FlippedRounds(Ip(s), ks);
    FlippedInvIp(Swapped(Rounds(Ip(s), ks)));
  }

  /** A byte is known by its bits. */
  lemma SameBits(x: bv8, y: bv8)
    requires forall i: nat :: i < 8 ==> Bit(x, i) == 1 - Bit(y, i)
    ensures x == !y
  {
    forall i: nat | i < 8 ensures Bit(y, i) <= 1 { BitIsSmall(y, i); }
    FlippedGather(Bit(y, 7), Bit(y, 6), Bit(y, 5), Bit(y, 4), Bit(y, 3), Bit(y, 2), Bit(y, 1), Bit(y, 0));
    BitsGathered(x);
    BitsGathered(y);
    hide Bit, Gather;
  }

  lemma FlippedKeyBit(key: Block, b: nat)
    requires b < 64
    ensures KeyBit(Flipped(key), b) == 1 - KeyBit(key, b)
  {
    FlippedBit(key[b / 8], 7 - b % 8);
  }

  /** The key schedule only selects bits of the key. */
  lemma FlippedSubkey(key: Block, round: nat)
    requires round < ROUNDS
    ensures SubkeyOf(Flipped(key), round) == Flipped(SubkeyOf(key, round))
  {
    hide Bit, SubkeyOf, SubkeyBit;
    var k, l := SubkeyOf(key, round), SubkeyOf(Flipped(key), round);
    forall m: nat | m < 6 ensures l[m] == !k[m] {
      forall i: nat | i < 8 ensures Bit(l[m], i) == 1 - Bit(k[m], i) {
        FlippedSubkeyBit(key, round, 8 * m + (7 - i));
        SubkeyBitAt(k, m, i);
        SubkeyBitAt(l, m, i);
      }
      SameBits(l[m], k[m]);
    }
  }

  lemma SubkeyBitAt(k: Subkey, m: nat, i: nat)
    requires m < 6 && i < 8
    ensures SubkeyBit(k, 8 * m + (7 - i)) == Bit(k[m], i)
  {
    hide BitAt;
    var j := 8 * m + (7 - i);
    assert j / 8 == m && 7 - j % 8 == i;
  }

  lemma FlippedSubkeyBit(key: Block, round: nat, j: nat)
    requires round < ROUNDS && j < 48
    ensures SubkeyBit(SubkeyOf(Flipped(key), round), j) == 1 - SubkeyBit(SubkeyOf(key, round), j)
  {
    hide PermutedC, PermutedD, CompressedC, CompressedD, KeyBit, SubkeyOf, SubkeyBit, Total, Flipped;
    SubkeyBitIs(key, round, j);
    SubkeyBitIs(Flipped(key), round, j);
    if j < 24 {
      FlippedKeyBit(key, PermutedC()[(CompressedC()[j] + Total(round + 1)) % 28]);
    } else {
      FlippedKeyBit(key, PermutedD()[(CompressedD()[j - 24] - 28 + Total(round + 1)) % 28]);
    }
  }

  /** Complementing key and block complements the result: the symmetry of DES, through every step of it. */
  lemma Complementation(s: Block, key: Block, mode: Mode)
    ensures Crypt(Flipped(s), ScheduleOf(Flipped(key), mode)) == Flipped(Crypt(s, ScheduleOf(key, mode)))
  {
    hide Crypt, Flipped, SubkeyOf;
    forall i: nat | i < ROUNDS ensures SubkeyOf(Flipped(key), i) == Flipped(SubkeyOf(key, i)) {
      FlippedSubkey(key, i);
    }
    assert ScheduleOf(Flipped(key), mode) == FlippedKeys(ScheduleOf(key, mode));
    FlippedCrypt(s, ScheduleOf(key, mode));
  }
}
