/**
 The functions on words of section 4.1.2 of FIPS 180-2, bit by bit. A bit number is counted from the right,
 modulo 32, so that adding to it is turning the word.
 */
module Sha256Bits {
  import opened Sha256
  import opened Words

  predicate Bit(x: Word, i: bv5) {
    (x >> i) & 1 == 1
  }

  /** One or all of the three. */
  predicate Odd(a: bool, b: bool, c: bool) {
    (a && !b && !c) || (!a && b && !c) || (!a && !b && c) || (a && b && c)
  }

  lemma AndBit(x: Word, y: Word, i: bv5)
    ensures Bit(And(x, y), i) <==> Bit(x, i) && Bit(y, i)
  {
  }

  lemma XorTwoBits(x: Word, y: Word, i: bv5)
    ensures Bit(Xor(x, y), i) <==> Bit(x, i) != Bit(y, i)
  {
    hide Bit;
    RawXorBit(x, y, i);
  }

  lemma RawXorBit(x: Word, y: Word, i: bv5)
    ensures Bit(x ^ y, i) == (Bit(x, i) != Bit(y, i))
  {
  }

  lemma XorBit(x: Word, y: Word, z: Word, i: bv5)
    ensures Bit(Xor(Xor(x, y), z), i) <==> Odd(Bit(x, i), Bit(y, i), Bit(z, i))
  {
    hide Bit, Xor;
    XorTwoBits(x, y, i);
    XorTwoBits(Xor(x, y), z, i);
  }

  lemma Turn2(x: Word, i: bv5)
    ensures Bit(Rotr(x, 2), i) == Bit(x, i + 2)
  {
  }

  lemma Turn6(x: Word, i: bv5)
    ensures Bit(Rotr(x, 6), i) == Bit(x, i + 6)
  {
  }

  lemma Turn7(x: Word, i: bv5)
    ensures Bit(Rotr(x, 7), i) == Bit(x, i + 7)
  {
  }

  lemma Turn11(x: Word, i: bv5)
    ensures Bit(Rotr(x, 11), i) == Bit(x, i + 11)
  {
  }

  lemma Turn13(x: Word, i: bv5)
    ensures Bit(Rotr(x, 13), i) == Bit(x, i + 13)
  {
  }

  lemma Turn17(x: Word, i: bv5)
    ensures Bit(Rotr(x, 17), i) == Bit(x, i + 17)
  {
  }

  lemma Turn18(x: Word, i: bv5)
    ensures Bit(Rotr(x, 18), i) == Bit(x, i + 18)
  {
  }

  lemma Turn19(x: Word, i: bv5)
    ensures Bit(Rotr(x, 19), i) == Bit(x, i + 19)
  {
  }

  lemma Turn22(x: Word, i: bv5)
    ensures Bit(Rotr(x, 22), i) == Bit(x, i + 22)
  {
  }

  lemma Turn25(x: Word, i: bv5)
    ensures Bit(Rotr(x, 25), i) == Bit(x, i + 25)
  {
  }

  lemma Shift3(x: Word, i: bv5)
    ensures Bit(x >> 3, i) == (i < 29 && Bit(x, i + 3))
  {
  }

  lemma Shift10(x: Word, i: bv5)
    ensures Bit(x >> 10, i) == (i < 22 && Bit(x, i + 10))
  {
  }

  /** Where `x` has a one, the bit of `y`, and where it has a zero, that of `z`. */
  lemma ChChooses(x: Word, y: Word, z: Word, i: bv5)
    ensures Bit(Ch(x, y, z), i) == if Bit(x, i) then Bit(y, i) else Bit(z, i)
  {
    if Bit(x, i) {
      ChOfOne(x, y, z, i);
    } else {
      ChOfZero(x, y, z, i);
    }
  }

  lemma ChOfOne(x: Word, y: Word, z: Word, i: bv5)
    requires Bit(x, i)
    ensures Bit(Ch(x, y, z), i) == Bit(y, i)
  {
  }

  lemma ChOfZero(x: Word, y: Word, z: Word, i: bv5)
    requires !Bit(x, i)
    ensures Bit(Ch(x, y, z), i) == Bit(z, i)
  {
  }

  /** The bit that at least two of the three have. */
  lemma MajIsMajority(x: Word, y: Word, z: Word, i: bv5)
    ensures Bit(Maj(x, y, z), i) <==> (Bit(x, i) && Bit(y, i)) || (Bit(x, i) && Bit(z, i)) || (Bit(y, i) && Bit(z, i))
  {
    hide Bit, And, Xor;
    AndBit(x, y, i);
    AndBit(x, z, i);
    AndBit(y, z, i);
    XorBit(And(x, y), And(x, z), And(y, z), i);
  }

  lemma Ep0Bit(x: Word, i: bv5)
    ensures Bit(Ep0(x), i) <==> Odd(Bit(x, i + 2), Bit(x, i + 13), Bit(x, i + 22))
  {
    hide Bit, Rotr, Xor;
    Turn2(x, i);
    Turn13(x, i);
    Turn22(x, i);
    XorBit(Rotr(x, 2), Rotr(x, 13), Rotr(x, 22), i);
  }

  lemma Ep1Bit(x: Word, i: bv5)
    ensures Bit(Ep1(x), i) <==> Odd(Bit(x, i + 6), Bit(x, i + 11), Bit(x, i + 25))
  {
    hide Bit, Rotr, Xor;
    Turn6(x, i);
    Turn11(x, i);
    Turn25(x, i);
    XorBit(Rotr(x, 6), Rotr(x, 11), Rotr(x, 25), i);
  }

  lemma Sig0Bit(x: Word, i: bv5)
    ensures Bit(Sig0(x), i) <==> Odd(Bit(x, i + 7), Bit(x, i + 18), i < 29 && Bit(x, i + 3))
  {
    hide Bit, Rotr, Xor;
    Turn7(x, i);
    Turn18(x, i);
    Shift3(x, i);
    XorBit(Rotr(x, 7), Rotr(x, 18), x >> 3, i);
  }

  lemma Sig1Bit(x: Word, i: bv5)
    ensures Bit(Sig1(x), i) <==> Odd(Bit(x, i + 17), Bit(x, i + 19), i < 22 && Bit(x, i + 10))
  {
    hide Bit, Rotr, Xor;
    Turn17(x, i);
    Turn19(x, i);
    Shift10(x, i);
    XorBit(Rotr(x, 17), Rotr(x, 19), x >> 10, i);
  }
}
