/** What the S-box of crypto/aes.c is: section 5.1.1 of FIPS 197. */
module AesSbox {
  import opened AesTables

  /** The product in GF(2^8), section 4.2 of FIPS 197. */
  function Times(x: bv8, y: bv8): bv8 {
    var x2 := XTime(x);
    var x4 := XTime(x2);
    var x8 := XTime(x4);
    var x16 := XTime(x8);
    var x32 := XTime(x16);
    var x64 := XTime(x32);
    var x128 := XTime(x64);
    If(y, 1, x) ^ If(y, 2, x2) ^ If(y, 4, x4) ^ If(y, 8, x8) ^
    If(y, 16, x16) ^ If(y, 32, x32) ^ If(y, 64, x64) ^ If(y, 128, x128)
  }

  /** A value if a bit of `y` is set. */
  function If(y: bv8, bit: bv8, x: bv8): bv8 {
    if y & bit != 0 then x else 0
  }

  /** A byte turned to the left. */
  function Turn(x: bv8, n: bv4): bv8
    requires n <= 8
  {
    (x << n) | (x >> (8 - n))
  }

  /** The affine map of the S-box, and its inverse. */
  function Mapped(x: bv8): bv8 {
    x ^ Turn(x, 1) ^ Turn(x, 2) ^ Turn(x, 3) ^ Turn(x, 4) ^ 0x63
  }

  function Unmapped(x: bv8): bv8 {
    Turn(x, 1) ^ Turn(x, 3) ^ Turn(x, 6) ^ 0x05
  }

  lemma MappedUnmapped(x: bv8)
    ensures Mapped(Unmapped(x)) == x
  {
  }

  lemma Row0(x: bv8)
    requires x >> 4 == 0 && x != 0
    ensures Times(x, Unmapped(Sbox(x))) == 1
  {
  }

  lemma Row1(x: bv8)
    requires x >> 4 == 1 && x != 0
    ensures Times(x, Unmapped(Sbox(x))) == 1
  {
  }

  lemma Row2(x: bv8)
    requires x >> 4 == 2 && x != 0
    ensures Times(x, Unmapped(Sbox(x))) == 1
  {
  }

  lemma Row3(x: bv8)
    requires x >> 4 == 3 && x != 0
    ensures Times(x, Unmapped(Sbox(x))) == 1
  {
  }

  lemma Row4(x: bv8)
    requires x >> 4 == 4 && x != 0
    ensures Times(x, Unmapped(Sbox(x))) == 1
  {
  }

  lemma Row5(x: bv8)
    requires x >> 4 == 5 && x != 0
    ensures Times(x, Unmapped(Sbox(x))) == 1
  {
  }

  lemma Row6(x: bv8)
    requires x >> 4 == 6 && x != 0
    ensures Times(x, Unmapped(Sbox(x))) == 1
  {
  }

  lemma Row7(x: bv8)
    requires x >> 4 == 7 && x != 0
    ensures Times(x, Unmapped(Sbox(x))) == 1
  {
  }

  lemma Row8(x: bv8)
    requires x >> 4 == 8 && x != 0
    ensures Times(x, Unmapped(Sbox(x))) == 1
  {
  }

  lemma Row9(x: bv8)
    requires x >> 4 == 9 && x != 0
    ensures Times(x, Unmapped(Sbox(x))) == 1
  {
  }

  lemma Row10(x: bv8)
    requires x >> 4 == 10 && x != 0
    ensures Times(x, Unmapped(Sbox(x))) == 1
  {
  }

  lemma Row11(x: bv8)
    requires x >> 4 == 11 && x != 0
    ensures Times(x, Unmapped(Sbox(x))) == 1
  {
  }

  lemma Row12(x: bv8)
    requires x >> 4 == 12 && x != 0
    ensures Times(x, Unmapped(Sbox(x))) == 1
  {
  }

  lemma Row13(x: bv8)
    requires x >> 4 == 13 && x != 0
    ensures Times(x, Unmapped(Sbox(x))) == 1
  {
  }

  lemma Row14(x: bv8)
    requires x >> 4 == 14 && x != 0
    ensures Times(x, Unmapped(Sbox(x))) == 1
  {
  }

  lemma Row15(x: bv8)
    requires x >> 4 == 15 && x != 0
    ensures Times(x, Unmapped(Sbox(x))) == 1
  {
  }

  lemma OfZero()
    ensures Unmapped(Sbox(0)) == 0
  {
  }

  /** The S-box is the affine map of the multiplicative inverse, where zero counts as its own inverse. */
  lemma SboxIsAffineInverse(x: bv8) returns (y: bv8)
    ensures if x == 0 then y == 0 else Times(x, y) == 1
    ensures Sbox(x) == Mapped(y)
  {
    hide Sbox, Times, Mapped, Unmapped;
    y := Unmapped(Sbox(x));
    MappedUnmapped(Sbox(x));
    var row := x >> 4;
    if x == 0 {
      OfZero();
    } else {
      RowOf(x, row);
    }
  }

  lemma RowOf(x: bv8, row: bv8)
    requires row == x >> 4 && x != 0
    ensures Times(x, Unmapped(Sbox(x))) == 1
  {
    hide Sbox, Times, Unmapped;
    if row == 0 { Row0(x); }
    else if row == 1 { Row1(x); }
    else if row == 2 { Row2(x); }
    else if row == 3 { Row3(x); }
    else if row == 4 { Row4(x); }
    else if row == 5 { Row5(x); }
    else if row == 6 { Row6(x); }
    else if row == 7 { Row7(x); }
    else if row == 8 { Row8(x); }
    else if row == 9 { Row9(x); }
    else if row == 10 { Row10(x); }
    else if row == 11 { Row11(x); }
    else if row == 12 { Row12(x); }
    else if row == 13 { Row13(x); }
    else if row == 14 { Row14(x); }
    else { FourBits(x); Row15(x); }
  }
}
