/** Words of 32 bits as four bytes, the highest first. */
module Words {
  type Word = bv32

  function WordOf(a: bv8, b: bv8, c: bv8, d: bv8): Word {
    (a as Word << 24) | (b as Word << 16) | (c as Word << 8) | d as Word
  }

  /** A byte of a word, counted from the left: what a store into a byte keeps of the shifted word. */
  function Octet(w: Word, i: nat): bv8
    requires i < 4
  {
    if i == 0 then Octet0(w) else if i == 1 then Octet1(w) else if i == 2 then Octet2(w) else Octet3(w)
  }

  function Octet0(w: Word): bv8 { (w >> 24) as bv8 }
  function Octet1(w: Word): bv8 { ((w >> 16) & 0xff) as bv8 }
  function Octet2(w: Word): bv8 { ((w >> 8) & 0xff) as bv8 }
  function Octet3(w: Word): bv8 { (w & 0xff) as bv8 }

  lemma OctetsOfWord(a: bv8, b: bv8, c: bv8, d: bv8)
    ensures var w := WordOf(a, b, c, d); Octet(w, 0) == a && Octet(w, 1) == b && Octet(w, 2) == c && Octet(w, 3) == d
  {
  }

  lemma WordOfOctets(w: Word)
    ensures WordOf(Octet(w, 0), Octet(w, 1), Octet(w, 2), Octet(w, 3)) == w
  {
  }

  function Xor(x: Word, y: Word): Word {
    x ^ y
  }

  function And(x: Word, y: Word): Word {
    x & y
  }

  lemma XorTwice(x: Word, y: Word)
    ensures Xor(Xor(x, y), y) == x
  {
  }

  lemma XorSymmetric(x: Word, y: Word)
    ensures Xor(x, y) == Xor(y, x)
  {
  }

  lemma XorCommutes(x: Word, y: Word, z: Word)
    ensures Xor(Xor(x, y), z) == Xor(Xor(x, z), y)
  {
    hide Xor;
    XorFlat(x, y, z);
    XorFlat(x, z, y);
  }

  lemma XorFlat(x: Word, y: Word, z: Word)
    ensures Xor(Xor(x, y), z) == x ^ y ^ z
  {
  }

  /** The two halves of a block of a cipher in rounds. */
  datatype Halves = Halves(l: Word, r: Word)

  function Swapped(h: Halves): Halves {
    Halves(h.r, h.l)
  }
}
