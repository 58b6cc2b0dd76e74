/**
 The hash of keys, jansson/lookup3.h: reading a key by words, by half words or by bytes gives the same
 hash, which is that of the key with its last block filled up with zeros; and the mixing is reversible.
 */
module Lookup3 {
  import opened Arithmetic
  import opened Bytes

  /** An unsigned 32-bit word, as an integer. */
  type Word = x: int | 0 <= x < TWO32

  const TWO32 := 0x1_0000_0000
  const BLOCK := 12

  datatype Mixer = Mixer(a: Word, b: Word, c: Word)

  function Power2(n: nat): (p: nat)
    ensures p > 0
  {
    if n == 0 then 1 else 2 * Power2(n - 1)
  }

  lemma WordBits()
    ensures Power2(32) == TWO32
  {
    assert Power2(8) == 0x100;
    assert Power2(16) == 0x1_0000;
    assert Power2(24) == 0x100_0000;
  }

  /** The bits in which two numbers differ, of the lowest `n`. */
  function XorBits(x: nat, y: nat, n: nat): (r: nat)
    ensures r < Power2(n)
  {
    if n == 0 then 0 else 2 * XorBits(x / 2, y / 2, n - 1) + Differ(x, y)
  }

  /** Whether the lowest bits of two numbers differ. */
  function Differ(x: nat, y: nat): (b: nat)
    ensures b < 2
  {
    (x + y) % 2
  }

  lemma {:induction false} XorBitsTwice(x: nat, y: nat, n: nat)
    requires x < Power2(n)
    ensures XorBits(XorBits(x, y, n), y, n) == x
  {
    hide Differ;
    if n > 0 {
      var r := XorBits(x / 2, y / 2, n - 1);
      LowBit(r, x, y);
      XorBitsTwice(x / 2, y / 2, n - 1);
    }
  }

  lemma LowBit(r: nat, x: nat, y: nat)
    ensures (2 * r + Differ(x, y)) / 2 == r && x == 2 * (x / 2) + Differ(2 * r + Differ(x, y), y)
  {
  }

  function Plus(x: Word, y: Word): Word { (x + y) % TWO32 }
  function Minus(x: Word, y: Word): Word { (x - y) % TWO32 }

  function Xor(x: Word, y: Word): Word {
    WordBits();
    XorBits(x, y, 32)
  }

  /** A word turned to the left by `k` bits: what leaves at the top comes in at the bottom. */
  function Rot(x: Word, k: nat): Word {
    if k == 0 then x
    else
      var y := Rot(x, k - 1);
      2 * y % TWO32 + y / 0x8000_0000
  }

  // ---- mix and final, and how they are undone ----

  lemma Cancel(x: Word, y: Word)
    ensures Minus(Plus(x, y), y) == x == Plus(Minus(x, y), y)
    ensures Xor(Xor(x, y), y) == x
  {
    hide Xor;
    XorTwice(x, y);
  }

  lemma XorTwice(x: Word, y: Word)
    ensures Xor(Xor(x, y), y) == x
  {
    WordBits();
    hide Power2;
    XorBitsTwice(x, y, 32);
  }

  /** One row of mix: the first value by the third, which the second is added to. */
  function Sweep(x: Word, y: Word, z: Word, k: nat): (r: (Word, Word))
  {
    (Xor(Minus(x, z), Rot(z, k)), Plus(z, y))
  }

  function Unsweep(x: Word, y: Word, z: Word, k: nat): (r: (Word, Word))
  {
    var w := Minus(z, y);
    (Plus(Xor(x, Rot(w, k)), w), w)
  }

  lemma UnsweepSweep(x: Word, y: Word, z: Word, k: nat)
    ensures Unsweep(Sweep(x, y, z, k).0, y, Sweep(x, y, z, k).1, k) == (x, z)
    ensures Sweep(Unsweep(x, y, z, k).0, y, Unsweep(x, y, z, k).1, k) == (x, z)
  {
    hide Rot, Plus, Minus, Xor;
    var w := Minus(z, y);
    Cancel(z, y);
    Cancel(Minus(x, z), Rot(z, k));
    Cancel(x, z);
    Cancel(x, Rot(w, k));
    Cancel(Xor(x, Rot(w, k)), w);
  }

  /** The rows of mix, which take turns with the three values. */
  function RowA(m: Mixer, k: nat): Mixer
  {
    var s := Sweep(m.a, m.b, m.c, k);
    Mixer(s.0, m.b, s.1)
  }

  function RowB(m: Mixer, k: nat): Mixer
  {
    var s := Sweep(m.b, m.c, m.a, k);
    Mixer(s.1, s.0, m.c)
  }

  function RowC(m: Mixer, k: nat): Mixer
  {
    var s := Sweep(m.c, m.a, m.b, k);
    Mixer(m.a, s.1, s.0)
  }

  function UnrowA(m: Mixer, k: nat): Mixer
  {
    var s := Unsweep(m.a, m.b, m.c, k);
    Mixer(s.0, m.b, s.1)
  }

  function UnrowB(m: Mixer, k: nat): Mixer
  {
    var s := Unsweep(m.b, m.c, m.a, k);
    Mixer(s.1, s.0, m.c)
  }

  function UnrowC(m: Mixer, k: nat): Mixer
  {
    var s := Unsweep(m.c, m.a, m.b, k);
    Mixer(m.a, s.1, s.0)
  }

  lemma RowsUndone(m: Mixer, k: nat)
    ensures UnrowA(RowA(m, k), k) == m == RowA(UnrowA(m, k), k)
    ensures UnrowB(RowB(m, k), k) == m == RowB(UnrowB(m, k), k)
    ensures UnrowC(RowC(m, k), k) == m == RowC(UnrowC(m, k), k)
  {
    UnsweepSweep(m.a, m.b, m.c, k);
    UnsweepSweep(m.b, m.c, m.a, k);
    UnsweepSweep(m.c, m.a, m.b, k);
    hide Sweep, Unsweep;
  }

  function Mix(m: Mixer): Mixer {
    RowC(RowB(RowA(RowC(RowB(RowA(m, 4), 6), 8), 16), 19), 4)
  }

  function Unmix(m: Mixer): Mixer {
    UnrowA(UnrowB(UnrowC(UnrowA(UnrowB(UnrowC(m, 4), 19), 16), 8), 6), 4)
  }

  /** mix loses nothing: it has an inverse on both sides. */
  lemma MixIsReversible(m: Mixer)
    ensures Unmix(Mix(m)) == m == Mix(Unmix(m))
  {
    var m1 := RowA(m, 4); var m2 := RowB(m1, 6); var m3 := RowC(m2, 8); var m4 := RowA(m3, 16); var m5 := RowB(m4, 19);
    var n1 := UnrowC(m, 4); var n2 := UnrowB(n1, 19); var n3 := UnrowA(n2, 16); var n4 := UnrowC(n3, 8); var n5 := UnrowB(n4, 6);
    RowsUndone(m, 4); RowsUndone(m1, 6); RowsUndone(m2, 8); RowsUndone(m3, 16); RowsUndone(m4, 19); RowsUndone(m5, 4);
    RowsUndone(n1, 19); RowsUndone(n2, 16); RowsUndone(n3, 8); RowsUndone(n4, 6); RowsUndone(n5, 4);
    hide RowA, RowB, RowC, UnrowA, UnrowB, UnrowC;
  }

  /** One row of final: a value by the one before. */
  function Stir(x: Word, y: Word, k: nat): Word
  {
    Minus(Xor(x, y), Rot(y, k))
  }

  function Unstir(x: Word, y: Word, k: nat): Word
  {
    Xor(Plus(x, Rot(y, k)), y)
  }

  lemma UnstirStir(x: Word, y: Word, k: nat)
    ensures Unstir(Stir(x, y, k), y, k) == x == Stir(Unstir(x, y, k), y, k)
  {
    hide Rot, Plus, Minus, Xor;
    Cancel(Xor(x, y), Rot(y, k));
    Cancel(x, y);
    Cancel(Plus(x, Rot(y, k)), y);
    Cancel(x, Rot(y, k));
  }

  function Final(m: Mixer): Mixer {
    var c1 := Stir(m.c, m.b, 14);
    var a1 := Stir(m.a, c1, 11);
    var b1 := Stir(m.b, a1, 25);
    var c2 := Stir(c1, b1, 16);
    var a2 := Stir(a1, c2, 4);
    var b2 := Stir(b1, a2, 14);
    Mixer(a2, b2, Stir(c2, b2, 24))
  }

  function Unfinal(m: Mixer): Mixer {
    var c2 := Unstir(m.c, m.b, 24);
    var b1 := Unstir(m.b, m.a, 14);
    var a1 := Unstir(m.a, c2, 4);
    var c1 := Unstir(c2, b1, 16);
    var b := Unstir(b1, a1, 25);
    var a := Unstir(a1, c1, 11);
    Mixer(a, b, Unstir(c1, b, 14))
  }

  lemma FinalIsReversible(m: Mixer)
    ensures Unfinal(Final(m)) == m == Final(Unfinal(m))
  {
    hide Stir, Unstir;
    UnfinalFinal(m);
    FinalUnfinal(m);
  }

  lemma UnfinalFinal(m: Mixer)
    ensures Unfinal(Final(m)) == m
  {
    hide Stir, Unstir;
    var c1 := Stir(m.c, m.b, 14);
    var a1 := Stir(m.a, c1, 11);
    var b1 := Stir(m.b, a1, 25);
    var c2 := Stir(c1, b1, 16);
    var a2 := Stir(a1, c2, 4);
    var b2 := Stir(b1, a2, 14);
    UnstirStir(c2, b2, 24);
    UnstirStir(b1, a2, 14);
    UnstirStir(a1, c2, 4);
    UnstirStir(c1, b1, 16);
    UnstirStir(m.b, a1, 25);
    UnstirStir(m.a, c1, 11);
    UnstirStir(m.c, m.b, 14);
  }

  lemma FinalUnfinal(m: Mixer)
    ensures Final(Unfinal(m)) == m
  {
    hide Stir, Unstir;
    var c2 := Unstir(m.c, m.b, 24);
    var b1 := Unstir(m.b, m.a, 14);
    var a1 := Unstir(m.a, c2, 4);
    var c1 := Unstir(c2, b1, 16);
    var b := Unstir(b1, a1, 25);
    var a := Unstir(a1, c1, 11);
    UnstirStir(c1, b, 14);
    UnstirStir(a1, c1, 11);
    UnstirStir(b1, a1, 25);
    UnstirStir(c2, b1, 16);
    UnstirStir(m.a, c2, 4);
    UnstirStir(m.b, m.a, 14);
    UnstirStir(m.c, m.b, 24);
  }

  // ---- The hash of a key ----

  function LittleEndian(b0: int, b1: int, b2: int, b3: int): int {
    b0 + 0x100 * b1 + 0x1_0000 * b2 + 0x100_0000 * b3
  }

  /** A byte of a string, or zero past its end. */
  function At(s: Text, i: nat): (b: int)
    ensures 0 <= b < 256
  {
    if i < |s| then s[i] else 0
  }

  /** The little-endian word of four bytes. */
  function WordAt(s: Text, i: nat): Word {
    LittleEndian(At(s, i), At(s, i + 1), At(s, i + 2), At(s, i + 3))
  }

  /** The little-endian half word of two bytes. */
  function HalfAt(s: Text, i: nat): Word {
    LittleEndian(At(s, i), At(s, i + 1), 0, 0)
  }

  /** The mixer with the block of twelve bytes at `k` added. */
  function AddBlock(m: Mixer, s: Text, k: nat): Mixer {
    Mixer(Plus(m.a, WordAt(s, k)), Plus(m.b, WordAt(s, k + 4)), Plus(m.c, WordAt(s, k + 8)))
  }

  /** The mixer after a key from `k` on: every block is added and mixed, and the last, filled up with zeros, is finished. */
  function Absorbed(m: Mixer, key: Text, k: nat): Mixer
    decreases |key| - k
  {
    if k >= |key| then m
    else if |key| - k <= BLOCK then Final(AddBlock(m, key, k))
    else Absorbed(Mix(AddBlock(m, key, k)), key, k + BLOCK)
  }

  function Start(length: nat, initval: Word): Mixer {
    var x := Plus(Plus(0xdeadbeef, length % TWO32), initval);
    Mixer(x, x, x)
  }

  function Hash(key: Text, initval: Word): Word {
    Absorbed(Start(|key|, initval), key, 0).c
  }

  // ---- Reading by words ----

  /** The masks of the last block; `n` bytes are left. */
  function Masked(w: Word, n: nat): Word {
    if n == 1 then w % 0x100 else if n == 2 then w % 0x1_0000 else if n == 3 then w % 0x100_0000 else w
  }

  lemma Masks(b0: Byte, b1: Byte, b2: Byte, b3: Byte)
    ensures LittleEndian(b0, b1, b2, b3) % 0x100 == LittleEndian(b0, 0, 0, 0)
    ensures LittleEndian(b0, b1, b2, b3) % 0x1_0000 == LittleEndian(b0, b1, 0, 0)
    ensures LittleEndian(b0, b1, b2, b3) % 0x100_0000 == LittleEndian(b0, b1, b2, 0)
  {
    var x := LittleEndian(b0, b1, b2, b3);
    LowPart(x, 0x100, LittleEndian(b1, b2, b3, 0), b0);
    LowPart(x, 0x1_0000, LittleEndian(b2, b3, 0, 0), LittleEndian(b0, b1, 0, 0));
    LowPart(x, 0x100_0000, b3, LittleEndian(b0, b1, b2, 0));
  }

  lemma LowPart(x: nat, p: nat, high: nat, low: nat)
    requires low < p && x == p * high + low
    ensures x % p == low
  {
    ModIs(high, low, p);
  }

  /** A mask takes away what is read past the end of the key. */
  lemma MaskedIs(mem: Text, i: nat, end: nat)
    requires i < end <= |mem|
    ensures Masked(WordAt(mem, i), end - i) == WordAt(mem[..end], i)
  {
    Masks(At(mem, i), At(mem, i + 1), At(mem, i + 2), At(mem, i + 3));
    var key := mem[..end];
    assert forall j {:trigger At(key, j)} :: i <= j ==> At(key, j) == if j < end then At(mem, j) else 0;
    hide LittleEndian, At;
  }

  /** A word that is not read adds nothing. */
  lemma PastTheEnd(s: Text, i: nat, x: Word)
    requires i >= |s|
    ensures Plus(x, WordAt(s, i)) == x
  {
    assert WordAt(s, i) == 0;
    AddNothing(x);
  }

  lemma AddNothing(x: Word)
    ensures Plus(x, 0) == x
  {
  }

  /** The path of hashlittle for keys at an address divisible by four: `mem` is the memory at the key, to the end of its last word. */
  method HashWords(mem: Text, length: nat, initval: Word) returns (r: Word)
    requires length <= |mem| && |mem| % 4 == 0
    ensures r == Hash(mem[..length], initval)
  {
    hide WordAt, Plus, Mix, Final, Masked, Start;
    ghost var key := mem[..length];
    var m := Start(length, initval);
    var k: nat, left: nat := 0, length;
    while left > BLOCK
      invariant k + left == length && Absorbed(m, key, k) == Absorbed(Start(length, initval), key, 0)
    {
      ReadWords(mem, length, k, m);
      m := Mix(Mixer(Plus(m.a, WordAt(mem, k)), Plus(m.b, WordAt(mem, k + 4)), Plus(m.c, WordAt(mem, k + 8))));
      k, left := k + BLOCK, left - BLOCK;
    }
    if left == 0 {
      return m.c;
    }
    ReadWords(mem, length, k, m);
    if left > 8 {
      m := Mixer(Plus(m.a, WordAt(mem, k)), Plus(m.b, WordAt(mem, k + 4)), Plus(m.c, Masked(WordAt(mem, k + 8), left - 8)));
    } else if left > 4 {
      m := Mixer(Plus(m.a, WordAt(mem, k)), Plus(m.b, Masked(WordAt(mem, k + 4), left - 4)), m.c);
    } else {
      m := Mixer(Plus(m.a, Masked(WordAt(mem, k), left)), m.b, m.c);
    }
    r := Final(m).c;
  }

  /** A word of a key is what is read from memory, with a mask if its end is past the end of the key. */
  lemma ReadWord(mem: Text, length: nat, i: nat, x: Word)
    requires length <= |mem|
    ensures length >= i + 4 ==> WordAt(mem[..length], i) == WordAt(mem, i)
    ensures i < length < i + 4 ==> WordAt(mem[..length], i) == Masked(WordAt(mem, i), length - i)
    ensures i + 4 == length ==> Masked(WordAt(mem, i), 4) == WordAt(mem, i)
    ensures length <= i ==> Plus(x, WordAt(mem[..length], i)) == x
  {
    hide WordAt, Plus;
    if i < length {
      MaskedIs(mem, i, length);
    } else {
      PastTheEnd(mem[..length], i, x);
    }
  }

  lemma ReadWords(mem: Text, length: nat, k: nat, m: Mixer)
    requires k < length <= |mem|
    ensures length - k >= BLOCK ==>
      AddBlock(m, mem[..length], k) == AddBlock(m, mem, k) && Masked(WordAt(mem, k + 8), 4) == WordAt(mem, k + 8)
    ensures 8 < length - k < BLOCK ==>
      AddBlock(m, mem[..length], k) == Mixer(Plus(m.a, WordAt(mem, k)), Plus(m.b, WordAt(mem, k + 4)), Plus(m.c, Masked(WordAt(mem, k + 8), length - k - 8)))
    ensures 4 < length - k <= 8 ==>
      AddBlock(m, mem[..length], k) == Mixer(Plus(m.a, WordAt(mem, k)), Plus(m.b, Masked(WordAt(mem, k + 4), length - k - 4)), m.c)
    ensures length - k <= 4 ==>
      AddBlock(m, mem[..length], k) == Mixer(Plus(m.a, Masked(WordAt(mem, k), length - k)), m.b, m.c)
  {
    ReadWord(mem, length, k, m.a);
    ReadWord(mem, length, k + 4, m.b);
    ReadWord(mem, length, k + 8, m.c);
    hide WordAt, Plus;
  }

  // ---- Reading by half words and by bytes ----

  /** Two additions in a row are one of the sum, as long as that fits. */
  lemma AddInParts(x: Word, y: nat, z: nat)
    requires y + z < TWO32
    ensures Plus(Plus(x, y), z) == Plus(x, y + z)
  {
  }

  /** A byte shifted by `n` bytes. */
  function Shifted(b: int, n: nat): Word
    requires n <= 3 && 0 <= b < 256
  {
    if n == 0 then b else if n == 1 then 0x100 * b else if n == 2 then 0x1_0000 * b else 0x100_0000 * b
  }

  /** The additions to one of the three values for the last block by half words, with its fall-through. */
  method AddHalves(x: Word, s: Text, i: nat) returns (y: Word)
    ensures y == Plus(x, WordAt(s, i))
  {
    hide Plus;
    var left := if |s| > i then |s| - i else 0;
    y := x;
    if left >= 4 {
      y := Plus(y, HalfAt(s, i) + 0x1_0000 * HalfAt(s, i + 2));
    } else if left >= 2 {
      if left == 3 {
        y := Plus(y, Shifted(s[i + 2], 2));
        AddInParts(x, Shifted(s[i + 2], 2), HalfAt(s, i));
      }
      y := Plus(y, HalfAt(s, i));
    } else if left == 1 {
      y := Plus(y, s[i]);
    } else {
      AddNothing(x);
    }
  }

  lemma AddedUp(x: Word, b0: Byte, b1: Byte, b2: Byte, b3: Byte)
    ensures Plus(Plus(Plus(Plus(x, Shifted(b0, 0)), Shifted(b1, 1)), Shifted(b2, 2)), Shifted(b3, 3)) == Plus(x, LittleEndian(b0, b1, b2, b3))
  {
    hide Plus;
    AddInParts(x, b0, Shifted(b1, 1));
    AddInParts(x, LittleEndian(b0, b1, 0, 0), Shifted(b2, 2));
    AddInParts(x, LittleEndian(b0, b1, b2, 0), Shifted(b3, 3));
  }

  lemma AddedDown(x: Word, b0: Byte, b1: Byte, b2: Byte, b3: Byte)
    ensures Plus(Plus(Plus(Plus(x, Shifted(b3, 3)), Shifted(b2, 2)), Shifted(b1, 1)), Shifted(b0, 0)) == Plus(x, LittleEndian(b0, b1, b2, b3))
  {
    hide Plus;
    AddInParts(x, Shifted(b3, 3), Shifted(b2, 2));
    AddInParts(x, LittleEndian(0, 0, b2, b3), Shifted(b1, 1));
    AddInParts(x, LittleEndian(0, b1, b2, b3), b0);
  }

  /** The additions of a block that is not the last: from the first byte of the word up. */
  method AddBytesUp(x: Word, s: Text, i: nat) returns (y: Word)
    requires i + 4 <= |s|
    ensures y == Plus(x, WordAt(s, i))
  {
    hide Plus;
    AddedUp(x, s[i], s[i + 1], s[i + 2], s[i + 3]);
    y := Plus(x, Shifted(s[i], 0));
    y := Plus(y, Shifted(s[i + 1], 1));
    y := Plus(y, Shifted(s[i + 2], 2));
    y := Plus(y, Shifted(s[i + 3], 3));
  }

  /** The additions of the last block by bytes: from the last byte of the word down. */
  method AddBytesDown(x: Word, s: Text, i: nat) returns (y: Word)
    ensures y == Plus(x, WordAt(s, i))
  {
    hide Plus, LittleEndian;
    AddedDown(x, At(s, i), At(s, i + 1), At(s, i + 2), At(s, i + 3));
    y := x;
    if |s| >= i + 4 { y := Plus(y, Shifted(s[i + 3], 3)); } else { AddNothing(y); }
    if |s| >= i + 3 { y := Plus(y, Shifted(s[i + 2], 2)); } else { AddNothing(y); }
    if |s| >= i + 2 { y := Plus(y, Shifted(s[i + 1], 1)); } else { AddNothing(y); }
    if |s| >= i + 1 { y := Plus(y, Shifted(s[i], 0)); } else { AddNothing(y); }
  }

  /** The path of hashlittle for keys at an even address. */
  method HashHalves(key: Text, initval: Word) returns (r: Word)
    ensures r == Hash(key, initval)
  {
    hide WordAt, HalfAt, Plus, Mix, Final, Start;
    var m := Start(|key|, initval);
    var k: nat := 0;
    while |key| - k > BLOCK
      invariant k <= |key| && Absorbed(m, key, k) == Absorbed(Start(|key|, initval), key, 0)
    {
      var a := AddHalves(m.a, key, k);
      var b := AddHalves(m.b, key, k + 4);
      var c := AddHalves(m.c, key, k + 8);
      m := Mix(Mixer(a, b, c));
      k := k + BLOCK;
    }
    if k == |key| {
      return m.c;
    }
    var c := AddHalves(m.c, key, k + 8);
    var b := AddHalves(m.b, key, k + 4);
    var a := AddHalves(m.a, key, k);
    r := Final(Mixer(a, b, c)).c;
  }

  /** The path of hashlittle for keys at any address. */
  method HashBytes(key: Text, initval: Word) returns (r: Word)
    ensures r == Hash(key, initval)
  {
    hide WordAt, Plus, Mix, Final, Start;
    var m := Start(|key|, initval);
    var k: nat := 0;
    while |key| - k > BLOCK
      invariant k <= |key| && Absorbed(m, key, k) == Absorbed(Start(|key|, initval), key, 0)
    {
      var a := AddBytesUp(m.a, key, k);
      var b := AddBytesUp(m.b, key, k + 4);
      var c := AddBytesUp(m.c, key, k + 8);
      m := Mix(Mixer(a, b, c));
      k := k + BLOCK;
    }
    if k == |key| {
      return m.c;
    }
    var c := AddBytesDown(m.c, key, k + 8);
    var b := AddBytesDown(m.b, key, k + 4);
    var a := AddBytesDown(m.a, key, k);
    r := Final(Mixer(a, b, c)).c;
  }

  /**
   hashlittle on a little-endian machine: the hash depends on the bytes of the key, and neither on
   where the key is nor on what follows it.
   */
  method HashLittle(address: nat, mem: Text, length: nat, initval: Word) returns (r: Word)
    requires length <= |mem| && (address % 4 == 0 ==> |mem| % 4 == 0)
    ensures r == Hash(mem[..length], initval)
  {
    if address % 4 == 0 {
      r := HashWords(mem, length, initval);
    } else if address % 2 == 0 {
      r := HashHalves(mem[..length], initval);
    } else {
      r := HashBytes(mem[..length], initval);
    }
  }

  lemma SameBytes(s: Text, t: Text, i: nat)
    requires WordAt(s, i) == WordAt(t, i)
    ensures At(s, i) == At(t, i) && At(s, i + 1) == At(t, i + 1) && At(s, i + 2) == At(t, i + 2) && At(s, i + 3) == At(t, i + 3)
  {
    SameDigits(At(s, i), At(s, i + 1), At(s, i + 2), At(s, i + 3), At(t, i), At(t, i + 1), At(t, i + 2), At(t, i + 3));
  }

  lemma SameDigits(a0: Byte, a1: Byte, a2: Byte, a3: Byte, b0: Byte, b1: Byte, b2: Byte, b3: Byte)
    requires LittleEndian(a0, a1, a2, a3) == LittleEndian(b0, b1, b2, b3)
    ensures a0 == b0 && a1 == b1 && a2 == b2 && a3 == b3
  {
    LowDigit(a0, LittleEndian(a1, a2, a3, 0), b0, LittleEndian(b1, b2, b3, 0));
    LowDigit(a1, LittleEndian(a2, a3, 0, 0), b1, LittleEndian(b2, b3, 0, 0));
    LowDigit(a2, a3, b2, b3);
  }

  lemma LowDigit(a: Byte, x: int, b: Byte, y: int)
    requires a + 0x100 * x == b + 0x100 * y
    ensures a == b && x == y
  {
  }

  lemma SameAddend(x: Word, y: Word, z: Word)
    requires Plus(x, y) == Plus(x, z)
    ensures y == z
  {
  }

  /** The three values of the mixer tell keys of one block and the same length apart: nothing is lost before one of them is returned. */
  lemma ShortKeysDiffer(key: Text, other: Text, initval: Word)
    requires |key| == |other| && 0 < |key| <= BLOCK && key != other
    ensures Absorbed(Start(|key|, initval), key, 0) != Absorbed(Start(|other|, initval), other, 0)
  {
    hide Final, Unfinal, Plus, WordAt, Start;
    var m := Start(|key|, initval);
    var x, y := AddBlock(m, key, 0), AddBlock(m, other, 0);
    FinalIsReversible(x);
    FinalIsReversible(y);
    if x == y {
      SameAddend(m.a, WordAt(key, 0), WordAt(other, 0));
      SameAddend(m.b, WordAt(key, 4), WordAt(other, 4));
      SameAddend(m.c, WordAt(key, 8), WordAt(other, 8));
      SameBytes(key, other, 0);
      SameBytes(key, other, 4);
      SameBytes(key, other, 8);
      assert forall i :: 0 <= i < |key| ==> At(key, i) == key[i] && At(other, i) == other[i];
      assert forall i :: 0 <= i < |key| ==> key[i] == other[i];
      assert false;
    }
  }
}
