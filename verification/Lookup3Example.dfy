/** The hash of a sentence of thirty letters, row by row. */
module Lookup3Example {
  import opened Bytes
  import opened Lookup3

  /** Four score and seven years ago */
  const SENTENCE: Text :=
    [0x46, 0x6f, 0x75, 0x72, 0x20, 0x73, 0x63, 0x6f, 0x72, 0x65, 0x20, 0x61, 0x6e, 0x64, 0x20,
     0x73, 0x65, 0x76, 0x65, 0x6e, 0x20, 0x79, 0x65, 0x61, 0x72, 0x73, 0x20, 0x61, 0x67, 0x6f]

  // ---- How the operations are computed ----

  lemma {:induction false} PowersMultiply(a: nat, b: nat)
    ensures Power2(a) * Power2(b) == Power2(a + b)
  {
    if a > 0 {
      PowersMultiply(a - 1, b);
      assert Power2(a) * Power2(b) == 2 * (Power2(a - 1) * Power2(b));
    }
  }

  /** The factors that the upper and the lower bits of a word are moved by. */
  lemma Factors(k: nat)
    requires k <= 32
    ensures k == 0 ==> Power2(32 - k) == TWO32 && Power2(k) == 1
    ensures k > 0 ==> Power2(32 - k) * Power2(k - 1) == 0x8000_0000 && Power2(k) == 2 * Power2(k - 1)
    ensures k > 0 ==> Power2(33 - k) == 2 * Power2(32 - k)
  {
    WordBits();
    if k > 0 {
      PowersMultiply(32 - k, k - 1);
    }
  }

  function Times(x: nat, y: nat): nat {
    x * y
  }

  /** A word turned by `k` bits: its upper `k` bits behind the others. */
  lemma {:induction false} RotIs(x: Word, k: nat, p: nat, q: nat, hi: nat, lo: nat)
    requires k <= 32 && p == Power2(32 - k) && q == Power2(k) && lo < p && x == Times(hi, p) + lo
    ensures Rot(x, k) == Times(lo, q) + hi
  {
    Factors(k);
    hide Rot, Power2, Times;
    if k == 0 {
      NoTurn(x, hi, lo);
    } else {
      var h, b := hi / 2, hi % 2;
      var lower := if b == 0 then lo else p + lo;
      UpperBits(p, h, b, lo);
      RotIs(x, k - 1, 2 * p, Power2(k - 1), h, lower);
      TurnFurther(x, k, p, Power2(k - 1), h, b, lo);
    }
  }

  lemma TurnFurther(x: Word, k: nat, p: nat, q: nat, h: nat, b: nat, lo: nat)
    requires k > 0 && p * q == 0x8000_0000 && lo < p && b < 2 && x == Times(2 * h + b, p) + lo
    requires Rot(x, k - 1) == Times(if b == 0 then lo else p + lo, q) + h
    ensures Rot(x, k) == Times(lo, 2 * q) + (2 * h + b)
  {
    hide Times;
    TurnOnce(p, q, h, b, lo);
  }

  lemma NoTurn(x: Word, hi: nat, lo: nat)
    requires x == Times(hi, TWO32) + lo
    ensures Rot(x, 0) == Times(lo, 1) + hi
  {
  }

  lemma UpperBits(p: nat, h: nat, b: nat, lo: nat)
    requires b < 2 && lo < p
    ensures Times(2 * h + b, p) + lo == Times(h, 2 * p) + if b == 0 then lo else p + lo
  {
    assert (2 * h + b) * p == h * (2 * p) + b * p;
  }

  lemma TurnOnce(p: nat, q: nat, h: nat, b: nat, lo: nat)
    requires p * q == 0x8000_0000 && lo < p && b < 2 && Times(2 * h + b, p) + lo < TWO32
    ensures var y := Times(if b == 0 then lo else p + lo, q) + h;
      2 * y % TWO32 + y / 0x8000_0000 == Times(lo, 2 * q) + (2 * h + b)
  {
    LowIsSmall(p, q, h, b, lo);
    assert lo * (2 * q) == 2 * (lo * q);
    assert (p + lo) * q == p * q + lo * q;
  }

  lemma LowIsSmall(p: nat, q: nat, h: nat, b: nat, lo: nat)
    requires p * q == 0x8000_0000 && lo < p && Times(2 * h + b, p) + lo < TWO32
    ensures lo * q + h < 0x8000_0000
  {
    Larger(q, lo + 1, p);
    assert (2 * h + b) * p == 2 * (h * p) + b * p;
    if h >= q {
      Larger(p, q, h);
      assert false;
    }
  }

  lemma Larger(p: nat, q: nat, r: nat)
    requires q <= r
    ensures q * p <= r * p
  {
  }

  lemma XorBit(x: nat, y: nat, n: nat)
    requires n > 0
    ensures XorBits(x, y, n) == 2 * XorBits(x / 2, y / 2, n - 1) + (x % 2 + y % 2) % 2
  {
    hide Power2;
  }

  /** The lowest `n` bits of two numbers differ where those of the third are ones. */
  ghost predicate Apart(x: nat, y: nat, n: nat, z: nat) {
    XorBits(x, y, n) == z
  }

  lemma BitBehind(x: nat, y: nat, n: nat, z: nat, a: bool, b: bool)
    requires Apart(x, y, n, z)
    ensures Apart(2 * x + Bit(a), 2 * y + Bit(b), n + 1, 2 * z + Bit(a != b))
  {
    hide XorBits;
    XorBit(2 * x + Bit(a), 2 * y + Bit(b), n + 1);
  }

  function Bit(b: bool): nat {
    if b then 1 else 0
  }

  function TwoBits(b1: bool, b0: bool): nat {
    2 * Bit(b1) + Bit(b0)
  }

  function Digit(b3: bool, b2: bool, b1: bool, b0: bool): nat {
    4 * TwoBits(b3, b2) + TwoBits(b1, b0)
  }

  lemma TwoBitsBehind(x: nat, y: nat, n: nat, z: nat, a1: bool, a0: bool, b1: bool, b0: bool)
    requires Apart(x, y, n, z)
    ensures Apart(4 * x + TwoBits(a1, a0), 4 * y + TwoBits(b1, b0), n + 2, 4 * z + TwoBits(a1 != b1, a0 != b0))
  {
    hide Apart, Bit;
    BitBehind(x, y, n, z, a1, b1);
    BitBehind(2 * x + Bit(a1), 2 * y + Bit(b1), n + 1, 2 * z + Bit(a1 != b1), a0, b0);
  }

  lemma DigitBehind(x: nat, y: nat, n: nat, z: nat, a3: bool, a2: bool, a1: bool, a0: bool, b3: bool, b2: bool, b1: bool, b0: bool)
    requires Apart(x, y, n, z)
    ensures Apart(16 * x + Digit(a3, a2, a1, a0), 16 * y + Digit(b3, b2, b1, b0), n + 4,
              16 * z + Digit(a3 != b3, a2 != b2, a1 != b1, a0 != b0))
  {
    hide Apart, TwoBits;
    TwoBitsBehind(x, y, n, z, a3, a2, b3, b2);
    TwoBitsBehind(4 * x + TwoBits(a3, a2), 4 * y + TwoBits(b3, b2), n + 2, 4 * z + TwoBits(a3 != b3, a2 != b2), a1, a0, b1, b0);
  }

  lemma Digits()
    ensures Digit(false, false, false, false) == 0 && Digit(false, false, false, true) == 1
    ensures Digit(false, false, true, false) == 2 && Digit(false, false, true, true) == 3
    ensures Digit(false, true, false, false) == 4 && Digit(false, true, false, true) == 5
    ensures Digit(false, true, true, false) == 6 && Digit(false, true, true, true) == 7
    ensures Digit(true, false, false, false) == 8 && Digit(true, false, false, true) == 9
    ensures Digit(true, false, true, false) == 10 && Digit(true, false, true, true) == 11
    ensures Digit(true, true, false, false) == 12 && Digit(true, true, false, true) == 13
    ensures Digit(true, true, true, false) == 14 && Digit(true, true, true, true) == 15
  {
  }

  lemma NoBits()
    ensures Apart(0, 0, 0, 0)
  {
  }

  lemma AllBits(x: Word, y: Word, z: Word)
    requires Apart(x, y, 32, z)
    ensures Xor(x, y) == z
  {
    hide XorBits;
  }

  // ---- The rows ----

  lemma Powers()
    ensures Power2(4) == 0x10
    ensures Power2(6) == 0x40
    ensures Power2(7) == 0x80
    ensures Power2(8) == 0x100
    ensures Power2(11) == 0x800
    ensures Power2(13) == 0x2000
    ensures Power2(14) == 0x4000
    ensures Power2(16) == 0x10000
    ensures Power2(18) == 0x40000
    ensures Power2(19) == 0x80000
    ensures Power2(21) == 0x200000
    ensures Power2(24) == 0x1000000
    ensures Power2(25) == 0x2000000
    ensures Power2(26) == 0x4000000
    ensures Power2(28) == 0x10000000
  {
    assert Power2(0) == 1;
    hide Power2;
    Raised(0, 0x1);
    Raised(1, 0x2);
    Raised(2, 0x4);
    Raised(3, 0x8);
    Raised(4, 0x10);
    Raised(5, 0x20);
    Raised(6, 0x40);
    Raised(7, 0x80);
    Raised(8, 0x100);
    Raised(9, 0x200);
    Raised(10, 0x400);
    Raised(11, 0x800);
    Raised(12, 0x1000);
    Raised(13, 0x2000);
    Raised(14, 0x4000);
    Raised(15, 0x8000);
    Raised(16, 0x10000);
    Raised(17, 0x20000);
    Raised(18, 0x40000);
    Raised(19, 0x80000);
    Raised(20, 0x100000);
    Raised(21, 0x200000);
    Raised(22, 0x400000);
    Raised(23, 0x800000);
    Raised(24, 0x1000000);
    Raised(25, 0x2000000);
    Raised(26, 0x4000000);
    Raised(27, 0x8000000);
  }

  lemma Raised(k: nat, p: nat)
    requires Power2(k) == p
    ensures Power2(k + 1) == 2 * p
  {
  }

  lemma Swept(x: Word, y: Word, z: Word, k: nat, d: Word, t: Word, x1: Word, z1: Word)
    requires Minus(x, z) == d && Rot(z, k) == t && Xor(d, t) == x1 && Plus(z, y) == z1
    ensures Sweep(x, y, z, k) == (x1, z1)
  {
    hide Minus, Plus, Rot, Xor;
  }

  lemma Stirred(x: Word, y: Word, k: nat, d: Word, t: Word, x1: Word)
    requires Xor(x, y) == d && Rot(y, k) == t && Minus(d, t) == x1
    ensures Stir(x, y, k) == x1
  {
    hide Minus, Rot, Xor;
  }

  lemma Differ0()
    ensures Apart(0x115509d4, 0xfce247f3, 32, 0xedb74e27)
  {
    NoBits();
    Digits();
    hide Apart, Digit;
    DigitBehind(0x0, 0x0, 0, 0x0, false, false, false, true, true, true, true, true);
    DigitBehind(0x1, 0xf, 4, 0xe, false, false, false, true, true, true, false, false);
    DigitBehind(0x11, 0xfc, 8, 0xed, false, true, false, true, true, true, true, false);
    DigitBehind(0x115, 0xfce, 12, 0xedb, false, true, false, true, false, false, true, false);
    DigitBehind(0x1155, 0xfce2, 16, 0xedb7, false, false, false, false, false, true, false, false);
    DigitBehind(0x11550, 0xfce24, 20, 0xedb74, true, false, false, true, false, true, true, true);
    DigitBehind(0x115509, 0xfce247, 24, 0xedb74e, true, true, false, true, true, true, true, true);
    DigitBehind(0x115509d, 0xfce247f, 28, 0xedb74e2, false, true, false, false, false, false, true, true);
  }

  lemma Row0()
    ensures Sweep(0x51232e53, 0x4e11322d, 0x3fce247f, 4) == (0xedb74e27, 0x8ddf56ac)
  {
    Powers();
    Differ0();
    hide Power2, Rot, Xor, Apart;
    AllBits(0x115509d4, 0xfce247f3, 0xedb74e27);
    RotIs(0x3fce247f, 4, 0x10000000, 0x10, 0x3, 0xfce247f);
    Swept(0x51232e53, 0x4e11322d, 0x3fce247f, 4, 0x115509d4, 0xfce247f3, 0xedb74e27, 0x8ddf56ac);
  }

  lemma Differ1()
    ensures Apart(0x6059e406, 0x6dd389fb, 32, 0x0d8a6dfd)
  {
    NoBits();
    Digits();
    hide Apart, Digit;
    DigitBehind(0x0, 0x0, 0, 0x0, false, true, true, false, false, true, true, false);
    DigitBehind(0x6, 0x6, 4, 0x0, false, false, false, false, true, true, false, true);
    DigitBehind(0x60, 0x6d, 8, 0xd, false, true, false, true, true, true, false, true);
    DigitBehind(0x605, 0x6dd, 12, 0xd8, true, false, false, true, false, false, true, true);
    DigitBehind(0x6059, 0x6dd3, 16, 0xd8a, true, true, true, false, true, false, false, false);
    DigitBehind(0x6059e, 0x6dd38, 20, 0xd8a6, false, true, false, false, true, false, false, true);
    DigitBehind(0x6059e4, 0x6dd389, 24, 0xd8a6d, false, false, false, false, true, true, true, true);
    DigitBehind(0x6059e40, 0x6dd389f, 28, 0xd8a6df, false, true, true, false, true, false, true, true);
  }

  lemma Row1()
    ensures Sweep(0x4e11322d, 0x8ddf56ac, 0xedb74e27, 6) == (0x0d8a6dfd, 0x7b96a4d3)
  {
    Powers();
    Differ1();
    hide Power2, Rot, Xor, Apart;
    AllBits(0x6059e406, 0x6dd389fb, 0x0d8a6dfd);
    RotIs(0xedb74e27, 6, 0x4000000, 0x40, 0x3b, 0x1b74e27);
    Swept(0x4e11322d, 0x8ddf56ac, 0xedb74e27, 6, 0x6059e406, 0x6dd389fb, 0x0d8a6dfd, 0x7b96a4d3);
  }

  lemma Differ2()
    ensures Apart(0x8054e8af, 0x8a6dfd0d, 32, 0x0a3915a2)
  {
    NoBits();
    Digits();
    hide Apart, Digit;
    DigitBehind(0x0, 0x0, 0, 0x0, true, false, false, false, true, false, false, false);
    DigitBehind(0x8, 0x8, 4, 0x0, false, false, false, false, true, false, true, false);
    DigitBehind(0x80, 0x8a, 8, 0xa, false, true, false, true, false, true, true, false);
    DigitBehind(0x805, 0x8a6, 12, 0xa3, false, true, false, false, true, true, false, true);
    DigitBehind(0x8054, 0x8a6d, 16, 0xa39, true, true, true, false, true, true, true, true);
    DigitBehind(0x8054e, 0x8a6df, 20, 0xa391, true, false, false, false, true, true, false, true);
    DigitBehind(0x8054e8, 0x8a6dfd, 24, 0xa3915, true, false, true, false, false, false, false, false);
    DigitBehind(0x8054e8a, 0x8a6dfd0, 28, 0xa3915a, true, true, true, true, true, true, false, true);
  }

  lemma Row2()
    ensures Sweep(0x8ddf56ac, 0x7b96a4d3, 0x0d8a6dfd, 8) == (0x0a3915a2, 0x892112d0)
  {
    Powers();
    Differ2();
    hide Power2, Rot, Xor, Apart;
    AllBits(0x8054e8af, 0x8a6dfd0d, 0x0a3915a2);
    RotIs(0x0d8a6dfd, 8, 0x1000000, 0x100, 0xd, 0x8a6dfd);
    Swept(0x8ddf56ac, 0x7b96a4d3, 0x0d8a6dfd, 8, 0x8054e8af, 0x8a6dfd0d, 0x0a3915a2, 0x892112d0);
  }

  lemma Differ3()
    ensures Apart(0x715d8f31, 0x15a20a39, 32, 0x64ff8508)
  {
    NoBits();
    Digits();
    hide Apart, Digit;
    DigitBehind(0x0, 0x0, 0, 0x0, false, true, true, true, false, false, false, true);
    DigitBehind(0x7, 0x1, 4, 0x6, false, false, false, true, false, true, false, true);
    DigitBehind(0x71, 0x15, 8, 0x64, false, true, false, true, true, false, true, false);
    DigitBehind(0x715, 0x15a, 12, 0x64f, true, true, false, true, false, false, true, false);
    DigitBehind(0x715d, 0x15a2, 16, 0x64ff, true, false, false, false, false, false, false, false);
    DigitBehind(0x715d8, 0x15a20, 20, 0x64ff8, true, true, true, true, true, false, true, false);
    DigitBehind(0x715d8f, 0x15a20a, 24, 0x64ff85, false, false, true, true, false, false, true, true);
    DigitBehind(0x715d8f3, 0x15a20a3, 28, 0x64ff850, false, false, false, true, true, false, false, true);
  }

  lemma Row3()
    ensures Sweep(0x7b96a4d3, 0x892112d0, 0x0a3915a2, 16) == (0x64ff8508, 0x935a2872)
  {
    Powers();
    Differ3();
    hide Power2, Rot, Xor, Apart;
    AllBits(0x715d8f31, 0x15a20a39, 0x64ff8508);
    RotIs(0x0a3915a2, 16, 0x10000, 0x10000, 0xa39, 0x15a2);
    Swept(0x7b96a4d3, 0x892112d0, 0x0a3915a2, 16, 0x715d8f31, 0x15a20a39, 0x64ff8508, 0x935a2872);
  }

  lemma Differ4()
    ensures Apart(0x24218dc8, 0x284327fc, 32, 0x0c62aa34)
  {
    NoBits();
    Digits();
    hide Apart, Digit;
    DigitBehind(0x0, 0x0, 0, 0x0, false, false, true, false, false, false, true, false);
    DigitBehind(0x2, 0x2, 4, 0x0, false, true, false, false, true, false, false, false);
    DigitBehind(0x24, 0x28, 8, 0xc, false, false, true, false, false, true, false, false);
    DigitBehind(0x242, 0x284, 12, 0xc6, false, false, false, true, false, false, true, true);
    DigitBehind(0x2421, 0x2843, 16, 0xc62, true, false, false, false, false, false, true, false);
    DigitBehind(0x24218, 0x28432, 20, 0xc62a, true, true, false, true, false, true, true, true);
    DigitBehind(0x24218d, 0x284327, 24, 0xc62aa, true, true, false, false, true, true, true, true);
    DigitBehind(0x24218dc, 0x284327f, 28, 0xc62aa3, true, false, false, false, true, true, false, false);
  }

  lemma Row4()
    ensures Sweep(0x892112d0, 0x935a2872, 0x64ff8508, 19) == (0x0c62aa34, 0xf859ad7a)
  {
    Powers();
    Differ4();
    hide Power2, Rot, Xor, Apart;
    AllBits(0x24218dc8, 0x284327fc, 0x0c62aa34);
    RotIs(0x64ff8508, 19, 0x2000, 0x80000, 0x327fc, 0x508);
    Swept(0x892112d0, 0x935a2872, 0x64ff8508, 19, 0x24218dc8, 0x284327fc, 0x0c62aa34, 0xf859ad7a);
  }

  lemma Differ5()
    ensures Apart(0x86f77e3e, 0xc62aa340, 32, 0x40dddd7e)
  {
    NoBits();
    Digits();
    hide Apart, Digit;
    DigitBehind(0x0, 0x0, 0, 0x0, true, false, false, false, true, true, false, false);
    DigitBehind(0x8, 0xc, 4, 0x4, false, true, true, false, false, true, true, false);
    DigitBehind(0x86, 0xc6, 8, 0x40, true, true, true, true, false, false, true, false);
    DigitBehind(0x86f, 0xc62, 12, 0x40d, false, true, true, true, true, false, true, false);
    DigitBehind(0x86f7, 0xc62a, 16, 0x40dd, false, true, true, true, true, false, true, false);
    DigitBehind(0x86f77, 0xc62aa, 20, 0x40ddd, true, true, true, false, false, false, true, true);
    DigitBehind(0x86f77e, 0xc62aa3, 24, 0x40dddd, false, false, true, true, false, true, false, false);
    DigitBehind(0x86f77e3, 0xc62aa34, 28, 0x40dddd7, true, true, true, false, false, false, false, false);
  }

  lemma Row5()
    ensures Sweep(0x935a2872, 0xf859ad7a, 0x0c62aa34, 4) == (0x40dddd7e, 0x04bc57ae)
  {
    Powers();
    Differ5();
    hide Power2, Rot, Xor, Apart;
    AllBits(0x86f77e3e, 0xc62aa340, 0x40dddd7e);
    RotIs(0x0c62aa34, 4, 0x10000000, 0x10, 0x0, 0xc62aa34);
    Swept(0x935a2872, 0xf859ad7a, 0x0c62aa34, 4, 0x86f77e3e, 0xc62aa340, 0x40dddd7e, 0x04bc57ae);
  }

  lemma Mixed0()
    ensures Mix(Mixer(0x51232e53, 0x4e11322d, 0x3fce247f)) == Mixer(0xf859ad7a, 0x04bc57ae, 0x40dddd7e)
  {
    hide Sweep;
    Row0();
    Row1();
    Row2();
    Row3();
    Row4();
    Row5();
  }

  lemma Differ6()
    ensures Apart(0xc936bb4a, 0x243569ea, 32, 0xed03d2a0)
  {
    NoBits();
    Digits();
    hide Apart, Digit;
    DigitBehind(0x0, 0x0, 0, 0x0, true, true, false, false, false, false, true, false);
    DigitBehind(0xc, 0x2, 4, 0xe, true, false, false, true, false, true, false, false);
    DigitBehind(0xc9, 0x24, 8, 0xed, false, false, true, true, false, false, true, true);
    DigitBehind(0xc93, 0x243, 12, 0xed0, false, true, true, false, false, true, false, true);
    DigitBehind(0xc936, 0x2435, 16, 0xed03, true, false, true, true, false, true, true, false);
    DigitBehind(0xc936b, 0x24356, 20, 0xed03d, true, false, true, true, true, false, false, true);
    DigitBehind(0xc936bb, 0x243569, 24, 0xed03d2, false, true, false, false, true, true, true, false);
    DigitBehind(0xc936bb4, 0x243569e, 28, 0xed03d2a, true, false, true, false, true, false, true, false);
  }

  lemma Row6()
    ensures Sweep(0x6b7a11e8, 0x7321ce13, 0xa243569e, 4) == (0xed03d2a0, 0x156524b1)
  {
    Powers();
    Differ6();
    hide Power2, Rot, Xor, Apart;
    AllBits(0xc936bb4a, 0x243569ea, 0xed03d2a0);
    RotIs(0xa243569e, 4, 0x10000000, 0x10, 0xa, 0x243569e);
    Swept(0x6b7a11e8, 0x7321ce13, 0xa243569e, 4, 0xc936bb4a, 0x243569ea, 0xed03d2a0, 0x156524b1);
  }

  lemma Differ7()
    ensures Apart(0x861dfb73, 0x40f4a83b, 32, 0xc6e95348)
  {
    NoBits();
    Digits();
    hide Apart, Digit;
    DigitBehind(0x0, 0x0, 0, 0x0, true, false, false, false, false, true, false, false);
    DigitBehind(0x8, 0x4, 4, 0xc, false, true, true, false, false, false, false, false);
    DigitBehind(0x86, 0x40, 8, 0xc6, false, false, false, true, true, true, true, true);
    DigitBehind(0x861, 0x40f, 12, 0xc6e, true, true, false, true, false, true, false, false);
    DigitBehind(0x861d, 0x40f4, 16, 0xc6e9, true, true, true, true, true, false, true, false);
    DigitBehind(0x861df, 0x40f4a, 20, 0xc6e95, true, false, true, true, true, false, false, false);
    DigitBehind(0x861dfb, 0x40f4a8, 24, 0xc6e953, false, true, true, true, false, false, true, true);
    DigitBehind(0x861dfb7, 0x40f4a83, 28, 0xc6e9534, false, false, true, true, true, false, true, true);
  }

  lemma Row7()
    ensures Sweep(0x7321ce13, 0x156524b1, 0xed03d2a0, 6) == (0xc6e95348, 0x0268f751)
  {
    Powers();
    Differ7();
    hide Power2, Rot, Xor, Apart;
    AllBits(0x861dfb73, 0x40f4a83b, 0xc6e95348);
    RotIs(0xed03d2a0, 6, 0x4000000, 0x40, 0x3b, 0x103d2a0);
    Swept(0x7321ce13, 0x156524b1, 0xed03d2a0, 6, 0x861dfb73, 0x40f4a83b, 0xc6e95348, 0x0268f751);
  }

  lemma Differ8()
    ensures Apart(0x4e7bd169, 0xe95348c6, 32, 0xa72899af)
  {
    NoBits();
    Digits();
    hide Apart, Digit;
    DigitBehind(0x0, 0x0, 0, 0x0, false, true, false, false, true, true, true, false);
    DigitBehind(0x4, 0xe, 4, 0xa, true, true, true, false, true, false, false, true);
    DigitBehind(0x4e, 0xe9, 8, 0xa7, false, true, true, true, false, true, false, true);
    DigitBehind(0x4e7, 0xe95, 12, 0xa72, true, false, true, true, false, false, true, true);
    DigitBehind(0x4e7b, 0xe953, 16, 0xa728, true, true, false, true, false, true, false, false);
    DigitBehind(0x4e7bd, 0xe9534, 20, 0xa7289, false, false, false, true, true, false, false, false);
    DigitBehind(0x4e7bd1, 0xe95348, 24, 0xa72899, false, true, true, false, true, true, false, false);
    DigitBehind(0x4e7bd16, 0xe95348c, 28, 0xa72899a, true, false, false, true, false, true, true, false);
  }

  lemma Row8()
    ensures Sweep(0x156524b1, 0x0268f751, 0xc6e95348, 8) == (0xa72899af, 0xc9524a99)
  {
    Powers();
    Differ8();
    hide Power2, Rot, Xor, Apart;
    AllBits(0x4e7bd169, 0xe95348c6, 0xa72899af);
    RotIs(0xc6e95348, 8, 0x1000000, 0x100, 0xc6, 0xe95348);
    Swept(0x156524b1, 0x0268f751, 0xc6e95348, 8, 0x4e7bd169, 0xe95348c6, 0xa72899af, 0xc9524a99);
  }

  lemma Differ9()
    ensures Apart(0x5b405da2, 0x99afa728, 32, 0xc2effa8a)
  {
    NoBits();
    Digits();
    hide Apart, Digit;
    DigitBehind(0x0, 0x0, 0, 0x0, false, true, false, true, true, false, false, true);
    DigitBehind(0x5, 0x9, 4, 0xc, true, false, true, true, true, false, false, true);
    DigitBehind(0x5b, 0x99, 8, 0xc2, false, true, false, false, true, false, true, false);
    DigitBehind(0x5b4, 0x99a, 12, 0xc2e, false, false, false, false, true, true, true, true);
    DigitBehind(0x5b40, 0x99af, 16, 0xc2ef, false, true, false, true, true, false, true, false);
    DigitBehind(0x5b405, 0x99afa, 20, 0xc2eff, true, true, false, true, false, true, true, true);
    DigitBehind(0x5b405d, 0x99afa7, 24, 0xc2effa, true, false, true, false, false, false, true, false);
    DigitBehind(0x5b405da, 0x99afa72, 28, 0xc2effa8, false, false, true, false, true, false, false, false);
  }

  lemma Row9()
    ensures Sweep(0x0268f751, 0xc9524a99, 0xa72899af, 16) == (0xc2effa8a, 0x707ae448)
  {
    Powers();
    Differ9();
    hide Power2, Rot, Xor, Apart;
    AllBits(0x5b405da2, 0x99afa728, 0xc2effa8a);
    RotIs(0xa72899af, 16, 0x10000, 0x10000, 0xa728, 0x99af);
    Swept(0x0268f751, 0xc9524a99, 0xa72899af, 16, 0x5b405da2, 0x99afa728, 0xc2effa8a, 0x707ae448);
  }

  lemma Differ10()
    ensures Apart(0x0662500f, 0xd456177f, 32, 0xd2344770)
  {
    NoBits();
    Digits();
    hide Apart, Digit;
    DigitBehind(0x0, 0x0, 0, 0x0, false, false, false, false, true, true, false, true);
    DigitBehind(0x0, 0xd, 4, 0xd, false, true, true, false, false, true, false, false);
    DigitBehind(0x6, 0xd4, 8, 0xd2, false, true, true, false, false, true, false, true);
    DigitBehind(0x66, 0xd45, 12, 0xd23, false, false, true, false, false, true, true, false);
    DigitBehind(0x662, 0xd456, 16, 0xd234, false, true, false, true, false, false, false, true);
    DigitBehind(0x6625, 0xd4561, 20, 0xd2344, false, false, false, false, false, true, true, true);
    DigitBehind(0x66250, 0xd45617, 24, 0xd23447, false, false, false, false, false, true, true, true);
    DigitBehind(0x662500, 0xd456177, 28, 0xd234477, true, true, true, true, true, true, true, true);
  }

  lemma Row10()
    ensures Sweep(0xc9524a99, 0x707ae448, 0xc2effa8a, 19) == (0xd2344770, 0x336aded2)
  {
    Powers();
    Differ10();
    hide Power2, Rot, Xor, Apart;
    AllBits(0x0662500f, 0xd456177f, 0xd2344770);
    RotIs(0xc2effa8a, 19, 0x2000, 0x80000, 0x6177f, 0x1a8a);
    Swept(0xc9524a99, 0x707ae448, 0xc2effa8a, 19, 0x0662500f, 0xd456177f, 0xd2344770, 0x336aded2);
  }

  lemma Differ11()
    ensures Apart(0x9e469cd8, 0x2344770d, 32, 0xbd02ebd5)
  {
    NoBits();
    Digits();
    hide Apart, Digit;
    DigitBehind(0x0, 0x0, 0, 0x0, true, false, false, true, false, false, true, false);
    DigitBehind(0x9, 0x2, 4, 0xb, true, true, true, false, false, false, true, true);
    DigitBehind(0x9e, 0x23, 8, 0xbd, false, true, false, false, false, true, false, false);
    DigitBehind(0x9e4, 0x234, 12, 0xbd0, false, true, true, false, false, true, false, false);
    DigitBehind(0x9e46, 0x2344, 16, 0xbd02, true, false, false, true, false, true, true, true);
    DigitBehind(0x9e469, 0x23447, 20, 0xbd02e, true, true, false, false, false, true, true, true);
    DigitBehind(0x9e469c, 0x234477, 24, 0xbd02eb, true, true, false, true, false, false, false, false);
    DigitBehind(0x9e469cd, 0x2344770, 28, 0xbd02ebd, true, false, false, false, true, true, false, true);
  }

  lemma Row11()
    ensures Sweep(0x707ae448, 0x336aded2, 0xd2344770, 4) == (0xbd02ebd5, 0x059f2642)
  {
    Powers();
    Differ11();
    hide Power2, Rot, Xor, Apart;
    AllBits(0x9e469cd8, 0x2344770d, 0xbd02ebd5);
    RotIs(0xd2344770, 4, 0x10000000, 0x10, 0xd, 0x2344770);
    Swept(0x707ae448, 0x336aded2, 0xd2344770, 4, 0x9e469cd8, 0x2344770d, 0xbd02ebd5, 0x059f2642);
  }

  lemma Mixed1()
    ensures Mix(Mixer(0x6b7a11e8, 0x7321ce13, 0xa243569e)) == Mixer(0x336aded2, 0x059f2642, 0xbd02ebd5)
  {
    hide Sweep;
    Row6();
    Row7();
    Row8();
    Row9();
    Row10();
    Row11();
  }

  lemma Differ12()
    ensures Apart(0xbd02ebd5, 0x059f95a9, 32, 0xb89d7e7c)
  {
    NoBits();
    Digits();
    hide Apart, Digit;
    DigitBehind(0x0, 0x0, 0, 0x0, true, false, true, true, false, false, false, false);
    DigitBehind(0xb, 0x0, 4, 0xb, true, true, false, true, false, true, false, true);
    DigitBehind(0xbd, 0x5, 8, 0xb8, false, false, false, false, true, false, false, true);
    DigitBehind(0xbd0, 0x59, 12, 0xb89, false, false, true, false, true, true, true, true);
    DigitBehind(0xbd02, 0x59f, 16, 0xb89d, true, true, true, false, true, false, false, true);
    DigitBehind(0xbd02e, 0x59f9, 20, 0xb89d7, true, false, true, true, false, true, false, true);
    DigitBehind(0xbd02eb, 0x59f95, 24, 0xb89d7e, true, true, false, true, true, false, true, false);
    DigitBehind(0xbd02ebd, 0x59f95a, 28, 0xb89d7e7, false, true, false, true, true, false, false, true);
  }

  lemma Row12()
    ensures Stir(0xbd02ebd5, 0x059f95a9, 14) == 0xd3333d15
  {
    Powers();
    Differ12();
    hide Power2, Rot, Xor, Apart;
    AllBits(0xbd02ebd5, 0x059f95a9, 0xb89d7e7c);
    RotIs(0x059f95a9, 14, 0x40000, 0x4000, 0x167, 0x395a9);
    Stirred(0xbd02ebd5, 0x059f95a9, 14, 0xb89d7e7c, 0xe56a4167, 0xd3333d15);
  }

  lemma Differ13()
    ensures Apart(0x948b5244, 0xd3333d15, 32, 0x47b86f51)
  {
    NoBits();
    Digits();
    hide Apart, Digit;
    DigitBehind(0x0, 0x0, 0, 0x0, true, false, false, true, true, true, false, true);
    DigitBehind(0x9, 0xd, 4, 0x4, false, true, false, false, false, false, true, true);
    DigitBehind(0x94, 0xd3, 8, 0x47, true, false, false, false, false, false, true, true);
    DigitBehind(0x948, 0xd33, 12, 0x47b, true, false, true, true, false, false, true, true);
    DigitBehind(0x948b, 0xd333, 16, 0x47b8, false, true, false, true, false, false, true, true);
    DigitBehind(0x948b5, 0xd3333, 20, 0x47b86, false, false, true, false, true, true, false, true);
    DigitBehind(0x948b52, 0xd3333d, 24, 0x47b86f, false, true, false, false, false, false, false, true);
    DigitBehind(0x948b524, 0xd3333d1, 28, 0x47b86f5, false, true, false, false, false, true, false, true);
  }

  lemma Row13()
    ensures Stir(0x948b5244, 0xd3333d15, 11) == 0xadcfc0b8
  {
    Powers();
    Differ13();
    hide Power2, Rot, Xor, Apart;
    AllBits(0x948b5244, 0xd3333d15, 0x47b86f51);
    RotIs(0xd3333d15, 11, 0x200000, 0x800, 0x699, 0x133d15);
    Stirred(0x948b5244, 0xd3333d15, 11, 0x47b86f51, 0x99e8ae99, 0xadcfc0b8);
  }

  lemma Differ14()
    ensures Apart(0x059f95a9, 0xadcfc0b8, 32, 0xa8505511)
  {
    NoBits();
    Digits();
    hide Apart, Digit;
    DigitBehind(0x0, 0x0, 0, 0x0, false, false, false, false, true, false, true, false);
    DigitBehind(0x0, 0xa, 4, 0xa, false, true, false, true, true, true, false, true);
    DigitBehind(0x5, 0xad, 8, 0xa8, true, false, false, true, true, true, false, false);
    DigitBehind(0x59, 0xadc, 12, 0xa85, true, true, true, true, true, true, true, true);
    DigitBehind(0x59f, 0xadcf, 16, 0xa850, true, false, false, true, true, true, false, false);
    DigitBehind(0x59f9, 0xadcfc, 20, 0xa8505, false, true, false, true, false, false, false, false);
    DigitBehind(0x59f95, 0xadcfc0, 24, 0xa85055, true, false, true, false, true, false, true, true);
    DigitBehind(0x59f95a, 0xadcfc0b, 28, 0xa850551, true, false, false, true, true, false, false, false);
  }

  lemma Row14()
    ensures Stir(0x059f95a9, 0xadcfc0b8, 25) == 0x36f4b590
  {
    Powers();
    Differ14();
    hide Power2, Rot, Xor, Apart;
    AllBits(0x059f95a9, 0xadcfc0b8, 0xa8505511);
    RotIs(0xadcfc0b8, 25, 0x80, 0x2000000, 0x15b9f81, 0x38);
    Stirred(0x059f95a9, 0xadcfc0b8, 25, 0xa8505511, 0x715b9f81, 0x36f4b590);
  }

  lemma Differ15()
    ensures Apart(0xd3333d15, 0x36f4b590, 32, 0xe5c78885)
  {
    NoBits();
    Digits();
    hide Apart, Digit;
    DigitBehind(0x0, 0x0, 0, 0x0, true, true, false, true, false, false, true, true);
    DigitBehind(0xd, 0x3, 4, 0xe, false, false, true, true, false, true, true, false);
    DigitBehind(0xd3, 0x36, 8, 0xe5, false, false, true, true, true, true, true, true);
    DigitBehind(0xd33, 0x36f, 12, 0xe5c, false, false, true, true, false, true, false, false);
    DigitBehind(0xd333, 0x36f4, 16, 0xe5c7, false, false, true, true, true, false, true, true);
    DigitBehind(0xd3333, 0x36f4b, 20, 0xe5c78, true, true, false, true, false, true, false, true);
    DigitBehind(0xd3333d, 0x36f4b5, 24, 0xe5c788, false, false, false, true, true, false, false, true);
    DigitBehind(0xd3333d1, 0x36f4b59, 28, 0xe5c7888, false, true, false, true, false, false, false, false);
  }

  lemma Row15()
    ensures Stir(0xd3333d15, 0x36f4b590, 16) == 0x30375191
  {
    Powers();
    Differ15();
    hide Power2, Rot, Xor, Apart;
    AllBits(0xd3333d15, 0x36f4b590, 0xe5c78885);
    RotIs(0x36f4b590, 16, 0x10000, 0x10000, 0x36f4, 0xb590);
    Stirred(0xd3333d15, 0x36f4b590, 16, 0xe5c78885, 0xb59036f4, 0x30375191);
  }

  lemma Differ16()
    ensures Apart(0xadcfc0b8, 0x30375191, 32, 0x9df89129)
  {
    NoBits();
    Digits();
    hide Apart, Digit;
    DigitBehind(0x0, 0x0, 0, 0x0, true, false, true, false, false, false, true, true);
    DigitBehind(0xa, 0x3, 4, 0x9, true, true, false, true, false, false, false, false);
    DigitBehind(0xad, 0x30, 8, 0x9d, true, true, false, false, false, false, true, true);
    DigitBehind(0xadc, 0x303, 12, 0x9df, true, true, true, true, false, true, true, true);
    DigitBehind(0xadcf, 0x3037, 16, 0x9df8, true, true, false, false, false, true, false, true);
    DigitBehind(0xadcfc, 0x30375, 20, 0x9df89, false, false, false, false, false, false, false, true);
    DigitBehind(0xadcfc0, 0x303751, 24, 0x9df891, true, false, true, true, true, false, false, true);
    DigitBehind(0xadcfc0b, 0x3037519, 28, 0x9df8912, true, false, false, false, false, false, false, true);
  }

  lemma Row16()
    ensures Stir(0xadcfc0b8, 0x30375191, 4) == 0x9a837816
  {
    Powers();
    Differ16();
    hide Power2, Rot, Xor, Apart;
    AllBits(0xadcfc0b8, 0x30375191, 0x9df89129);
    RotIs(0x30375191, 4, 0x10000000, 0x10, 0x3, 0x375191);
    Stirred(0xadcfc0b8, 0x30375191, 4, 0x9df89129, 0x03751913, 0x9a837816);
  }

  lemma Differ17()
    ensures Apart(0x36f4b590, 0x9a837816, 32, 0xac77cd86)
  {
    NoBits();
    Digits();
    hide Apart, Digit;
    DigitBehind(0x0, 0x0, 0, 0x0, false, false, true, true, true, false, false, true);
    DigitBehind(0x3, 0x9, 4, 0xa, false, true, true, false, true, false, true, false);
    DigitBehind(0x36, 0x9a, 8, 0xac, true, true, true, true, true, false, false, false);
    DigitBehind(0x36f, 0x9a8, 12, 0xac7, false, true, false, false, false, false, true, true);
    DigitBehind(0x36f4, 0x9a83, 16, 0xac77, true, false, true, true, false, true, true, true);
    DigitBehind(0x36f4b, 0x9a837, 20, 0xac77c, false, true, false, true, true, false, false, false);
    DigitBehind(0x36f4b5, 0x9a8378, 24, 0xac77cd, true, false, false, true, false, false, false, true);
    DigitBehind(0x36f4b59, 0x9a83781, 28, 0xac77cd8, false, false, false, false, false, true, true, false);
  }

  lemma Row17()
    ensures Stir(0x36f4b590, 0x9a837816, 14) == 0xce7226e6
  {
    Powers();
    Differ17();
    hide Power2, Rot, Xor, Apart;
    AllBits(0x36f4b590, 0x9a837816, 0xac77cd86);
    RotIs(0x9a837816, 14, 0x40000, 0x4000, 0x26a0, 0x37816);
    Stirred(0x36f4b590, 0x9a837816, 14, 0xac77cd86, 0xde05a6a0, 0xce7226e6);
  }

  lemma Differ18()
    ensures Apart(0x30375191, 0xce7226e6, 32, 0xfe457777)
  {
    NoBits();
    Digits();
    hide Apart, Digit;
    DigitBehind(0x0, 0x0, 0, 0x0, false, false, true, true, true, true, false, false);
    DigitBehind(0x3, 0xc, 4, 0xf, false, false, false, false, true, true, true, false);
    DigitBehind(0x30, 0xce, 8, 0xfe, false, false, true, true, false, true, true, true);
    DigitBehind(0x303, 0xce7, 12, 0xfe4, false, true, true, true, false, false, true, false);
    DigitBehind(0x3037, 0xce72, 16, 0xfe45, false, true, false, true, false, false, true, false);
    DigitBehind(0x30375, 0xce722, 20, 0xfe457, false, false, false, true, false, true, true, false);
    DigitBehind(0x303751, 0xce7226, 24, 0xfe4577, true, false, false, true, true, true, true, false);
    DigitBehind(0x3037519, 0xce7226e, 28, 0xfe45777, false, false, false, true, false, true, true, false);
  }

  lemma Row18()
    ensures Stir(0x30375191, 0xce7226e6, 24) == 0x17770551
  {
    Powers();
    Differ18();
    hide Power2, Rot, Xor, Apart;
    AllBits(0x30375191, 0xce7226e6, 0xfe457777);
    RotIs(0xce7226e6, 24, 0x100, 0x1000000, 0xce7226, 0xe6);
    Stirred(0x30375191, 0xce7226e6, 24, 0xfe457777, 0xe6ce7226, 0x17770551);
  }

  lemma Finished()
    ensures Final(Mixer(0x948b5244, 0x059f95a9, 0xbd02ebd5)) == Mixer(0x9a837816, 0xce7226e6, 0x17770551)
  {
    hide Stir;
    Row12();
    Row13();
    Row14();
    Row15();
    Row16();
    Row17();
    Row18();
  }

  // ---- The hash ----

  lemma Block0()
    ensures AddBlock(Mixer(0xdeadbf0d, 0xdeadbf0d, 0xdeadbf0d), SENTENCE, 0) == Mixer(0x51232e53, 0x4e11322d, 0x3fce247f)
  {
    WordsOf0();
    hide WordAt;
  }

  lemma WordsOf0()
    ensures WordAt(SENTENCE, 0) == 0x72756f46
    ensures WordAt(SENTENCE, 4) == 0x6f637320
    ensures WordAt(SENTENCE, 8) == 0x61206572
  {
  }

  lemma Block1()
    ensures AddBlock(Mixer(0xf859ad7a, 0x04bc57ae, 0x40dddd7e), SENTENCE, 12) == Mixer(0x6b7a11e8, 0x7321ce13, 0xa243569e)
  {
    WordsOf1();
    hide WordAt;
  }

  lemma WordsOf1()
    ensures WordAt(SENTENCE, 12) == 0x7320646e
    ensures WordAt(SENTENCE, 16) == 0x6e657665
    ensures WordAt(SENTENCE, 20) == 0x61657920
  {
  }

  lemma Block2()
    ensures AddBlock(Mixer(0x336aded2, 0x059f2642, 0xbd02ebd5), SENTENCE, 24) == Mixer(0x948b5244, 0x059f95a9, 0xbd02ebd5)
  {
    WordsOf2();
    hide WordAt;
  }

  lemma WordsOf2()
    ensures WordAt(SENTENCE, 24) == 0x61207372
    ensures WordAt(SENTENCE, 28) == 0x00006f67
    ensures WordAt(SENTENCE, 32) == 0x00000000
  {
  }

  lemma Absorbs(m: Mixer, k: nat, added: Mixer, mixed: Mixer)
    requires k + BLOCK < |SENTENCE| && AddBlock(m, SENTENCE, k) == added && Mix(added) == mixed
    ensures Absorbed(m, SENTENCE, k) == Absorbed(mixed, SENTENCE, k + BLOCK)
  {
    hide AddBlock, Mix, Final;
  }

  lemma AbsorbsLast(m: Mixer, k: nat, added: Mixer)
    requires k < |SENTENCE| <= k + BLOCK && AddBlock(m, SENTENCE, k) == added
    ensures Absorbed(m, SENTENCE, k) == Final(added)
  {
    hide AddBlock, Mix, Final;
  }

  /** The value that the author of the hash gives for it. */
  lemma HashOfSentence()
    ensures Hash(SENTENCE, 0) == 0x17770551
  {
    hide Absorbed, AddBlock, Mix, Final;
    Block0(); Block1(); Block2();
    Mixed0(); Mixed1();
    Finished();
    Absorbs(Mixer(0xdeadbf0d, 0xdeadbf0d, 0xdeadbf0d), 0, Mixer(0x51232e53, 0x4e11322d, 0x3fce247f), Mixer(0xf859ad7a, 0x04bc57ae, 0x40dddd7e));
    Absorbs(Mixer(0xf859ad7a, 0x04bc57ae, 0x40dddd7e), 12, Mixer(0x6b7a11e8, 0x7321ce13, 0xa243569e), Mixer(0x336aded2, 0x059f2642, 0xbd02ebd5));
    AbsorbsLast(Mixer(0x336aded2, 0x059f2642, 0xbd02ebd5), 24, Mixer(0x948b5244, 0x059f95a9, 0xbd02ebd5));
  }
}
