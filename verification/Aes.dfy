/**
 The block cipher of crypto/aes.c. Decryption inverts encryption for every block and every key
 schedule. A state is a value here, four columns of four bytes; the methods that work on the 4x4
 array in place are proved against the functions on values.
 */
module Aes {
  import opened AesTables

  // ---- States ----

  datatype Column = Column(r0: bv8, r1: bv8, r2: bv8, r3: bv8)

  datatype State = State(c0: Column, c1: Column, c2: Column, c3: Column)

  function Add4(a: bv8, b: bv8, c: bv8, d: bv8): bv8 {
    Add(Add(a, b), Add(c, d))
  }

  // ---- The steps, section 5 of FIPS 197 ----

  /** The bytes of a word of the key schedule, the first in the high byte. */
  function WordColumn(w: bv32): Column {
    Column((w >> 24) as bv8, ((w >> 16) & 0xff) as bv8, ((w >> 8) & 0xff) as bv8, (w & 0xff) as bv8)
  }

  function AddColumn(a: Column, b: Column): Column {
    Column(Add(a.r0, b.r0), Add(a.r1, b.r1), Add(a.r2, b.r2), Add(a.r3, b.r3))
  }

  /** Round key `i` of a schedule. */
  function RoundKey(key: seq<bv32>, i: nat): State
    requires 4 * i + 4 <= |key|
  {
    State(WordColumn(key[4 * i]), WordColumn(key[4 * i + 1]), WordColumn(key[4 * i + 2]), WordColumn(key[4 * i + 3]))
  }

  function AddState(s: State, k: State): State {
    State(AddColumn(s.c0, k.c0), AddColumn(s.c1, k.c1), AddColumn(s.c2, k.c2), AddColumn(s.c3, k.c3))
  }

  function SubColumn(c: Column): Column {
    Column(Sbox(c.r0), Sbox(c.r1), Sbox(c.r2), Sbox(c.r3))
  }

  function SubState(s: State): State {
    State(SubColumn(s.c0), SubColumn(s.c1), SubColumn(s.c2), SubColumn(s.c3))
  }

  function InvSubColumn(c: Column): Column {
    Column(InvSbox(c.r0), InvSbox(c.r1), InvSbox(c.r2), InvSbox(c.r3))
  }

  function InvSubState(s: State): State {
    State(InvSubColumn(s.c0), InvSubColumn(s.c1), InvSubColumn(s.c2), InvSubColumn(s.c3))
  }

  /** Row i is rotated left by i. */
  function ShiftState(s: State): State {
    State(Column(s.c0.r0, s.c1.r1, s.c2.r2, s.c3.r3), Column(s.c1.r0, s.c2.r1, s.c3.r2, s.c0.r3),
          Column(s.c2.r0, s.c3.r1, s.c0.r2, s.c1.r3), Column(s.c3.r0, s.c0.r1, s.c1.r2, s.c2.r3))
  }

  /** Row i is rotated right by i. */
  function InvShiftState(s: State): State {
    State(Column(s.c0.r0, s.c3.r1, s.c2.r2, s.c1.r3), Column(s.c1.r0, s.c0.r1, s.c3.r2, s.c2.r3),
          Column(s.c2.r0, s.c1.r1, s.c0.r2, s.c3.r3), Column(s.c3.r0, s.c2.r1, s.c1.r2, s.c0.r3))
  }

  function MixColumn(c: Column): Column {
    Column(Add4(Gf(c.r0).by2, Gf(c.r1).by3, c.r2, c.r3),
           Add4(c.r0, Gf(c.r1).by2, Gf(c.r2).by3, c.r3),
           Add4(c.r0, c.r1, Gf(c.r2).by2, Gf(c.r3).by3),
           Add4(Gf(c.r0).by3, c.r1, c.r2, Gf(c.r3).by2))
  }

  function InvMixColumn(c: Column): Column {
    Column(Add4(Gf(c.r0).by14, Gf(c.r1).by11, Gf(c.r2).by13, Gf(c.r3).by9),
           Add4(Gf(c.r0).by9, Gf(c.r1).by14, Gf(c.r2).by11, Gf(c.r3).by13),
           Add4(Gf(c.r0).by13, Gf(c.r1).by9, Gf(c.r2).by14, Gf(c.r3).by11),
           Add4(Gf(c.r0).by11, Gf(c.r1).by13, Gf(c.r2).by9, Gf(c.r3).by14))
  }

  function MixState(s: State): State {
    State(MixColumn(s.c0), MixColumn(s.c1), MixColumn(s.c2), MixColumn(s.c3))
  }

  function InvMixState(s: State): State {
    State(InvMixColumn(s.c0), InvMixColumn(s.c1), InvMixColumn(s.c2), InvMixColumn(s.c3))
  }

  // ---- Every step is inverted ----

  lemma AddedTwice(a: bv8, b: bv8)
    ensures Add(Add(a, b), b) == a
  {
  }

  lemma AddStateTwice(s: State, k: State)
    ensures AddState(AddState(s, k), k) == s
  {
    hide Add;
    forall a: bv8, b: bv8 ensures Add(Add(a, b), b) == a {
      AddedTwice(a, b);
    }
  }

  lemma InvSubInverts(s: State)
    ensures InvSubState(SubState(s)) == s
  {
    hide Sbox, InvSbox;
    forall x: bv8 ensures InvSbox(Sbox(x)) == x {
      InvSboxInverts(x);
    }
  }

  lemma InvShiftInverts(s: State)
    ensures InvShiftState(ShiftState(s)) == s
  {
  }

  // ---- Mixing is linear, and inverted on one byte ----

  lemma Rearrange(a: bv8, b: bv8, c: bv8)
    ensures Add(Add(a, b), c) == Add(Add(a, c), b)
    ensures Add(Add(a, b), c) == Add(a, Add(b, c))
  {
  }

  lemma Exchange(a: bv8, b: bv8, c: bv8, d: bv8)
    ensures Add(Add(a, b), Add(c, d)) == Add(Add(a, c), Add(b, d))
  {
    hide Add;
    Rearrange(Add(a, b), c, d);
    Rearrange(a, b, c);
    Rearrange(Add(a, c), b, d);
  }

  lemma Cancel(a: bv8, b: bv8, p: bv8)
    ensures Add(Add(a, p), Add(b, p)) == Add(a, b)
  {
    hide Add;
    Rearrange(Add(a, p), b, p);
    Rearrange(a, b, p);
    AddedTwice(Add(a, b), p);
  }

  lemma DoubleLinear(a: bv8, b: bv8)
    ensures Double(Add(a, b)) == Add(Double(a), Double(b))
    ensures TopBit(Add(a, b)) == (TopBit(a) != TopBit(b))
  {
  }

  lemma XTimeLinear(a: bv8, b: bv8)
    ensures XTime(Add(a, b)) == Add(XTime(a), XTime(b))
  {
    hide Add, Double, TopBit;
    DoubleLinear(a, b);
    Rearrange(Double(a), Double(b), 0x1b);
    Cancel(Double(a), Double(b), 0x1b);
  }

  function SumOf(p: Products, q: Products): Products {
    Products(Add(p.by2, q.by2), Add(p.by3, q.by3), Add(p.by9, q.by9), Add(p.by11, q.by11), Add(p.by13, q.by13), Add(p.by14, q.by14))
  }

  /** Every product is a linear function of its byte. */
  lemma ProductsLinear(a: bv8, b: bv8)
    ensures ProductsOf(Add(a, b)) == SumOf(ProductsOf(a), ProductsOf(b))
  {
    hide Add, XTime;
    var a2, b2 := XTime(a), XTime(b);
    var a4, b4 := XTime(a2), XTime(b2);
    var a8, b8 := XTime(a4), XTime(b4);
    XTimeLinear(a, b);
    XTimeLinear(a2, b2);
    XTimeLinear(a4, b4);
    Exchange(a2, b2, a, b);
    Exchange(a8, b8, a, b);
    Exchange(a8, b8, a2, b2);
    Exchange(Add(a8, a2), Add(b8, b2), a, b);
    Exchange(a8, b8, a4, b4);
    Exchange(Add(a8, a4), Add(b8, b4), a, b);
    Exchange(Add(a8, a4), Add(b8, b4), a2, b2);
  }

  lemma GfLinear(a: bv8, b: bv8)
    ensures Gf(Add(a, b)) == SumOf(Gf(a), Gf(b))
  {
    hide Gf, ProductsOf, Add;
    GfRight(a);
    GfRight(b);
    GfRight(Add(a, b));
    ProductsLinear(a, b);
  }

  function Sum4(p: Products, q: Products, r: Products, s: Products): Products {
    SumOf(SumOf(p, q), SumOf(r, s))
  }

  lemma GfLinear4(a: bv8, b: bv8, c: bv8, d: bv8)
    ensures Gf(Add4(a, b, c, d)) == Sum4(Gf(a), Gf(b), Gf(c), Gf(d))
  {
    hide Gf, Add;
    GfLinear(a, b);
    GfLinear(c, d);
    GfLinear(Add(a, b), Add(c, d));
  }

  /** Adding up a square of bytes by rows or by columns. */
  lemma Transpose(a0: bv8, a1: bv8, a2: bv8, a3: bv8, b0: bv8, b1: bv8, b2: bv8, b3: bv8,
                  c0: bv8, c1: bv8, c2: bv8, c3: bv8, d0: bv8, d1: bv8, d2: bv8, d3: bv8)
    ensures Add4(Add4(a0, a1, a2, a3), Add4(b0, b1, b2, b3), Add4(c0, c1, c2, c3), Add4(d0, d1, d2, d3)) ==
      Add4(Add4(a0, b0, c0, d0), Add4(a1, b1, c1, d1), Add4(a2, b2, c2, d2), Add4(a3, b3, c3, d3))
  {
    hide Add4;
    Sum2(a0, a1, a2, a3, b0, b1, b2, b3);
    Sum2(c0, c1, c2, c3, d0, d1, d2, d3);
    Sum2(Add(a0, b0), Add(a1, b1), Add(a2, b2), Add(a3, b3), Add(c0, d0), Add(c1, d1), Add(c2, d2), Add(c3, d3));
    InTwos(Add4(a0, a1, a2, a3), Add4(b0, b1, b2, b3), Add4(c0, c1, c2, c3), Add4(d0, d1, d2, d3));
    InTwos(a0, b0, c0, d0);
    InTwos(a1, b1, c1, d1);
    InTwos(a2, b2, c2, d2);
    InTwos(a3, b3, c3, d3);
  }

  lemma InTwos(a: bv8, b: bv8, c: bv8, d: bv8)
    ensures Add4(a, b, c, d) == Add(Add(a, b), Add(c, d))
  {
  }

  lemma Sum2(a0: bv8, a1: bv8, a2: bv8, a3: bv8, b0: bv8, b1: bv8, b2: bv8, b3: bv8)
    ensures Add(Add4(a0, a1, a2, a3), Add4(b0, b1, b2, b3)) == Add4(Add(a0, b0), Add(a1, b1), Add(a2, b2), Add(a3, b3))
  {
    hide Add;
    Exchange(Add(a0, a1), Add(a2, a3), Add(b0, b1), Add(b2, b3));
    Exchange(a0, a1, b0, b1);
    Exchange(a2, a3, b2, b3);
  }

  /** A byte and its products with x, x^2, x^3 and x^4. */
  datatype Powers = Powers(x: bv8, x2: bv8, x4: bv8, x8: bv8, x16: bv8)

  function PowersOf(x: bv8): Powers {
    var x2 := XTime(x);
    var x4 := XTime(x2);
    var x8 := XTime(x4);
    Powers(x, x2, x4, x8, XTime(x8))
  }

  /** The products of a byte, of its double and of its triple, as sums of powers. */
  lemma ProductsAsPowers(x: bv8)
    ensures var w, g := PowersOf(x), Gf(x);
      && g == Products(w.x2, Add(w.x2, x), Add(w.x8, x), Add(Add(w.x8, w.x2), x), Add(Add(w.x8, w.x4), x), Add(Add(w.x8, w.x4), w.x2))
      && Gf(g.by2) == Products(w.x4, Add(w.x4, w.x2), Add(w.x16, w.x2), Add(Add(w.x16, w.x4), w.x2),
        Add(Add(w.x16, w.x8), w.x2), Add(Add(w.x16, w.x8), w.x4))
      && Gf(g.by3) == SumOf(Gf(g.by2), g)
  {
    hide Gf, Add, XTime;
    GfRight(x);
    GfRight(XTime(x));
    GfLinear(XTime(x), x);
  }

  lemma Flat2(a: bv8, b: bv8)
    ensures Add(a, b) == a ^ b
  {
  }

  lemma Flat3(a: bv8, b: bv8, c: bv8)
    ensures Add(Add(a, b), c) == a ^ b ^ c
  {
  }

  lemma Flat4(a: bv8, b: bv8, c: bv8, d: bv8)
    ensures Add4(a, b, c, d) == a ^ b ^ c ^ d
  {
  }

  lemma FirstCancels(w: Powers)
    ensures Add4(Add(Add(w.x16, w.x8), w.x4), Add(Add(w.x8, w.x2), w.x), Add(Add(w.x8, w.x4), w.x), Add(Add(w.x16, w.x2), Add(w.x8, w.x))) == w.x
  {
  }

  lemma SecondCancels(w: Powers)
    ensures Add4(Add(Add(Add(w.x16, w.x8), w.x4), Add(Add(w.x8, w.x4), w.x2)), Add(Add(w.x16, w.x4), w.x2), Add(Add(w.x8, w.x4), w.x), Add(w.x8, w.x)) == 0
  {
    hide Add, Add4;
    Flat3(w.x16, w.x8, w.x4);
    Flat3(w.x8, w.x4, w.x2);
    Flat2(Add(Add(w.x16, w.x8), w.x4), Add(Add(w.x8, w.x4), w.x2));
    Flat3(w.x16, w.x4, w.x2);
    Flat3(w.x8, w.x4, w.x);
    Flat2(w.x8, w.x);
    Flat4(Add(Add(Add(w.x16, w.x8), w.x4), Add(Add(w.x8, w.x4), w.x2)), Add(Add(w.x16, w.x4), w.x2), Add(Add(w.x8, w.x4), w.x), Add(w.x8, w.x));
  }

  lemma ThirdCancels(w: Powers)
    ensures Add4(Add(Add(w.x8, w.x4), w.x2), Add(Add(Add(w.x16, w.x4), w.x2), Add(Add(w.x8, w.x2), w.x)), Add(Add(w.x16, w.x8), w.x2), Add(w.x8, w.x)) == 0
  {
    hide Add, Add4;
    Flat3(w.x8, w.x4, w.x2);
    Flat3(w.x16, w.x4, w.x2);
    Flat3(w.x8, w.x2, w.x);
    Flat2(Add(Add(w.x16, w.x4), w.x2), Add(Add(w.x8, w.x2), w.x));
    Flat3(w.x16, w.x8, w.x2);
    Flat2(w.x8, w.x);
    Flat4(Add(Add(w.x8, w.x4), w.x2), Add(Add(Add(w.x16, w.x4), w.x2), Add(Add(w.x8, w.x2), w.x)), Add(Add(w.x16, w.x8), w.x2), Add(w.x8, w.x));
  }

  lemma FourthCancels(w: Powers)
    ensures Add4(Add(Add(w.x8, w.x4), w.x2), Add(Add(w.x8, w.x2), w.x), Add(Add(Add(w.x16, w.x8), w.x2), Add(Add(w.x8, w.x4), w.x)), Add(w.x16, w.x2)) == 0
  {
    hide Add, Add4;
    Flat3(w.x8, w.x4, w.x2);
    Flat3(w.x8, w.x2, w.x);
    Flat3(w.x16, w.x8, w.x2);
    Flat3(w.x8, w.x4, w.x);
    Flat2(Add(Add(w.x16, w.x8), w.x2), Add(Add(w.x8, w.x4), w.x));
    Flat2(w.x16, w.x2);
    Flat4(Add(Add(w.x8, w.x4), w.x2), Add(Add(w.x8, w.x2), w.x), Add(Add(Add(w.x16, w.x8), w.x2), Add(Add(w.x8, w.x4), w.x)), Add(w.x16, w.x2));
  }

  /** What the first row of InvMixColumns makes of the four products of the first byte of its column, and of the other three. */
  lemma FourBytes(x: bv8)
    ensures Add4(Gf(Gf(x).by2).by14, Gf(x).by11, Gf(x).by13, Gf(Gf(x).by3).by9) == x
    ensures Add4(Gf(Gf(x).by3).by14, Gf(Gf(x).by2).by11, Gf(x).by13, Gf(x).by9) == 0
    ensures Add4(Gf(x).by14, Gf(Gf(x).by3).by11, Gf(Gf(x).by2).by13, Gf(x).by9) == 0
    ensures Add4(Gf(x).by14, Gf(x).by11, Gf(Gf(x).by3).by13, Gf(Gf(x).by2).by9) == 0
  {
    hide Gf, Add, Add4, XTime;
    ProductsAsPowers(x);
    FirstCancels(PowersOf(x));
    SecondCancels(PowersOf(x));
    ThirdCancels(PowersOf(x));
    FourthCancels(PowersOf(x));
  }

  lemma FirstRow(c: Column)
    ensures InvMixColumn(MixColumn(c)).r0 == c.r0
  {
    hide Gf, Add4;
    var a, b, d, e := c.r0, c.r1, c.r2, c.r3;
    var p, q, r, s := Gf(a), Gf(b), Gf(d), Gf(e);
    GfLinear4(p.by2, q.by3, d, e);
    GfLinear4(a, q.by2, r.by3, e);
    GfLinear4(a, b, r.by2, s.by3);
    GfLinear4(p.by3, b, d, s.by2);
    Sum4Is(Gf(p.by2), Gf(q.by3), r, s);
    Sum4Is(p, Gf(q.by2), Gf(r.by3), s);
    Sum4Is(p, q, Gf(r.by2), Gf(s.by3));
    Sum4Is(Gf(p.by3), q, r, Gf(s.by2));
    Transpose(Gf(p.by2).by14, Gf(q.by3).by14, r.by14, s.by14,
              p.by11, Gf(q.by2).by11, Gf(r.by3).by11, s.by11,
              p.by13, q.by13, Gf(r.by2).by13, Gf(s.by3).by13,
              Gf(p.by3).by9, q.by9, r.by9, Gf(s.by2).by9);
    FourBytes(a);
    FourBytes(b);
    FourBytes(d);
    FourBytes(e);
    AddZeros(a);
  }

  lemma Sum4Is(p: Products, q: Products, r: Products, s: Products)
    ensures Sum4(p, q, r, s).by9 == Add4(p.by9, q.by9, r.by9, s.by9)
    ensures Sum4(p, q, r, s).by11 == Add4(p.by11, q.by11, r.by11, s.by11)
    ensures Sum4(p, q, r, s).by13 == Add4(p.by13, q.by13, r.by13, s.by13)
    ensures Sum4(p, q, r, s).by14 == Add4(p.by14, q.by14, r.by14, s.by14)
  {
    hide Add;
  }

  lemma AddZeros(a: bv8)
    ensures Add4(a, 0, 0, 0) == a
  {
  }

  function Rotate(c: Column): Column {
    Column(c.r1, c.r2, c.r3, c.r0)
  }

  /** Mixing treats the rows of a column alike. */
  lemma MixRotates(c: Column)
    ensures MixColumn(Rotate(c)) == Rotate(MixColumn(c))
    ensures InvMixColumn(Rotate(c)) == Rotate(InvMixColumn(c))
  {
    hide Gf, Add4;
    forall a: bv8, b: bv8, d: bv8, e: bv8 ensures Add4(a, b, d, e) == Add4(e, a, b, d) {
      AddRotates(a, b, d, e);
    }
  }

  lemma AddRotates(a: bv8, b: bv8, c: bv8, d: bv8)
    ensures Add4(a, b, c, d) == Add4(d, a, b, c)
  {
    hide Add;
    Rearrange(Add(a, b), c, d);
    Rearrange(Add(a, b), d, c);
    Commute(Add(a, b), d);
    Commute(c, d);
    Rearrange(d, Add(a, b), c);
    Rearrange(d, a, b);
    Rearrange(Add(d, a), b, c);
  }

  lemma Commute(a: bv8, b: bv8)
    ensures Add(a, b) == Add(b, a)
  {
  }

  lemma InvMixColumnInverts(c: Column)
    ensures InvMixColumn(MixColumn(c)) == c
  {
    hide MixColumn, InvMixColumn;
    var c1 := Rotate(c);
    var c2 := Rotate(c1);
    FirstRow(c);
    FirstRow(c1);
    FirstRow(c2);
    FirstRow(Rotate(c2));
    MixRotates(c);
    MixRotates(c1);
    MixRotates(c2);
    MixRotates(MixColumn(c));
    MixRotates(MixColumn(c1));
    MixRotates(MixColumn(c2));
  }

  lemma InvMixInverts(s: State)
    ensures InvMixState(MixState(s)) == s
  {
    hide MixColumn, InvMixColumn;
    InvMixColumnInverts(s.c0);
    InvMixColumnInverts(s.c1);
    InvMixColumnInverts(s.c2);
    InvMixColumnInverts(s.c3);
  }

  // ---- The cipher ----

  /** The state after round key `i` is added. */
  function Forward(s: State, key: seq<bv32>, i: nat): State
    requires |key| >= 4 * i + 4
  {
    if i == 0 then AddState(s, RoundKey(key, 0))
    else AddState(MixState(ShiftState(SubState(Forward(s, key, i - 1)))), RoundKey(key, i))
  }

  function Cipher(s: State, key: seq<bv32>, rounds: nat): State
    requires rounds > 0 && |key| >= 4 * rounds + 4
  {
    AddState(ShiftState(SubState(Forward(s, key, rounds - 1))), RoundKey(key, rounds))
  }

  /** The state before the rounds from `i` down on are undone. */
  function Backward(s: State, key: seq<bv32>, i: nat, rounds: nat): State
    requires i < rounds && |key| >= 4 * rounds + 4
    decreases rounds - i
  {
    if i == rounds - 1 then AddState(s, RoundKey(key, rounds))
    else InvMixState(AddState(InvSubState(InvShiftState(Backward(s, key, i + 1, rounds))), RoundKey(key, i + 1)))
  }

  function Decipher(s: State, key: seq<bv32>, rounds: nat): State
    requires rounds > 0 && |key| >= 4 * rounds + 4
  {
    AddState(InvSubState(InvShiftState(Backward(s, key, 0, rounds))), RoundKey(key, 0))
  }

  /** Deciphering meets the states of the enciphering, the other way round. */
  lemma {:induction false} BackwardMeetsForward(s: State, key: seq<bv32>, i: nat, rounds: nat)
    requires i < rounds && |key| >= 4 * rounds + 4
    ensures Backward(Cipher(s, key, rounds), key, i, rounds) == ShiftState(SubState(Forward(s, key, i)))
    decreases rounds - i
  {
    hide AddState, SubState, InvSubState, ShiftState, InvShiftState, MixState, InvMixState, RoundKey;
    var t := ShiftState(SubState(Forward(s, key, i)));
    if i == rounds - 1 {
      AddStateTwice(t, RoundKey(key, rounds));
    } else {
      BackwardMeetsForward(s, key, i + 1, rounds);
      var u := Forward(s, key, i + 1);
      InvShiftInverts(SubState(u));
      InvSubInverts(u);
      AddStateTwice(MixState(t), RoundKey(key, i + 1));
      InvMixInverts(t);
    }
  }

  /** Decryption inverts encryption, for every block, key schedule and number of rounds. */
  lemma DecipherInverts(s: State, key: seq<bv32>, rounds: nat)
    requires rounds > 0 && |key| >= 4 * rounds + 4
    ensures Decipher(Cipher(s, key, rounds), key, rounds) == s
  {
    hide AddState, SubState, InvSubState, ShiftState, InvShiftState, RoundKey, Cipher;
    BackwardMeetsForward(s, key, 0, rounds);
    var u := Forward(s, key, 0);
    InvShiftInverts(SubState(u));
    InvSubInverts(u);
    AddStateTwice(s, RoundKey(key, 0));
  }

  /** The number of rounds that aes_encrypt makes of the key size. */
  function EncryptRounds(keysize: int): (n: nat)
    ensures n == 10 || n == 12 || n == 14
  {
    if keysize != 128 then (if keysize != 192 then 14 else 12) else 10
  }

  /** The number of rounds that aes_decrypt makes of the key size. */
  function DecryptRounds(keysize: int): (n: nat)
    ensures n == 10 || n == 12 || n == 14
  {
    if keysize > 128 then (if keysize > 192 then 14 else 12) else 10
  }

  /** For the key sizes of the standard, both directions make its number of rounds. */
  lemma RoundsAgree(keysize: int)
    ensures EncryptRounds(keysize) == DecryptRounds(keysize) <==> keysize == 128 || keysize == 192 || keysize > 192
    ensures keysize == 128 || keysize == 192 || keysize == 256 ==> EncryptRounds(keysize) == 6 + keysize / 32
  {
  }

  // ---- Blocks of bytes ----

  const BLOCK := 16

  function ToState(b: seq<bv8>): State
    requires |b| == BLOCK
  {
    State(Column(b[0], b[1], b[2], b[3]), Column(b[4], b[5], b[6], b[7]),
          Column(b[8], b[9], b[10], b[11]), Column(b[12], b[13], b[14], b[15]))
  }

  function ToBlock(s: State): (b: seq<bv8>)
    ensures |b| == BLOCK
  {
    [s.c0.r0, s.c0.r1, s.c0.r2, s.c0.r3, s.c1.r0, s.c1.r1, s.c1.r2, s.c1.r3,
     s.c2.r0, s.c2.r1, s.c2.r2, s.c2.r3, s.c3.r0, s.c3.r1, s.c3.r2, s.c3.r3]
  }

  predicate Schedule(key: seq<bv32>, rounds: nat) {
    |key| >= 4 * rounds + 4
  }

  function EncryptBlock(b: seq<bv8>, key: seq<bv32>, keysize: int): (r: seq<bv8>)
    requires |b| == BLOCK && Schedule(key, EncryptRounds(keysize))
    ensures |r| == BLOCK
  {
    ToBlock(Cipher(ToState(b), key, EncryptRounds(keysize)))
  }

  function DecryptBlock(b: seq<bv8>, key: seq<bv32>, keysize: int): (r: seq<bv8>)
    requires |b| == BLOCK && Schedule(key, DecryptRounds(keysize))
    ensures |r| == BLOCK
  {
    ToBlock(Decipher(ToState(b), key, DecryptRounds(keysize)))
  }

  lemma BlockAndState(b: seq<bv8>, s: State)
    requires |b| == BLOCK
    ensures ToBlock(ToState(b)) == b && ToState(ToBlock(s)) == s
  {
  }

  /** aes_decrypt after aes_encrypt, for the key sizes on which they agree. */
  lemma DecryptInverts(b: seq<bv8>, key: seq<bv32>, keysize: int)
    requires |b| == BLOCK && keysize in {128, 192, 256} && Schedule(key, EncryptRounds(keysize))
    ensures DecryptBlock(EncryptBlock(b, key, keysize), key, keysize) == b
  {
    hide Cipher, Decipher, ToBlock, ToState;
    var n := EncryptRounds(keysize);
    BlockAndState(b, Cipher(ToState(b), key, n));
    DecipherInverts(ToState(b), key, n);
  }

  // ---- The steps in place ----

  ghost predicate IsState(state: array2<bv8>) {
    state.Length0 == 4 && state.Length1 == 4
  }

  ghost function Of(state: array2<bv8>): State
    requires IsState(state)
    reads state
  {
    State(Column(state[0, 0], state[1, 0], state[2, 0], state[3, 0]), Column(state[0, 1], state[1, 1], state[2, 1], state[3, 1]),
          Column(state[0, 2], state[1, 2], state[2, 2], state[3, 2]), Column(state[0, 3], state[1, 3], state[2, 3], state[3, 3]))
  }

  ghost function ColumnOf(state: array2<bv8>, j: nat): Column
    requires IsState(state) && j < 4
    reads state
  {
    Column(state[0, j], state[1, j], state[2, j], state[3, j])
  }

  /** What AddRoundKey does to one column. */
  method AddSubkey(state: array2<bv8>, j: nat, w: bv32)
    requires IsState(state) && j < 4
    modifies state
    ensures ColumnOf(state, j) == AddColumn(old(ColumnOf(state, j)), WordColumn(w))
    ensures forall k :: 0 <= k < 4 && k != j ==> ColumnOf(state, k) == old(ColumnOf(state, k))
  {
    hide Add;
    var subkey := WordColumn(w);
    state[0, j] := Add(state[0, j], subkey.r0);
    state[1, j] := Add(state[1, j], subkey.r1);
    state[2, j] := Add(state[2, j], subkey.r2);
    state[3, j] := Add(state[3, j], subkey.r3);
  }

  /** AddRoundKey, with the words from &key[4 * i] on */
  method AddRoundKey(state: array2<bv8>, key: seq<bv32>, i: nat)
    requires IsState(state) && |key| >= 4 * i + 4
    modifies state
    ensures Of(state) == AddState(old(Of(state)), RoundKey(key, i))
  {
    hide AddColumn, WordColumn;
    AddSubkey(state, 0, key[4 * i]);
    AddSubkey(state, 1, key[4 * i + 1]);
    AddSubkey(state, 2, key[4 * i + 2]);
    AddSubkey(state, 3, key[4 * i + 3]);
    assert Of(state) == State(ColumnOf(state, 0), ColumnOf(state, 1), ColumnOf(state, 2), ColumnOf(state, 3));
  }

  ghost function RowOf(state: array2<bv8>, i: nat): Column
    requires IsState(state) && i < 4
    reads state
  {
    Column(state[i, 0], state[i, 1], state[i, 2], state[i, 3])
  }

  /** What SubBytes does to one row. */
  method SboxRow(state: array2<bv8>, i: nat)
    requires IsState(state) && i < 4
    modifies state
    ensures RowOf(state, i) == SubColumn(old(RowOf(state, i)))
    ensures forall k :: 0 <= k < 4 && k != i ==> RowOf(state, k) == old(RowOf(state, k))
  {
    hide Sbox;
    state[i, 0] := Sbox(state[i, 0]);
    state[i, 1] := Sbox(state[i, 1]);
    state[i, 2] := Sbox(state[i, 2]);
    state[i, 3] := Sbox(state[i, 3]);
  }

  /** SubBytes */
  method SubBytes(state: array2<bv8>)
    requires IsState(state)
    modifies state
    ensures Of(state) == SubState(old(Of(state)))
  {
    hide Sbox;
    SboxRow(state, 0);
    SboxRow(state, 1);
    SboxRow(state, 2);
    SboxRow(state, 3);
    assert RowOf(state, 0) == SubColumn(old(RowOf(state, 0)));
    assert RowOf(state, 1) == SubColumn(old(RowOf(state, 1)));
    assert RowOf(state, 2) == SubColumn(old(RowOf(state, 2)));
  }

  /** What InvSubBytes does to one row. */
  method InvSboxRow(state: array2<bv8>, i: nat)
    requires IsState(state) && i < 4
    modifies state
    ensures RowOf(state, i) == InvSubColumn(old(RowOf(state, i)))
    ensures forall k :: 0 <= k < 4 && k != i ==> RowOf(state, k) == old(RowOf(state, k))
  {
    hide InvSbox;
    state[i, 0] := InvSbox(state[i, 0]);
    state[i, 1] := InvSbox(state[i, 1]);
    state[i, 2] := InvSbox(state[i, 2]);
    state[i, 3] := InvSbox(state[i, 3]);
  }

  /** InvSubBytes */
  method InvSubBytes(state: array2<bv8>)
    requires IsState(state)
    modifies state
    ensures Of(state) == InvSubState(old(Of(state)))
  {
    hide InvSbox;
    InvSboxRow(state, 0);
    InvSboxRow(state, 1);
    InvSboxRow(state, 2);
    InvSboxRow(state, 3);
    assert RowOf(state, 0) == InvSubColumn(old(RowOf(state, 0)));
    assert RowOf(state, 1) == InvSubColumn(old(RowOf(state, 1)));
    assert RowOf(state, 2) == InvSubColumn(old(RowOf(state, 2)));
  }

  function Left(row: Column): Column {
    Column(row.r1, row.r2, row.r3, row.r0)
  }

  method RotateOnce(state: array2<bv8>, i: nat)
    requires IsState(state) && i < 4
    modifies state
    ensures RowOf(state, i) == Left(old(RowOf(state, i)))
    ensures forall k :: 0 <= k < 4 && k != i ==> RowOf(state, k) == old(RowOf(state, k))
  {
    var t := state[i, 0];
    state[i, 0] := state[i, 1];
    state[i, 1] := state[i, 2];
    state[i, 2] := state[i, 3];
    state[i, 3] := t;
  }

  method RotateTwice(state: array2<bv8>, i: nat)
    requires IsState(state) && i < 4
    modifies state
    ensures RowOf(state, i) == Left(Left(old(RowOf(state, i))))
    ensures forall k :: 0 <= k < 4 && k != i ==> RowOf(state, k) == old(RowOf(state, k))
  {
    var t := state[i, 0];
    state[i, 0] := state[i, 2];
    state[i, 2] := t;
    t := state[i, 1];
    state[i, 1] := state[i, 3];
    state[i, 3] := t;
  }

  method RotateThrice(state: array2<bv8>, i: nat)
    requires IsState(state) && i < 4
    modifies state
    ensures RowOf(state, i) == Left(Left(Left(old(RowOf(state, i)))))
    ensures forall k :: 0 <= k < 4 && k != i ==> RowOf(state, k) == old(RowOf(state, k))
  {
    var t := state[i, 0];
    state[i, 0] := state[i, 3];
    state[i, 3] := state[i, 2];
    state[i, 2] := state[i, 1];
    state[i, 1] := t;
  }

  /** ShiftRows: row 1 to the left by one, row 2 by two, row 3 by three. */
  method ShiftRows(state: array2<bv8>)
    requires IsState(state)
    modifies state
    ensures Of(state) == ShiftState(old(Of(state)))
  {
    RotateOnce(state, 1);
    RotateTwice(state, 2);
    RotateThrice(state, 3);
    assert RowOf(state, 0) == old(RowOf(state, 0));
  }

  /** InvShiftRows: to the right, which for a row of four is to the left by what is missing to four. */
  method InvShiftRows(state: array2<bv8>)
    requires IsState(state)
    modifies state
    ensures Of(state) == InvShiftState(old(Of(state)))
  {
    RotateThrice(state, 1);
    RotateTwice(state, 2);
    RotateOnce(state, 3);
    assert RowOf(state, 0) == old(RowOf(state, 0));
  }

  /** What MixColumns does to one column. */
  method MixOne(state: array2<bv8>, j: nat)
    requires IsState(state) && j < 4
    modifies state
    ensures ColumnOf(state, j) == MixColumn(old(ColumnOf(state, j)))
    ensures forall k :: 0 <= k < 4 && k != j ==> ColumnOf(state, k) == old(ColumnOf(state, k))
  {
    hide Gf, Add4;
    var c0, c1, c2, c3 := state[0, j], state[1, j], state[2, j], state[3, j];
    state[0, j] := Add4(Gf(c0).by2, Gf(c1).by3, c2, c3);
    state[1, j] := Add4(c0, Gf(c1).by2, Gf(c2).by3, c3);
    state[2, j] := Add4(c0, c1, Gf(c2).by2, Gf(c3).by3);
    state[3, j] := Add4(Gf(c0).by3, c1, c2, Gf(c3).by2);
  }

  /** MixColumns */
  method MixColumns(state: array2<bv8>)
    requires IsState(state)
    modifies state
    ensures Of(state) == MixState(old(Of(state)))
  {
    hide MixColumn;
    MixOne(state, 0);
    MixOne(state, 1);
    MixOne(state, 2);
    MixOne(state, 3);
    assert Of(state) == State(ColumnOf(state, 0), ColumnOf(state, 1), ColumnOf(state, 2), ColumnOf(state, 3));
  }

  /** What InvMixColumns does to one column. */
  method InvMixOne(state: array2<bv8>, j: nat)
    requires IsState(state) && j < 4
    modifies state
    ensures ColumnOf(state, j) == InvMixColumn(old(ColumnOf(state, j)))
    ensures forall k :: 0 <= k < 4 && k != j ==> ColumnOf(state, k) == old(ColumnOf(state, k))
  {
    hide Gf, Add4;
    var c0, c1, c2, c3 := state[0, j], state[1, j], state[2, j], state[3, j];
    state[0, j] := Add4(Gf(c0).by14, Gf(c1).by11, Gf(c2).by13, Gf(c3).by9);
    state[1, j] := Add4(Gf(c0).by9, Gf(c1).by14, Gf(c2).by11, Gf(c3).by13);
    state[2, j] := Add4(Gf(c0).by13, Gf(c1).by9, Gf(c2).by14, Gf(c3).by11);
    state[3, j] := Add4(Gf(c0).by11, Gf(c1).by13, Gf(c2).by9, Gf(c3).by14);
  }

  /** InvMixColumns */
  method InvMixColumns(state: array2<bv8>)
    requires IsState(state)
    modifies state
    ensures Of(state) == InvMixState(old(Of(state)))
  {
    hide InvMixColumn;
    InvMixOne(state, 0);
    InvMixOne(state, 1);
    InvMixOne(state, 2);
    InvMixOne(state, 3);
    assert Of(state) == State(ColumnOf(state, 0), ColumnOf(state, 1), ColumnOf(state, 2), ColumnOf(state, 3));
  }

  // ---- aes_encrypt and aes_decrypt ----

  /** The copy of a block to a state, column by column. */
  method Load(input: seq<bv8>) returns (state: array2<bv8>)
    requires |input| == BLOCK
    ensures fresh(state) && IsState(state) && Of(state) == ToState(input)
  {
    state := new bv8[4, 4]((r, c) requires 0 <= r < 4 && 0 <= c < 4 => input[4 * c + r]);
  }

  /** What the copy of a state to a block does to one column. */
  method StoreColumn(state: array2<bv8>, j: nat, output: array<bv8>)
    requires IsState(state) && output.Length == BLOCK && j < 4
    modifies output
    ensures ColumnOf(state, j) == Column(output[4 * j], output[4 * j + 1], output[4 * j + 2], output[4 * j + 3])
    ensures forall k :: 0 <= k < BLOCK && !(4 * j <= k < 4 * j + 4) ==> output[k] == old(output[k])
  {
    output[4 * j] := state[0, j];
    output[4 * j + 1] := state[1, j];
    output[4 * j + 2] := state[2, j];
    output[4 * j + 3] := state[3, j];
  }

  /** The copy of a state to a block. */
  method Store(state: array2<bv8>, output: array<bv8>)
    requires IsState(state) && output.Length == BLOCK
    modifies output
    ensures output[..] == ToBlock(Of(state))
  {
    hide ToBlock;
    StoreColumn(state, 0, output);
    StoreColumn(state, 1, output);
    StoreColumn(state, 2, output);
    StoreColumn(state, 3, output);
    assert ToState(output[..]) == Of(state);
    BlockAndState(output[..], Of(state));
  }

  /** The round key that is added first. */
  method FirstKey(state: array2<bv8>, key: seq<bv32>)
    requires IsState(state) && |key| >= 4
    modifies state
    ensures Of(state) == Forward(old(Of(state)), key, 0)
  {
    hide AddState, RoundKey;
    AddRoundKey(state, key, 0);
  }

  /** One round with mixing. */
  method Round(state: array2<bv8>, key: seq<bv32>, i: nat, ghost s: State)
    requires IsState(state) && |key| >= 4 * i + 8 && Of(state) == Forward(s, key, i)
    modifies state
    ensures Of(state) == Forward(s, key, i + 1)
  {
    hide AddState, SubState, ShiftState, MixState, RoundKey;
    SubBytes(state);
    ShiftRows(state);
    MixColumns(state);
    AddRoundKey(state, key, i + 1);
  }

  /** The last round of `rounds`. */
  method LastRound(state: array2<bv8>, key: seq<bv32>, rounds: nat, ghost s: State)
    requires IsState(state) && rounds > 0 && Schedule(key, rounds) && Of(state) == Forward(s, key, rounds - 1)
    modifies state
    ensures Of(state) == Cipher(s, key, rounds)
  {
    hide AddState, SubState, ShiftState, Forward, RoundKey;
    SubBytes(state);
    ShiftRows(state);
    AddRoundKey(state, key, rounds);
  }

  /** aes_encrypt */
  method Encrypt(input: seq<bv8>, output: array<bv8>, key: seq<bv32>, keysize: int)
    requires |input| == BLOCK == output.Length && Schedule(key, EncryptRounds(keysize))
    modifies output
    ensures output[..] == EncryptBlock(input, key, keysize)
  {
    hide Forward, Cipher, ToState, ToBlock, Of;
    ghost var s := ToState(input);
    var state := Load(input);
    FirstKey(state, key);
    Round(state, key, 0, s);
    Round(state, key, 1, s);
    Round(state, key, 2, s);
    Round(state, key, 3, s);
    Round(state, key, 4, s);
    Round(state, key, 5, s);
    Round(state, key, 6, s);
    Round(state, key, 7, s);
    Round(state, key, 8, s);
    if keysize != 128 {
      Round(state, key, 9, s);
      Round(state, key, 10, s);
      if keysize != 192 {
        Round(state, key, 11, s);
        Round(state, key, 12, s);
        LastRound(state, key, 14, s);
      } else {
        LastRound(state, key, 12, s);
      }
    } else {
      LastRound(state, key, 10, s);
    }
    Store(state, output);
  }

  /** One round undone, with mixing. */
  method InvRound(state: array2<bv8>, key: seq<bv32>, i: nat, rounds: nat, ghost s: State)
    requires IsState(state) && i + 1 < rounds && Schedule(key, rounds) && Of(state) == Backward(s, key, i + 1, rounds)
    modifies state
    ensures Of(state) == Backward(s, key, i, rounds)
  {
    hide AddState, InvSubState, InvShiftState, InvMixState, RoundKey;
    InvShiftRows(state);
    InvSubBytes(state);
    AddRoundKey(state, key, i + 1);
    InvMixColumns(state);
  }

  /** aes_decrypt */
  method Decrypt(input: seq<bv8>, output: array<bv8>, key: seq<bv32>, keysize: int)
    requires |input| == BLOCK == output.Length && Schedule(key, DecryptRounds(keysize))
    modifies output
    ensures output[..] == DecryptBlock(input, key, keysize)
  {
    hide AddState, InvSubState, InvShiftState, InvMixState, RoundKey, ToState, ToBlock, Of;
    ghost var s := ToState(input);
    var state := Load(input);
    if keysize > 128 {
      if keysize > 192 {
        AddRoundKey(state, key, 14);
        InvRound(state, key, 12, 14, s);
        InvRound(state, key, 11, 14, s);
      } else {
        AddRoundKey(state, key, 12);
      }
      InvRound(state, key, 10, DecryptRounds(keysize), s);
      InvRound(state, key, 9, DecryptRounds(keysize), s);
    } else {
      AddRoundKey(state, key, 10);
    }
    InvRound(state, key, 8, DecryptRounds(keysize), s);
    InvRound(state, key, 7, DecryptRounds(keysize), s);
    InvRound(state, key, 6, DecryptRounds(keysize), s);
    InvRound(state, key, 5, DecryptRounds(keysize), s);
    InvRound(state, key, 4, DecryptRounds(keysize), s);
    InvRound(state, key, 3, DecryptRounds(keysize), s);
    InvRound(state, key, 2, DecryptRounds(keysize), s);
    InvRound(state, key, 1, DecryptRounds(keysize), s);
    InvRound(state, key, 0, DecryptRounds(keysize), s);
    InvShiftRows(state);
    InvSubBytes(state);
    AddRoundKey(state, key, 0);
    Store(state, output);
  }

  // ---- The key schedule, section 5.2 of FIPS 197 ----

  /** SubWord, with the S-box indexed by a byte instead of its two halves. */
  function SubWord(w: bv32): bv32 {
    ColumnWord(SubColumn(WordColumn(w)))
  }

  function ColumnWord(c: Column): bv32 {
    (c.r3 as bv32) + ((c.r2 as bv32) << 8) + ((c.r1 as bv32) << 16) + ((c.r0 as bv32) << 24)
  }

  /** KE_ROTWORD */
  function RotWord(w: bv32): bv32 {
    (w << 8) | (w >> 24)
  }

  /** The table Rcon of aes_key_setup. */
  function Rcon(i: nat): bv32
    requires i < 15
  {
    [0x01000000, 0x02000000, 0x04000000, 0x08000000, 0x10000000, 0x20000000, 0x40000000, 0x80000000,
     0x1b000000, 0x36000000, 0x6c000000, 0xd8000000, 0xab000000, 0x4d000000, 0x9a000000][i]
  }

  /** x^n in GF(2^8). */
  function PowerOfX(n: nat): bv8 {
    if n == 0 then 1 else XTime(PowerOfX(n - 1))
  }

  /** The entries of Rcon are the powers of x. */
  lemma {:induction false} RconRight(i: nat)
    requires i < 15
    ensures Rcon(i) == (PowerOfX(i) as bv32) << 24
  {
    if i > 0 {
      RconRight(i - 1);
    }
  }

  /** Words of the cipher key, by key size. */
  function KeyWords(keysize: int): nat {
    if keysize == 128 then 4 else if keysize == 192 then 6 else 8
  }

  function CipherKeyWord(key: seq<bv8>, i: nat): bv32
    requires 4 * i + 4 <= |key|
  {
    ((key[4 * i] as bv32) << 24) | ((key[4 * i + 1] as bv32) << 16) | ((key[4 * i + 2] as bv32) << 8) | (key[4 * i + 3] as bv32)
  }

  function AddWord(a: bv32, b: bv32): bv32 {
    a ^ b
  }

  /** What is added to the word `nk` places back, from the word before, with a round constant for every `nk`-th word. */
  function Temp(i: nat, nk: nat, before: bv32, constant: bv32): bv32
    requires nk > 0
  {
    if i % nk == 0 then AddWord(SubWord(RotWord(before)), constant)
    else if nk > 6 && i % nk == 4 then SubWord(before)
    else before
  }

  /** Word `i` of the schedule. */
  function ScheduleWord(key: seq<bv8>, nk: nat, i: nat): bv32
    requires nk in {4, 6, 8} && |key| == 4 * nk && i < 60
  {
    if i < nk then CipherKeyWord(key, i)
    else
      AddWord(ScheduleWord(key, nk, i - nk), Temp(i, nk, ScheduleWord(key, nk, i - 1), (PowerOfX(i / nk - 1) as bv32) << 24))
  }

  /** The schedule of a cipher key: as many words as the rounds of its size need. */
  function Expand(key: seq<bv8>, keysize: int): (w: seq<bv32>)
    requires keysize in {128, 192, 256} && |key| == keysize / 8
    ensures Schedule(w, EncryptRounds(keysize))
  {
    seq(4 * (EncryptRounds(keysize) + 1), i requires 0 <= i < 4 * (EncryptRounds(keysize) + 1) => ScheduleWord(key, KeyWords(keysize), i))
  }

  lemma ExpandAt(key: seq<bv8>, keysize: int, i: nat)
    requires keysize in {128, 192, 256} && |key| == keysize / 8 && i < 4 * (EncryptRounds(keysize) + 1)
    ensures |Expand(key, keysize)| == 4 * (EncryptRounds(keysize) + 1)
    ensures Expand(key, keysize)[i] == ScheduleWord(key, KeyWords(keysize), i)
  {
    hide ScheduleWord;
  }

  lemma RconIndex(i: nat, nk: nat)
    requires nk in {4, 6, 8} && nk <= i < 60 && i % nk == 0
    ensures (i - 1) / nk == i / nk - 1 < 15
  {
  }

  /** The round constant in the table and the one of the standard, where one is used. */
  lemma SameTemp(i: nat, nk: nat, before: bv32)
    requires nk in {4, 6, 8} && nk <= i < 60
    ensures (i - 1) / nk < 15
    ensures Temp(i, nk, before, Rcon((i - 1) / nk)) == Temp(i, nk, before, (PowerOfX(i / nk - 1) as bv32) << 24)
  {
    hide SubWord, RotWord, Rcon, PowerOfX;
    if i % nk == 0 {
      RconIndex(i, nk);
      RconRight((i - 1) / nk);
    }
  }

  lemma FirstWords(key: seq<bv8>, nk: nat, i: nat)
    requires nk in {4, 6, 8} && |key| == 4 * nk && i < nk
    ensures ScheduleWord(key, nk, i) == CipherKeyWord(key, i)
  {
  }

  lemma NextWord(key: seq<bv8>, nk: nat, i: nat)
    requires nk in {4, 6, 8} && |key| == 4 * nk && nk <= i < 60
    ensures (i - 1) / nk < 15
    ensures ScheduleWord(key, nk, i) ==
      AddWord(ScheduleWord(key, nk, i - nk), Temp(i, nk, ScheduleWord(key, nk, i - 1), Rcon((i - 1) / nk)))
  {
    hide PowerOfX, CipherKeyWord, Temp, Rcon, AddWord;
    SameTemp(i, nk, ScheduleWord(key, nk, i - 1));
  }

  /** aes_key_setup: for a key size that the standard does not have it does nothing. */
  method KeySetup(key: seq<bv8>, w: array<bv32>, keysize: int)
    requires keysize in {128, 192, 256} ==> |key| == keysize / 8 && w.Length == 60
    modifies w
    ensures keysize in {128, 192, 256} ==> w[..4 * (EncryptRounds(keysize) + 1)] == Expand(key, keysize)
    ensures keysize !in {128, 192, 256} ==> w[..] == old(w[..])
  {
    hide CipherKeyWord, Temp, Rcon, AddWord, ScheduleWord;
    if keysize != 128 && keysize != 192 && keysize != 256 {
      return;
    }
    var nk, total := KeyWords(keysize), 4 * (EncryptRounds(keysize) + 1);
    for i := 0 to nk
      invariant forall k :: 0 <= k < i ==> w[k] == ScheduleWord(key, nk, k)
    {
      FirstWords(key, nk, i);
      w[i] := CipherKeyWord(key, i);
    }
    for i := nk to total
      invariant forall k :: 0 <= k < i ==> w[k] == ScheduleWord(key, nk, k)
    {
      NextWord(key, nk, i);
      var temp := Temp(i, nk, w[i - 1], Rcon((i - 1) / nk));
      w[i] := AddWord(w[i - nk], temp);
    }
  }
}
