/**
 The modes of operation of crypto/aes.c on values, for any block cipher: CBC and CBC-MAC, CTR and
 CCM, over any number of blocks.
 */
module BlockModes {
  import opened Arithmetic
  import opened Numbers
  import opened Aes
  import opened Permutations
  import AesTables

  type Block = b: Bits | |b| == BLOCK witness seq(BLOCK, _ => 0)

  /** Encryption or decryption under one key. */
  type Cipher = Block -> Block

  // ---- Adding buffers ----

  /** The first buffer with the second added to it, byte by byte. */
  function XorBits(a: Bits, b: Bits): (r: Bits)
    requires |a| <= |b|
    ensures |r| == |a|
  {
    seq(|a|, i requires 0 <= i < |a| => AesTables.Add(a[i], b[i]))
  }

  lemma XorTwice(a: Bits, b: Bits)
    requires |a| <= |b|
    ensures XorBits(XorBits(a, b), b) == a
  {
    hide AesTables.Add;
    forall i | 0 <= i < |a| ensures XorBits(XorBits(a, b), b)[i] == a[i] {
      AddedTwice(a[i], b[i]);
    }
  }

  // ---- CBC, section 6.2 of SP 800-38A ----

  function CbcEncrypt(enc: Cipher, iv: Block, s: Bits): (r: Bits)
    requires |s| % BLOCK == 0
    ensures |r| == |s|
    decreases |s|
  {
    if s == [] then []
    else
      var c := enc(XorBits(s[..BLOCK], iv));
      c + CbcEncrypt(enc, c, s[BLOCK..])
  }

  function CbcDecrypt(dec: Cipher, iv: Block, s: Bits): (r: Bits)
    requires |s| % BLOCK == 0
    ensures |r| == |s|
    decreases |s|
  {
    if s == [] then [] else XorBits(dec(s[..BLOCK]), iv) + CbcDecrypt(dec, s[..BLOCK], s[BLOCK..])
  }

  ghost predicate Inverts(dec: Cipher, enc: Cipher) {
    forall b: Block :: dec(enc(b)) == b
  }

  /** There are only finitely many blocks, so what inverts a block cipher is inverted by it. */
  lemma InvertsBothWays(dec: Cipher, enc: Cipher)
    requires Inverts(dec, enc)
    ensures Inverts(enc, dec)
  {
    hide Strings;
    var all := set b: Block | b in Strings(BLOCK);
    forall b: Block ensures enc(dec(b)) == b {
      InverseBothWays(enc, dec, all, b);
    }
  }

  /** CBC decryption inverts CBC encryption, for any number of blocks and any IV. */
  lemma {:induction false} CbcInverts(enc: Cipher, dec: Cipher, iv: Block, s: Bits)
    requires |s| % BLOCK == 0 && Inverts(dec, enc)
    ensures CbcDecrypt(dec, iv, CbcEncrypt(enc, iv, s)) == s
    decreases |s|
  {
    hide XorBits;
    if s != [] {
      var b: Block := XorBits(s[..BLOCK], iv);
      var c: Bits := enc(b);
      var t: Bits := CbcEncrypt(enc, c, s[BLOCK..]);
      assert (c + t)[..BLOCK] == c && (c + t)[BLOCK..] == t;
      assert dec(c) == b;
      XorTwice(s[..BLOCK], iv);
      CbcInverts(enc, dec, c, s[BLOCK..]);
    }
  }

  /** And the other way round: an encryption gives back what was decrypted. */
  lemma {:induction false} CbcInvertsBack(enc: Cipher, dec: Cipher, iv: Block, s: Bits)
    requires |s| % BLOCK == 0 && Inverts(enc, dec)
    ensures CbcEncrypt(enc, iv, CbcDecrypt(dec, iv, s)) == s
    decreases |s|
  {
    hide XorBits;
    if s != [] {
      var c: Block := s[..BLOCK];
      var b: Bits := XorBits(dec(c), iv);
      var t: Bits := CbcDecrypt(dec, c, s[BLOCK..]);
      assert (b + t)[..BLOCK] == b && (b + t)[BLOCK..] == t;
      XorTwice(dec(c), iv);
      assert enc(dec(c)) == c;
      CbcInvertsBack(enc, dec, c, s[BLOCK..]);
    }
  }

  /** The chaining value after some blocks: the last block of CBC, or the IV. */
  /** Block `i` of a text of whole blocks. */
  function BlockAt(s: Bits, i: nat): (b: Bits)
    requires BLOCK * i + BLOCK <= |s|
    ensures |b| == BLOCK
  {
    s[BLOCK * i..BLOCK * i + BLOCK]
  }

  lemma BlockBehind(a: Bits, s: Bits, i: nat)
    requires |a| == BLOCK && BLOCK * i + BLOCK <= |s|
    ensures BlockAt(a + s, i + 1) == BlockAt(s, i) && BlockAt(a + s, 0) == a
  {
    var k := BLOCK * i;
    assert (a + s)[k + BLOCK..k + BLOCK + BLOCK] == s[k..k + BLOCK];
  }

  /** Each block is added to the ciphertext of the one before, or the first to the IV, and encrypted. */
  lemma {:induction false} CbcBlockIs(enc: Cipher, iv: Block, s: Bits, i: nat)
    requires |s| % BLOCK == 0 && BLOCK * i + BLOCK <= |s|
    ensures var c := CbcEncrypt(enc, iv, s);
      BlockAt(c, i) == enc(XorBits(BlockAt(s, i), if i == 0 then iv else BlockAt(c, i - 1)))
    decreases i
  {
    hide XorBits, BlockAt;
    var b, rest := s[..BLOCK], s[BLOCK..];
    var first := enc(XorBits(b, iv));
    assert b + rest == s;
    if i == 0 {
      FirstBlockOf(s);
      FirstBlockOf(CbcEncrypt(enc, iv, s));
    } else {
      CbcBlockIs(enc, first, rest, i - 1);
      BlockBehind(b, rest, i - 1);
      BlockBehind(first, CbcEncrypt(enc, first, rest), i - 1);
      if i > 1 {
        BlockBehind(first, CbcEncrypt(enc, first, rest), i - 2);
      }
    }
  }

  lemma FirstBlockOf(s: Bits)
    requires |s| >= BLOCK
    ensures BlockAt(s, 0) == s[..BLOCK]
  {
  }

  function CbcMac(enc: Cipher, iv: Block, s: Bits): Block
    requires |s| % BLOCK == 0
    decreases |s|
  {
    if s == [] then iv else CbcMac(enc, enc(XorBits(s[..BLOCK], iv)), s[BLOCK..])
  }

  /** The CBC-MAC is the last block of the CBC encryption. */
  lemma {:induction false} MacIsLastBlock(enc: Cipher, iv: Block, s: Bits)
    requires |s| % BLOCK == 0 && s != []
    ensures CbcMac(enc, iv, s) == CbcEncrypt(enc, iv, s)[|s| - BLOCK..]
    decreases |s|
  {
    hide XorBits;
    var c := enc(XorBits(s[..BLOCK], iv));
    if |s| == BLOCK {
      assert s[BLOCK..] == [];
    } else {
      MacIsLastBlock(enc, c, s[BLOCK..]);
    }
  }

  // ---- Counters ----

  /** increment_iv: the last `n` bytes as a big-endian counter, plus one. */
  function Increment(b: Bits, n: int): (r: Bits)
    requires n <= |b|
    ensures |r| == |b|
    decreases if n < 0 then 0 else n
  {
    if n <= 0 then b
    else
      var last := b[|b| - 1] + 1;
      if last != 0 || n == 1 then b[|b| - 1 := last] else Increment(b[..|b| - 1], n - 1) + [last]
  }

  /** One counter is the other plus one, as far as its bytes go. */
  ghost predicate OneMore(b: Bits, r: Bits) {
    Number(r) == (Number(b) + 1) % Power256(|b|)
  }

  /** increment_iv adds one, modulo 256 to the size of the counter, and leaves the other bytes alone. */
  lemma IncrementAddsOne(b: Bits, n: nat)
    requires n <= |b|
    ensures var r, k := Increment(b, n), |b| - n;
      r[..k] == b[..k] && Number(r[k..]) == (Number(b[k..]) + 1) % Power256(n)
    decreases n
  {
    hide Number, Power256, Increment;
    IncrementIsOneMore(b, n);
  }

  lemma {:induction false} IncrementIsOneMore(b: Bits, n: nat)
    requires n <= |b|
    ensures var r, k := Increment(b, n), |b| - n;
      r[..k] == b[..k] && OneMore(b[k..], r[k..])
    decreases n
  {
    hide OneMore;
    var r, k := Increment(b, n), |b| - n;
    if n == 0 {
      assert b[k..] == [] && r == b;
      NoBytesWrap();
    } else {
      var x := b[|b| - 1];
      var t := b[k..|b| - 1];
      assert b[k..] == t + [x];
      if x + 1 != 0 {
        assert r[k..] == t + [x + 1];
        LastByteNext(t, x);
      } else if n == 1 {
        assert b[k..] == [x] && r[k..] == [0];
        OneByteWraps(x);
      } else {
        var s := b[..|b| - 1];
        IncrementIsOneMore(s, n - 1);
        var u := Increment(s, n - 1);
        assert s[k..] == t && s[..k] == b[..k];
        assert r == u + [0] && r[k..] == u[k..] + [0] && r[..k] == u[..k];
        LastByteWraps(t, x, u[k..]);
      }
    }
  }

  lemma NoBytesWrap()
    ensures OneMore([], [])
  {
    NumberStep([]);
    PowerStep(0);
    ModOne(Number([]) + 1);
  }

  lemma LastByteNext(t: Bits, x: bv8)
    requires x + 1 != 0
    ensures OneMore(t + [x], t + [x + 1])
  {
    hide Number, Power256;
    NextByte(x);
    LastByte(t, x);
    LastByte(t, x + 1);
    PowerStep(|t| + 1);
    NumberBound(t);
    NoWrap(Number(t), x as int, Power256(|t|));
  }

  lemma LastByteWraps(t: Bits, x: bv8, u: Bits)
    requires x + 1 == 0 && OneMore(t, u)
    ensures OneMore(t + [x], u + [0])
  {
    hide Number, Power256;
    NextByte(x);
    LastByte(t, x);
    LastByte(u, 0);
    PowerStep(|t| + 1);
    NumberBound(t);
    Carry(Number(t), Power256(|t|));
  }

  lemma OneByteWraps(x: bv8)
    requires x + 1 == 0
    ensures OneMore([x], [0])
  {
    hide Number, Power256;
    NextByte(x);
    NumberStep([]);
    NumberStep([x]);
    NumberStep([0]);
    PowerStep(0);
    PowerStep(1);
    assert [x][..0] == [] && [0][..0] == [];
    ModSelf(256);
  }

  lemma LastByte(t: Bits, x: bv8)
    ensures Number(t + [x]) == 256 * Number(t) + x as int
  {
    NumberStep(t + [x]);
    assert (t + [x])[..|t|] == t;
  }

  lemma ModOne(a: nat)
    ensures a % 1 == 0
  {
  }

  lemma NoWrap(high: nat, low: nat, p: nat)
    requires high < p && low < 255
    ensures (256 * high + low + 1) % (256 * p) == 256 * high + low + 1
  {
    SmallMod(256 * high + low + 1, 256 * p);
  }

  lemma Carry(high: nat, p: nat)
    requires high < p
    ensures (256 * high + 256) % (256 * p) == 256 * ((high + 1) % p)
  {
    if high + 1 < p {
      SmallMod(256 * high + 256, 256 * p);
      SmallMod(high + 1, p);
    } else {
      ModSelf(256 * p);
      ModSelf(p);
    }
  }

  // ---- CTR, section 6.5 of SP 800-38A ----

  /** The keystream block `i` of a counter. */
  function CounterBlock(iv: Block, i: nat): Block {
    if i == 0 then iv else Increment(CounterBlock(iv, i - 1), BLOCK)
  }

  /** The remainder of a number of a counter's size. */
  ghost function Wrapped(n: nat): nat {
    n % Power256(BLOCK)
  }

  lemma WholeCounterAddsOne(b: Block)
    ensures Number(Increment(b, BLOCK)) == Wrapped(Number(b) + 1)
  {
    hide Increment, Number, Power256;
    IncrementAddsOne(b, BLOCK);
    assert b[0..] == b && Increment(b, BLOCK)[0..] == Increment(b, BLOCK);
  }

  lemma WrappedStep(n: nat)
    ensures Wrapped(Wrapped(n) + 1) == Wrapped(n + 1)
  {
    hide Power256;
    AddMod(n, Power256(BLOCK));
  }

  lemma WrappedNumber(b: Block)
    ensures Wrapped(Number(b)) == Number(b)
  {
    hide Number, Power256;
    NumberBound(b);
    SmallMod(Number(b), Power256(BLOCK));
  }

  lemma {:induction false} CounterBlockSteps(iv: Block, i: nat)
    ensures Number(CounterBlock(iv, i)) == Wrapped(Number(iv) + i)
  {
    hide Increment, Number, Wrapped;
    if i == 0 {
      WrappedNumber(iv);
    } else {
      CounterBlockSteps(iv, i - 1);
      WholeCounterAddsOne(CounterBlock(iv, i - 1));
      WrappedStep(Number(iv) + (i - 1));
    }
  }

  /** Counter block `i` is the IV plus `i`, modulo 2^128. */
  lemma CounterBlockIsSum(iv: Block, i: nat)
    ensures Number(CounterBlock(iv, i)) == (Number(iv) + i) % Power256(BLOCK)
  {
    hide Number, CounterBlock, Power256;
    CounterBlockSteps(iv, i);
  }

  function Ctr(enc: Cipher, iv: Block, s: Bits): (r: Bits)
    ensures |r| == |s|
    decreases |s|
  {
    if |s| <= BLOCK then XorBits(s, enc(iv))
    else XorBits(s[..BLOCK], enc(iv)) + Ctr(enc, Increment(iv, BLOCK), s[BLOCK..])
  }

  /** CTR is its own inverse at every length. */
  lemma {:induction false} CtrInverts(enc: Cipher, iv: Block, s: Bits)
    ensures Ctr(enc, iv, Ctr(enc, iv, s)) == s
    decreases |s|
  {
    hide XorBits, Increment;
    if |s| <= BLOCK {
      XorTwice(s, enc(iv));
    } else {
      var a, t := XorBits(s[..BLOCK], enc(iv)), Ctr(enc, Increment(iv, BLOCK), s[BLOCK..]);
      assert (a + t)[..BLOCK] == a && (a + t)[BLOCK..] == t;
      XorTwice(s[..BLOCK], enc(iv));
      CtrInverts(enc, Increment(iv, BLOCK), s[BLOCK..]);
    }
  }

  lemma {:induction false} NextCounter(iv: Block, i: nat)
    ensures CounterBlock(Increment(iv, BLOCK), i) == CounterBlock(iv, i + 1)
  {
    hide Increment;
    if i > 0 {
      NextCounter(iv, i - 1);
    }
  }

  /** Byte `j` of CTR is byte `j` of the input plus byte j mod 16 of the encryption of counter block j / 16. */
  lemma {:induction false} CtrKeystream(enc: Cipher, iv: Block, s: Bits, j: nat)
    requires j < |s|
    ensures Ctr(enc, iv, s)[j] == AesTables.Add(s[j], enc(CounterBlock(iv, j / BLOCK))[j % BLOCK])
    decreases |s|
  {
    hide AesTables.Add, Increment;
    if j >= BLOCK {
      assert |s| > BLOCK;
      CtrKeystream(enc, Increment(iv, BLOCK), s[BLOCK..], j - BLOCK);
      NextCounter(iv, (j - BLOCK) / BLOCK);
      assert Ctr(enc, iv, s)[j] == Ctr(enc, Increment(iv, BLOCK), s[BLOCK..])[j - BLOCK];
      assert (j - BLOCK) / BLOCK + 1 == j / BLOCK && (j - BLOCK) % BLOCK == j % BLOCK;
    }
  }
}
