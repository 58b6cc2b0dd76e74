/** Blowfish, crypto/blowfish.c: decryption inverts encryption for any P array and any S-boxes. */
module Blowfish {
  import opened Words

  type Block = s: seq<bv8> | |s| == 8 witness seq(8, _ => 0)

  const ROUNDS := 16

  /** BLOWFISH_KEY */
  type Subkeys = p: seq<Word> | |p| == ROUNDS + 2 witness seq<Word>(ROUNDS + 2, _ => 0)
  type Sbox = t: seq<Word> | |t| == 256 witness seq<Word>(256, _ => 0)
  datatype Key = Key(p: Subkeys, s0: Sbox, s1: Sbox, s2: Sbox, s3: Sbox)

  // ---- Bytes and words ----

  function Load(s: Block): Halves {
    Halves(WordOf(s[0], s[1], s[2], s[3]), WordOf(s[4], s[5], s[6], s[7]))
  }

  function Stored(h: Halves): Block {
    [Octet(h.l, 0), Octet(h.l, 1), Octet(h.l, 2), Octet(h.l, 3), Octet(h.r, 0), Octet(h.r, 1), Octet(h.r, 2), Octet(h.r, 3)]
  }

  lemma LoadStored(h: Halves)
    ensures Load(Stored(h)) == h
  {
    hide WordOf, Octet;
    WordOfOctets(h.l);
    WordOfOctets(h.r);
  }

  lemma StoredLoad(s: Block)
    ensures Stored(Load(s)) == s
  {
    hide WordOf, Octet;
    OctetsOfWord(s[0], s[1], s[2], s[3]);
    OctetsOfWord(s[4], s[5], s[6], s[7]);
  }

  // ---- The rounds ----

  function Index(x: bv8): (i: nat)
    ensures i < 256
  {
    x as nat
  }

  function F(key: Key, x: Word): Word {
    ((key.s0[Index(Octet(x, 0))] + key.s1[Index(Octet(x, 1))]) ^ key.s2[Index(Octet(x, 2))]) + key.s3[Index(Octet(x, 3))]
  }

  /** The part of a round that both the last round and the others have. */
  function Mixed(key: Key, h: Halves, p: Word): Halves {
    var l := Xor(h.l, p);
    Halves(l, Xor(h.r, F(key, l)))
  }

  /** The rounds with some subkeys, each with its swap. */
  function Rounds(key: Key, h: Halves, ps: seq<Word>): Halves
    decreases |ps|
  {
    if ps == [] then h else Rounds(key, Swapped(Mixed(key, h, ps[0])), ps[1..])
  }

  /** Fifteen rounds, one without a swap, and the last two subkeys on the halves. */
  function Network(key: Key, h: Halves, ps: Subkeys): Halves {
    var g := Mixed(key, Rounds(key, h, ps[..ROUNDS - 1]), ps[ROUNDS - 1]);
    Halves(Xor(g.l, ps[ROUNDS + 1]), Xor(g.r, ps[ROUNDS]))
  }

  /** The subkeys in the order in which blowfish_decrypt uses them. */
  function Reversed(ps: seq<Word>): (r: seq<Word>)
    ensures |r| == |ps|
  {
    seq(|ps|, i requires 0 <= i < |ps| => ps[|ps| - 1 - i])
  }

  function Encrypt(key: Key, s: Block): Block {
    Stored(Network(key, Load(s), key.p))
  }

  function Decrypt(key: Key, s: Block): Block {
    Stored(Network(key, Load(s), Reversed(key.p)))
  }

  // ---- What the rounds do ----

  /** The four bytes of a word, the highest for the first S-box, and the sum, the exclusive or and the sum modulo 2^32. */
  lemma FOfExample(key: Key)
    requires key.s0[0x12] == 0xf0000001 && key.s1[0x34] == 0x20000003 && key.s2[0x56] == 0xff00ff00 && key.s3[0x78] == 0x80ff1234
    ensures F(key, 0x12345678) == 0x70001138
  {
    BytesOfExample();
    hide Octet;
  }

  lemma BytesOfExample()
    ensures Octet(0x12345678, 0) == 0x12 && Octet(0x12345678, 1) == 0x34 && Octet(0x12345678, 2) == 0x56 && Octet(0x12345678, 3) == 0x78
  {
  }

  /** A word with every second one of the first `n` of a list added to it, the last of them included. */
  function Added(w: Word, ps: seq<Word>, n: nat): Word
    requires n <= |ps|
  {
    if n == 0 then w else Xor(if n == 1 then w else Added(w, ps, n - 2), ps[n - 1])
  }

  lemma NothingAdded(key: Key, h: Halves, p: Word)
    requires F(key, Xor(h.l, p)) == 0
    ensures Swapped(Mixed(key, h, p)) == Halves(h.r, Xor(h.l, p))
  {
    hide F;
  }

  lemma {:induction false} RoundsWithoutF(key: Key, h: Halves, ps: seq<Word>, n: nat)
    requires n <= |ps| && forall x :: F(key, x) == 0
    ensures var g := Rounds(key, h, ps[..n]);
      && g.r == Added(if n % 2 == 0 then h.r else h.l, ps, n)
      && g.l == if n == 0 then h.l else Added(if n % 2 == 0 then h.l else h.r, ps, n - 1)
  {
    hide F, Xor, Mixed;
    if n == 0 {
      NoRounds(key, h);
    } else {
      var g := Rounds(key, h, ps[..n - 1]);
      assert ps[..n] == ps[..n - 1] + [ps[n - 1]];
      RoundsWithoutF(key, h, ps, n - 1);
      RoundsLast(key, h, ps[..n - 1], ps[n - 1]);
      NothingAdded(key, g, ps[n - 1]);
    }
  }

  /** Where the S-boxes add nothing, each half is added to every second subkey, and the halves change places. */
  lemma WithoutF(key: Key, h: Halves, ps: Subkeys)
    requires forall x :: F(key, x) == 0
    ensures Network(key, h, ps) == Halves(Added(h.r, ps, 18), Added(h.l, ps, 17))
  {
    hide F, Xor, Network, Rounds, Added;
    NetworkIsRounds(key, h, ps);
    RoundsWithoutF(key, h, ps, 16);
    OneMore(h.l, ps, 15);
    OneMore(h.r, ps, 16);
  }

  lemma OneMore(w: Word, ps: seq<Word>, n: nat)
    requires n + 2 <= |ps|
    ensures Added(w, ps, n + 2) == Xor(Added(w, ps, n), ps[n + 1])
  {
    hide Xor;
  }

  // ---- Inversion ----

  lemma {:induction false} RoundsLast(key: Key, h: Halves, ps: seq<Word>, p: Word)
    ensures Rounds(key, h, ps + [p]) == Swapped(Mixed(key, Rounds(key, h, ps), p))
    decreases |ps|
  {
    hide Mixed;
    if ps == [] {
      assert (ps + [p])[1..] == [];
    } else {
      assert (ps + [p])[1..] == ps[1..] + [p];
      RoundsLast(key, Swapped(Mixed(key, h, ps[0])), ps[1..], p);
    }
  }

  /** The network without its middle: sixteen whole rounds, a swap back, and the last two subkeys. */
  function Whitened(h: Halves, p: Word, q: Word): Halves {
    Halves(Xor(h.l, p), Xor(h.r, q))
  }

  lemma NetworkIsRounds(key: Key, h: Halves, ps: Subkeys)
    ensures Network(key, h, ps) == Whitened(Swapped(Rounds(key, h, ps[..ROUNDS])), ps[ROUNDS + 1], ps[ROUNDS])
  {
    hide Rounds, Mixed, Xor;
    assert ps[..ROUNDS] == ps[..ROUNDS - 1] + [ps[ROUNDS - 1]];
    RoundsLast(key, h, ps[..ROUNDS - 1], ps[ROUNDS - 1]);
  }

  /** One round of decryption takes back one round of encryption, with the next two subkeys on the halves. */
  lemma RoundBack(key: Key, h: Halves, p: Word, q: Word, r: Word)
    ensures Swapped(Mixed(key, Whitened(Swapped(Swapped(Mixed(key, h, p))), r, q), r)) == Whitened(Swapped(h), q, p)
  {
    hide F, Xor;
    var m := Mixed(key, h, p);
    XorTwice(m.l, r);
    XorTwice(h.r, F(key, m.l));
    XorSwap(h.r, F(key, m.l), q);
  }

  lemma XorSwap(x: Word, y: Word, z: Word)
    ensures Xor(Xor(Xor(x, y), z), y) == Xor(x, z)
  {
    XorCommutes(x, y, z);
    hide Xor;
    XorTwice(Xor(x, z), y);
  }

  /** After `k` rounds of decryption: the halves as they were before the last `k` rounds of encryption. */
  lemma {:induction false} RoundsBack(key: Key, h: Halves, ps: Subkeys, k: nat)
    requires k <= ROUNDS
    ensures Rounds(key, Whitened(Swapped(Rounds(key, h, ps[..ROUNDS])), ps[ROUNDS + 1], ps[ROUNDS]), Reversed(ps)[..k])
      == Whitened(Swapped(Rounds(key, h, ps[..ROUNDS - k])), ps[ROUNDS + 1 - k], ps[ROUNDS - k])
    decreases k
  {
    hide Mixed, Xor, Rounds, Whitened;
    var start := Whitened(Swapped(Rounds(key, h, ps[..ROUNDS])), ps[ROUNDS + 1], ps[ROUNDS]);
    var rs, j := Reversed(ps), ROUNDS - k;
    if k == 0 {
      assert rs[..0] == [];
      NoRounds(key, start);
    } else {
      RoundsBack(key, h, ps, k - 1);
      assert rs[..k] == rs[..k - 1] + [ps[j + 2]];
      RoundsLast(key, start, rs[..k - 1], ps[j + 2]);
      assert ps[..j + 1] == ps[..j] + [ps[j]];
      RoundsLast(key, h, ps[..j], ps[j]);
      RoundBack(key, Rounds(key, h, ps[..j]), ps[j], ps[j + 1], ps[j + 2]);
    }
  }

  lemma NoRounds(key: Key, h: Halves)
    ensures Rounds(key, h, []) == h
  {
  }

  lemma NetworkBack(key: Key, h: Halves, ps: Subkeys)
    ensures Network(key, Network(key, h, ps), Reversed(ps)) == h
  {
    hide Rounds, Mixed, Xor, Network;
    NetworkIsRounds(key, h, ps);
    NetworkIsRounds(key, Network(key, h, ps), Reversed(ps));
    RoundsBack(key, h, ps, ROUNDS);
    assert ps[..0] == [];
    NoRounds(key, h);
    XorTwice(h.l, ps[0]);
    XorTwice(h.r, ps[1]);
  }

  lemma {:induction false} ReversedTwice(ps: seq<Word>)
    ensures Reversed(Reversed(ps)) == ps
  {
  }

  /** Decryption inverts encryption, and encryption decryption, for every P array and all S-boxes. */
  lemma BlowfishInverts(key: Key, s: Block)
    ensures Decrypt(key, Encrypt(key, s)) == s == Encrypt(key, Decrypt(key, s))
  {
    hide Network, Load, Stored, Reversed;
    LoadStored(Network(key, Load(s), key.p));
    LoadStored(Network(key, Load(s), Reversed(key.p)));
    StoredLoad(s);
    NetworkBack(key, Load(s), key.p);
    NetworkBack(key, Load(s), Reversed(key.p));
    ReversedTwice(key.p);
  }

  // ---- The functions as they work on arrays ----

  /** blowfish_encrypt; the block may be encrypted in place. */
  method EncryptBlock(input: array<bv8>, output: array<bv8>, key: Key)
    requires input.Length == 8 && output.Length == 8
    modifies output
    ensures output[..] == Encrypt(key, old(input[..]))
  {
    hide Mixed, Xor, Load, Stored;
    var h := Load(input[..]);
    ghost var first := h;
    NoRounds(key, h);
    assert key.p[..0] == [];
    for i := 0 to ROUNDS - 1
      invariant h == Rounds(key, first, key.p[..i])
    {
      assert key.p[..i + 1] == key.p[..i] + [key.p[i]];
      RoundsLast(key, first, key.p[..i], key.p[i]);
      h := Swapped(Mixed(key, h, key.p[i]));
    }
    h := Mixed(key, h, key.p[15]);
    h := Halves(Xor(h.l, key.p[17]), Xor(h.r, key.p[16]));
    Store(h, output);
  }

  /** blowfish_decrypt: the subkeys from the last to the first. */
  method DecryptBlock(input: array<bv8>, output: array<bv8>, key: Key)
    requires input.Length == 8 && output.Length == 8
    modifies output
    ensures output[..] == Decrypt(key, old(input[..]))
  {
    hide Mixed, Xor, Load, Stored;
    var h := Load(input[..]);
    ghost var first, rs := h, Reversed(key.p);
    NoRounds(key, h);
    assert rs[..0] == [];
    for i := 18 downto 3
      invariant h == Rounds(key, first, rs[..18 - i])
    {
      assert rs[..18 - i] == rs[..17 - i] + [key.p[i]];
      RoundsLast(key, first, rs[..17 - i], key.p[i]);
      h := Swapped(Mixed(key, h, key.p[i]));
    }
    h := Mixed(key, h, key.p[2]);
    h := Halves(Xor(h.l, key.p[0]), Xor(h.r, key.p[1]));
    Store(h, output);
  }

  method Store(h: Halves, output: array<bv8>)
    requires output.Length == 8
    modifies output
    ensures output[..] == Stored(h)
  {
    var block := Stored(h);
    forall i | 0 <= i < 8 {
      output[i] := block[i];
    }
    assert output[..] == block;
  }
}
