/**
 SHA-256, crypto/sha256.c: the digest of a message, however it is cut up into updates, is the fold of
 the compression function over the padded message, sections 5.1.1 and 6.2 of FIPS 180-2.
 */
module Sha256 {
  import opened Numbers
  import opened Tables
  import opened Words

  const BLOCK := 64
  const DIGEST := 32

  type Block = b: Bits | |b| == BLOCK witness seq(BLOCK, _ => 0)
  type Hash = h: seq<Word> | |h| == 8 witness seq(8, _ => 0)

  // ---- The compression function, section 6.2.2 ----

  function Rotr(x: Word, n: bv6): Word
    requires n <= 32
  {
    (x >> n) | (x << (32 - n))
  }

  function Ch(x: Word, y: Word, z: Word): Word { (x & y) ^ (!x & z) }
  function Maj(x: Word, y: Word, z: Word): Word { Xor(Xor(And(x, y), And(x, z)), And(y, z)) }
  function Ep0(x: Word): Word { Xor(Xor(Rotr(x, 2), Rotr(x, 13)), Rotr(x, 22)) }
  function Ep1(x: Word): Word { Xor(Xor(Rotr(x, 6), Rotr(x, 11)), Rotr(x, 25)) }
  function Sig0(x: Word): Word { Xor(Xor(Rotr(x, 7), Rotr(x, 18)), x >> 3) }
  function Sig1(x: Word): Word { Xor(Xor(Rotr(x, 17), Rotr(x, 19)), x >> 10) }

  function RoundConstant(t: nat): Word
    requires t < 64
  {
    var row, i := t / 8, t % 8;
    if row == 0 then Eight(i, 0x428a2f98, 0x71374491, 0xb5c0fbcf, 0xe9b5dba5, 0x3956c25b, 0x59f111f1, 0x923f82a4, 0xab1c5ed5)
    else if row == 1 then Eight(i, 0xd807aa98, 0x12835b01, 0x243185be, 0x550c7dc3, 0x72be5d74, 0x80deb1fe, 0x9bdc06a7, 0xc19bf174)
    else if row == 2 then Eight(i, 0xe49b69c1, 0xefbe4786, 0x0fc19dc6, 0x240ca1cc, 0x2de92c6f, 0x4a7484aa, 0x5cb0a9dc, 0x76f988da)
    else if row == 3 then Eight(i, 0x983e5152, 0xa831c66d, 0xb00327c8, 0xbf597fc7, 0xc6e00bf3, 0xd5a79147, 0x06ca6351, 0x14292967)
    else if row == 4 then Eight(i, 0x27b70a85, 0x2e1b2138, 0x4d2c6dfc, 0x53380d13, 0x650a7354, 0x766a0abb, 0x81c2c92e, 0x92722c85)
    else if row == 5 then Eight(i, 0xa2bfe8a1, 0xa81a664b, 0xc24b8b70, 0xc76c51a3, 0xd192e819, 0xd6990624, 0xf40e3585, 0x106aa070)
    else if row == 6 then Eight(i, 0x19a4c116, 0x1e376c08, 0x2748774c, 0x34b0bcb5, 0x391c0cb3, 0x4ed8aa4a, 0x5b9cca4f, 0x682e6ff3)
    else Eight(i, 0x748f82ee, 0x78a5636f, 0x84c87814, 0x8cc70208, 0x90befffa, 0xa4506ceb, 0xbef9a3f7, 0xc67178f2)
  }

  /** The big-endian word of four bytes. */
  function WordAt(b: Bits, i: nat): Word
    requires i + 4 <= |b|
  {
    WordOf(b[i], b[i + 1], b[i + 2], b[i + 3])
  }

  /** A word of the message schedule. */
  function W(b: Block, t: nat): Word {
    if t < 16 then WordAt(b, 4 * t)
    else Sum4(Sig1(W(b, t - 2)), W(b, t - 7), Sig0(W(b, t - 15)), W(b, t - 16))
  }

  function Sum4(a: Word, b: Word, c: Word, d: Word): Word { a + b + c + d }

  datatype Registers = Registers(a: Word, b: Word, c: Word, d: Word, e: Word, f: Word, g: Word, h: Word)

  function Round(r: Registers, k: Word, w: Word): Registers {
    var t1 := Sum4(r.h, Ep1(r.e), Ch(r.e, r.f, r.g), k) + w;
    var t2 := Ep0(r.a) + Maj(r.a, r.b, r.c);
    Registers(t1 + t2, r.a, r.b, r.c, r.d + t1, r.e, r.f, r.g)
  }

  /** The registers after some rounds. */
  function Rounds(r: Registers, b: Block, t: nat): Registers
    requires t <= 64
  {
    if t == 0 then r else Round(Rounds(r, b, t - 1), RoundConstant(t - 1), W(b, t - 1))
  }

  function Loaded(h: Hash): Registers {
    Registers(h[0], h[1], h[2], h[3], h[4], h[5], h[6], h[7])
  }

  function Plus(h: Hash, r: Registers): Hash {
    [h[0] + r.a, h[1] + r.b, h[2] + r.c, h[3] + r.d, h[4] + r.e, h[5] + r.f, h[6] + r.g, h[7] + r.h]
  }

  function Compress(h: Hash, b: Block): Hash {
    Plus(h, Rounds(Loaded(h), b, 64))
  }

  // ---- The hash of a message ----

  function Initial(): Hash {
    [0x6a09e667, 0xbb67ae85, 0x3c6ef372, 0xa54ff53a, 0x510e527f, 0x9b05688c, 0x1f83d9ab, 0x5be0cd19]
  }

  /** The compression function over the whole blocks of a string. */
  function Fold(h: Hash, s: Bits): Hash
    decreases |s|
  {
    if |s| < BLOCK then h else Fold(Compress(h, s[..BLOCK]), s[BLOCK..])
  }

  lemma FoldNothing(h: Hash)
    ensures Fold(h, []) == h
  {
  }

  lemma {:induction false} FoldOneMore(h: Hash, s: Bits, n: nat, b: Block)
    requires |s| == BLOCK * n
    ensures Fold(h, s + b) == Compress(Fold(h, s), b)
    decreases n
  {
    hide Compress;
    var u := s + b;
    if n == 0 {
      assert u[..BLOCK] == b && u[BLOCK..] == [];
    } else {
      assert u[..BLOCK] == s[..BLOCK] && u[BLOCK..] == s[BLOCK..] + b;
      FoldOneMore(Compress(h, s[..BLOCK]), s[BLOCK..], n - 1, b);
    }
  }

  /** The padding of section 5.1.1: a one, the fewest zeros that leave room in a block for the length, and the length in bits. */
  function Padding(length: nat): Bits {
    [0x80] + Zeros((55 - length) % BLOCK) + BigEndian(8 * length, 8)
  }

  /** A padded message is whole blocks, and the padding is the shortest for that. */
  lemma PaddedIsBlocks(length: nat)
    ensures (length + |Padding(length)|) % BLOCK == 0 && 9 <= |Padding(length)| < 9 + BLOCK
  {
    var k := (55 - length) % BLOCK;
    assert |Padding(length)| == 9 + k;
    hide Padding;
    assert k == 55 - length - BLOCK * ((55 - length) / BLOCK);
    WholeBlocks(length + 9 + k, 1 - (55 - length) / BLOCK);
  }

  lemma WholeBlocks(length: nat, n: int)
    requires length == BLOCK * n
    ensures length % BLOCK == 0
  {
  }

  /** The final hash as bytes. */
  function Bytes(h: Hash): (r: Bits)
    ensures |r| == DIGEST
  {
    seq(DIGEST, i requires 0 <= i < DIGEST => Octet(h[i / 4], i % 4))
  }

  lemma AllBytes(r: Bits, h: Hash)
    requires |r| == DIGEST && forall w, j :: 0 <= w < 8 && 0 <= j < 4 ==> r[4 * w + j] == Octet(h[w], j)
    ensures r == Bytes(h)
  {
    hide Octet;
    forall k | 0 <= k < DIGEST ensures r[k] == Octet(h[k / 4], k % 4) {
      assert 4 * (k / 4) + k % 4 == k;
    }
  }

  lemma EightBytes()
    ensures Power256(8) == TWO64
  {
  }

  function Digest(message: Bits): Bits {
    Bytes(Fold(Initial(), message + Padding(|message|)))
  }

  /** Padding can be taken off again: messages of fewer than 2^64 bits that are equal once padded are equal. */
  lemma PaddingInjective(m: Bits, n: Bits)
    requires 8 * |m| < TWO64 && 8 * |n| < TWO64
    requires m + Padding(|m|) == n + Padding(|n|)
    ensures m == n
  {
    PaddedLength(m);
    PaddedLength(n);
    hide Padding, BigEndian, Power256, Number;
    EightBytes();
    BigEndianNumber(8 * |m|, 8);
    BigEndianNumber(8 * |n|, 8);
    assert m == (m + Padding(|m|))[..|m|] && n == (n + Padding(|n|))[..|n|];
  }

  /** A padded message ends with its length in bits. */
  lemma PaddedLength(m: Bits)
    ensures var s := m + Padding(|m|); |s| >= 8 && s[|s| - 8..] == BigEndian(8 * |m|, 8)
  {
  }

  // ---- The streaming context ----

  const TWO64 := 0x1_0000_0000_0000_0000
  const TWO32 := 0x1_0000_0000

  lemma LengthAdds(x: nat, y: nat)
    ensures (x % TWO64 + y) % TWO64 == (x + y) % TWO64
  {
  }

  /** The bytes of the 64-bit count of bits are those of the length of the message. */
  lemma LengthBytes(blocks: nat, datalen: nat, length: nat)
    requires length == BLOCK * blocks + datalen
    ensures BigEndian((512 * blocks % TWO64 + 8 * datalen) % TWO64, 8) == BigEndian(8 * length, 8)
  {
    hide BigEndian, Power256;
    LengthAdds(512 * blocks, 8 * datalen);
    LowBytes(8 * length, 8);
    EightBytes();
  }

  /** The padding after a tail that leaves room for the length. */
  lemma OneBlockPadding(n: nat, k: nat)
    requires k < 56
    ensures Padding(BLOCK * n + k) == [0x80] + Zeros(55 - k) + BigEndian(8 * (BLOCK * n + k), 8)
  {
    ZerosCount(n, k);
  }

  lemma TwoBlockPadding(n: nat, k: nat)
    requires 56 <= k < BLOCK
    ensures Padding(BLOCK * n + k) == [0x80] + Zeros(63 - k) + Zeros(56) + BigEndian(8 * (BLOCK * n + k), 8)
  {
    ZerosCount(n, k);
    assert Zeros(119 - k) == Zeros(63 - k) + Zeros(56);
  }

  lemma ZerosCount(n: nat, k: nat)
    requires k < BLOCK
    ensures (55 - (BLOCK * n + k)) % BLOCK == if k < 56 then 55 - k else 119 - k
  {
  }

  class Context {
    const data: array<bv8>
    var datalen: nat
    /** The bits of the blocks so far, as a 64-bit number. */
    var bitlen: nat
    const state: array<Word>
    /** What was hashed so far, and the number of blocks that were transformed. */
    ghost var message: Bits
    ghost var blocks: nat

    ghost predicate Valid()
      reads this, data, state
    {
      Holds() && datalen < BLOCK
    }

    /** The buffer is the end of the message behind what was transformed, also while it is full. */
    ghost predicate Holds()
      reads this, data, state
    {
      && data.Length == BLOCK && state.Length == 8
      && datalen <= BLOCK && |message| == BLOCK * blocks + datalen
      && data[..datalen] == message[BLOCK * blocks..]
      && bitlen == 512 * blocks % TWO64
      && state[..] == Fold(Initial(), message[..BLOCK * blocks])
    }

    /** The words of the state. */
    method Store(h: Hash)
      requires state.Length == 8
      modifies state
      ensures state[..] == h
    {
      state[0], state[1], state[2], state[3] := h[0], h[1], h[2], h[3];
      state[4], state[5], state[6], state[7] := h[4], h[5], h[6], h[7];
      assert state[..] == h;
    }

    /** sha256_init */
    constructor ()
      ensures Valid() && message == [] && fresh(data) && fresh(state)
    {
      hide Initial, Compress, Fold;
      data := new bv8[BLOCK];
      state := new Word[8];
      datalen, bitlen, message, blocks := 0, 0, [], 0;
      new;
      FoldNothing(Initial());
      Store(Initial());
    }

    /** The first loops of sha256_transform: the message schedule. */
    method Schedule() returns (m: array<Word>)
      requires data.Length == BLOCK
      ensures fresh(m) && m.Length == 64 && forall t :: 0 <= t < 64 ==> m[t] == W(data[..], t)
    {
      hide WordAt, Sig0, Sig1, Sum4;
      m := new Word[64];
      ghost var b: Block := data[..];
      var j := 0;
      for i := 0 to 16
        invariant j == 4 * i && forall t :: 0 <= t < i ==> m[t] == W(b, t)
      {
        m[i] := WordAt(data[..], j);
        j := j + 4;
      }
      for i := 16 to 64
        invariant forall t :: 0 <= t < i ==> m[t] == W(b, t)
      {
        m[i] := Sum4(Sig1(m[i - 2]), m[i - 7], Sig0(m[i - 15]), m[i - 16]);
      }
    }

    /** sha256_transform of the buffer */
    method Transform()
      requires data.Length == BLOCK && state.Length == 8
      modifies state
      ensures state[..] == Compress(old(state[..]), data[..])
    {
      hide W, Round, RoundConstant, Plus, Loaded;
      var m := Schedule();
      ghost var b: Block := data[..];
      ghost var h: Hash := state[..];
      var r := Loaded(state[..]);
      for i := 0 to 64
        invariant r == Rounds(Loaded(h), b, i)
      {
        r := Round(r, RoundConstant(i), m[i]);
      }
      Store(Plus(state[..], r));
    }

    /** One byte of sha256_update */
    method Append(x: bv8)
      requires Valid()
      modifies this, data, state
      ensures Valid() && message == old(message) + [x]
    {
      hide Compress, Initial, Fold;
      ghost var tail := data[..datalen];
      MessageGrows(message, blocks, x);
      data[datalen] := x;
      datalen := datalen + 1;
      message := message + [x];
      assert data[..datalen] == tail + [x];
      if datalen == BLOCK {
        Flush();
      }
    }

    static lemma MessageGrows(message: Bits, blocks: nat, x: bv8)
      requires BLOCK * blocks <= |message|
      ensures (message + [x])[..BLOCK * blocks] == message[..BLOCK * blocks]
      ensures (message + [x])[BLOCK * blocks..] == message[BLOCK * blocks..] + [x]
    {
    }

    /** The full buffer is transformed. */
    method Flush()
      requires Holds() && datalen == BLOCK
      modifies this`bitlen, this`datalen, this`blocks, state
      ensures Valid() && message == old(message)
    {
      hide Compress, Initial, Fold;
      ghost var done := message[..BLOCK * blocks];
      assert data[..] == data[..datalen];
      assert message == done + data[..];
      FoldOneMore(Initial(), done, blocks, data[..]);
      Transform();
      LengthAdds(512 * blocks, 512);
      bitlen := (bitlen + 512) % TWO64;
      datalen, blocks := 0, blocks + 1;
      assert message[..|message|] == message;
    }

    /** sha256_update */
    method Update(s: Bits)
      requires Valid() && |s| < TWO32
      modifies this, data, state
      ensures Valid() && message == old(message) + s
    {
      hide Valid;
      ghost var was := message;
      assert was + s[..0] == was;
      for i := 0 to |s|
        invariant Valid() && message == was + s[..i]
      {
        Append(s[i]);
        assert s[..i + 1] == s[..i] + [s[i]];
      }
      assert s[..|s|] == s;
    }

    /**
     sha256_final: the hash of the message, whose length in bits is taken modulo 2^64. The context
     cannot be used any more.
     */
    method Final(hash: array<bv8>)
      requires Valid() && hash.Length == DIGEST
      modifies this, data, state, hash
      ensures hash[..] == Digest(old(message))
    {
      hide Compress, Initial, Fold, Padding, BigEndian, Bytes;
      LengthBytes(blocks, datalen, |message|);
      ghost var first, n := FillTail();
      bitlen := (bitlen + 8 * datalen) % TWO64;
      Finish(first, n, message + Padding(|message|), hash);
    }

    /** The length, the last block and the hash; `padded` is the padded message. */
    method Finish(ghost first: Bits, ghost n: nat, ghost padded: Bits, hash: array<bv8>)
      requires data.Length == BLOCK && state.Length == 8 && hash.Length == DIGEST
      requires |first| == BLOCK * n && state[..] == Fold(Initial(), first)
      requires first + data[..56] + BigEndian(bitlen, 8) == padded
      modifies data, state, hash
      ensures hash[..] == Bytes(Fold(Initial(), padded))
    {
      hide Compress, Initial, Fold, BigEndian, Bytes;
      PutLength();
      assert first + data[..] == padded;
      FoldOneMore(Initial(), first, n, data[..]);
      Transform();
      PutHash(hash);
    }

    /**
     The padding of the buffer up to the place of the length: `first` is what is transformed by then,
     and the buffer and the length are the rest of the padded message.
     */
    method FillTail() returns (ghost first: Bits, ghost n: nat)
      requires Valid()
      modifies data, state
      ensures |first| == BLOCK * n && state[..] == Fold(Initial(), first)
      ensures first + data[..56] + BigEndian(8 * |message|, 8) == message + Padding(|message|)
    {
      hide Compress, Initial, Fold, Padding, BigEndian, Zeros;
      ghost var done := message[..BLOCK * blocks];
      ghost var tail := message[BLOCK * blocks..];
      first, n := done, blocks;
      assert message == done + tail;
      var i := datalen;
      data[i] := 0x80;
      i := i + 1;
      assert data[..i] == tail + [0x80];
      if datalen < 56 {
        ZeroTo(i, 56);
        OneBlockPadding(blocks, datalen);
      } else {
        Spill(i, done, blocks);
        first, n := done + (tail + [0x80] + Zeros(63 - datalen)), blocks + 1;
        TwoBlockPadding(blocks, datalen);
      }
    }

    /** A block of its own for a tail that leaves no room for the length. */
    method Spill(i: nat, ghost done: Bits, ghost n: nat)
      requires data.Length == BLOCK && state.Length == 8 && i <= BLOCK
      requires |done| == BLOCK * n && state[..] == Fold(Initial(), done)
      modifies data, state
      ensures state[..] == Fold(Initial(), done + (old(data[..i]) + Zeros(BLOCK - i)))
      ensures data[..56] == Zeros(56)
    {
      hide Compress, Initial, Fold;
      ZeroTo(i, BLOCK);
      assert data[..] == data[..BLOCK];
      FoldOneMore(Initial(), done, n, data[..]);
      Transform();
      ZeroTo(0, 56);
    }

    /** The stores of the length into the last eight bytes of the buffer. */
    method PutLength()
      requires data.Length == BLOCK
      modifies data
      ensures data[..] == old(data[..56]) + BigEndian(bitlen, 8)
    {
      hide BigEndian, LowByte;
      var rest := bitlen;
      EmptyNumber(rest, data[BLOCK..]);
      for j := 0 to 8
        invariant data[..56] == old(data[..56]) && BigEndian(bitlen, 8) == BigEndian(rest, 8 - j) + data[BLOCK - j..]
      {
        ghost var low := data[BLOCK - j..];
        LowByteFirst(rest, 8 - j, low);
        data[BLOCK - 1 - j] := LowByte(rest);
        assert data[BLOCK - 1 - j..] == [LowByte(rest)] + low;
        rest := rest / 256;
      }
      LastByte(rest, data[56..]);
      assert data[..] == data[..56] + data[56..];
    }

    static lemma EmptyNumber(n: nat, none: Bits)
      requires none == []
      ensures BigEndian(n, 8) + none == BigEndian(n, 8)
    {
    }

    static lemma LowByteFirst(n: nat, len: nat, low: Bits)
      requires len > 0
      ensures BigEndian(n, len) + low == BigEndian(n / 256, len - 1) + ([LowByte(n)] + low)
    {
    }

    static lemma LastByte(n: nat, all: Bits)
      ensures BigEndian(n, 0) + all == all
    {
    }

    /** The last loop of sha256_final. */
    method PutHash(hash: array<bv8>)
      requires state.Length == 8 && hash.Length == DIGEST
      modifies hash
      ensures hash[..] == Bytes(state[..])
    {
      hide Octet, Bytes;
      for i := 0 to 4
        invariant forall w, j :: 0 <= w < 8 && 0 <= j < i ==> hash[4 * w + j] == Octet(state[w], j)
      {
        for w := 0 to 8
          invariant forall v, j :: 0 <= v < 8 && 0 <= j < i ==> hash[4 * v + j] == Octet(state[v], j)
          invariant forall v :: 0 <= v < w ==> hash[4 * v + i] == Octet(state[v], i)
        {
          hash[i + 4 * w] := Octet(state[w], i);
        }
      }
      AllBytes(hash[..], state[..]);
    }

    /** The loops that put zeros into the buffer. */
    method ZeroTo(from: nat, to: nat)
      requires data.Length == BLOCK && from <= to <= BLOCK
      modifies data
      ensures data[..to] == old(data[..from]) + Zeros(to - from)
    {
      var i := from;
      while i < to
        invariant from <= i <= to && data[..i] == old(data[..from]) + Zeros(i - from)
      {
        data[i] := 0x00;
        i := i + 1;
        assert Zeros(i - from) == Zeros(i - 1 - from) + [0];
      }
    }
  }
}
