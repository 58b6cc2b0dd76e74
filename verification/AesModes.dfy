/**
 The modes of crypto/aes.c as they run, with AES as the block cipher and in place on buffers. The
 input and output buffers may be the same array, as the C code allows.
 */
module AesModes {
  import opened Aes
  import opened BlockModes
  import opened Numbers
  import C = Ccm
  import AesTables

  /** AES under one key schedule, as a block cipher. */
  function E(key: seq<bv32>, keysize: int): Cipher
    requires Schedule(key, EncryptRounds(keysize))
  {
    b => EncryptBlock(b, key, keysize)
  }

  function D(key: seq<bv32>, keysize: int): Cipher
    requires Schedule(key, DecryptRounds(keysize))
  {
    b => DecryptBlock(b, key, keysize)
  }

  lemma AesInverts(key: seq<bv32>, keysize: int)
    requires keysize in {128, 192, 256} && Schedule(key, EncryptRounds(keysize))
    ensures Inverts(D(key, keysize), E(key, keysize)) && Inverts(E(key, keysize), D(key, keysize))
  {
    hide EncryptBlock, DecryptBlock;
    forall b: Block ensures D(key, keysize)(E(key, keysize)(b)) == b {
      DecryptInverts(b, key, keysize);
    }
    InvertsBothWays(D(key, keysize), E(key, keysize));
  }

  /** aes_decrypt_cbc gives back what aes_encrypt_cbc was given, and the other way round, for every key, IV and number of blocks. */
  lemma AesCbcInverts(key: seq<bv8>, keysize: int, iv: Block, s: Bits)
    requires keysize in {128, 192, 256} && |key| == keysize / 8 && |s| % BLOCK == 0
    ensures var w := Expand(key, keysize);
      && CbcDecrypt(D(w, keysize), iv, CbcEncrypt(E(w, keysize), iv, s)) == s
      && CbcEncrypt(E(w, keysize), iv, CbcDecrypt(D(w, keysize), iv, s)) == s
  {
    hide EncryptBlock, DecryptBlock, E, D, Expand;
    var w := Expand(key, keysize);
    AesInverts(w, keysize);
    CbcInverts(E(w, keysize), D(w, keysize), iv, s);
    CbcInvertsBack(E(w, keysize), D(w, keysize), iv, s);
  }

  // ---- Buffers ----

  method EncryptOne(input: Block, key: seq<bv32>, keysize: int) returns (output: Block)
    requires Schedule(key, EncryptRounds(keysize))
    ensures output == E(key, keysize)(input)
  {
    hide EncryptBlock;
    var buffer := new bv8[BLOCK];
    Encrypt(input, buffer, key, keysize);
    output := buffer[..];
  }

  method DecryptOne(input: Block, key: seq<bv32>, keysize: int) returns (output: Block)
    requires Schedule(key, DecryptRounds(keysize))
    ensures output == D(key, keysize)(input)
  {
    hide DecryptBlock;
    var buffer := new bv8[BLOCK];
    Decrypt(input, buffer, key, keysize);
    output := buffer[..];
  }

  /** memcpy to a place in a buffer */
  method Copy(from: Bits, to: array<bv8>, at: nat)
    requires at + |from| <= to.Length
    modifies to
    ensures to[..] == old(to[..at]) + from + old(to[at + |from|..])
  {
    for i := 0 to |from|
      invariant forall k :: 0 <= k < to.Length ==> to[k] == if at <= k < at + i then from[k - at] else old(to[k])
    {
      to[at + i] := from[i];
    }
    assert to[..] == to[..at] + to[at..at + |from|] + to[at + |from|..];
  }

  /** xor_buf on `len` bytes of a buffer from `at` on */
  method XorBuf(input: Bits, out: array<bv8>, at: nat, len: nat)
    requires len <= |input| && at + len <= out.Length
    modifies out
    ensures forall k :: 0 <= k < out.Length ==>
      out[k] == if at <= k < at + len then AesTables.Add(old(out[k]), input[k - at]) else old(out[k])
  {
    hide AesTables.Add;
    for i := 0 to len
      invariant forall k :: 0 <= k < out.Length ==>
        out[k] == if at <= k < at + i then AesTables.Add(old(out[k]), input[k - at]) else old(out[k])
    {
      out[at + i] := AesTables.Add(out[at + i], input[i]);
    }
  }

  // ---- CBC ----

  /** One block further in a CBC encryption. */
  lemma CbcStep(enc: Cipher, iv: Block, s: Bits, done: Bits, now: Block)
    requires |done| < |s| && |s[|done|..]| % BLOCK == 0 && |s| % BLOCK == 0
    requires CbcEncrypt(enc, iv, s) == done + CbcEncrypt(enc, now, s[|done|..])
    ensures |done| + BLOCK <= |s| && |s[|done| + BLOCK..]| % BLOCK == 0
    ensures var c := enc(XorBits(s[|done|..|done| + BLOCK], now));
      CbcEncrypt(enc, iv, s) == done + c + CbcEncrypt(enc, c, s[|done| + BLOCK..])
  {
    hide XorBits;
    var t := s[|done|..];
    assert t[..BLOCK] == s[|done|..|done| + BLOCK] && t[BLOCK..] == s[|done| + BLOCK..];
    var c: Bits := enc(XorBits(t[..BLOCK], now));
    var more: Bits := CbcEncrypt(enc, c, t[BLOCK..]);
    assert done + (c + more) == done + c + more;
  }

  lemma SameRest(t: Bits, s: Bits, idx: nat)
    requires idx + BLOCK <= |s| == |t| && t[idx..] == s[idx..]
    ensures t[idx..idx + BLOCK] == s[idx..idx + BLOCK] && t[idx + BLOCK..] == s[idx + BLOCK..]
  {
    assert t[idx..idx + BLOCK] == t[idx..][..BLOCK] && t[idx + BLOCK..] == t[idx..][BLOCK..];
    assert s[idx..idx + BLOCK] == s[idx..][..BLOCK] && s[idx + BLOCK..] == s[idx..][BLOCK..];
  }

  lemma Behind(now: Bits, done: Bits, out: Bits, idx: nat)
    requires |done| == idx && idx + BLOCK <= |out| && now == done + out[idx..]
    ensures |now| == |out| && now[..idx] == done && now[idx + BLOCK..] == out[idx + BLOCK..]
  {
    assert now[idx + BLOCK..] == out[idx..][BLOCK..];
  }

  lemma CbcEnds(enc: Cipher, iv: Block, s: Bits, done: Bits, now: Block)
    requires |done| == |s|
    ensures CbcEncrypt(enc, now, s[|done|..]) == [] && done + [] == done
  {
    assert s[|done|..] == [];
  }

  /** The body of the loop: one block is encrypted and written; the buffers may be one. */
  method EncryptCbcBlock(input: array<bv8>, output: array<bv8>, at: nat, key: seq<bv32>, keysize: int, iv: Block) returns (c: Block)
    requires Schedule(key, EncryptRounds(keysize)) && at + BLOCK <= input.Length <= output.Length
    modifies output
    ensures c == E(key, keysize)(XorBits(old(input[at..at + BLOCK]), iv))
    ensures output[..] == old(output[..at]) + c + old(output[at + BLOCK..])
    ensures input[at + BLOCK..] == old(input[at + BLOCK..])
  {
    hide XorBits, E;
    c := EncryptOne(XorBits(input[at..at + BLOCK], iv), key, keysize);
    Copy(c, output, at);
    assert output[at + BLOCK..] == old(output[at + BLOCK..]);
    if input == output {
      assert input[at + BLOCK..] == output[at + BLOCK..];
    }
  }

  /** aes_encrypt_cbc: nothing is written unless the length is a multiple of the block size. */
  method EncryptCbc(input: array<bv8>, output: array<bv8>, key: seq<bv32>, keysize: int, iv: Block) returns (ok: bool)
    requires Schedule(key, EncryptRounds(keysize)) && input.Length <= output.Length
    modifies output
    ensures ok == (input.Length % BLOCK == 0)
    ensures ok ==> output[..] == CbcEncrypt(E(key, keysize), iv, old(input[..])) + old(output[input.Length..])
    ensures !ok ==> output[..] == old(output[..])
  {
    hide CbcEncrypt, XorBits, E;
    if input.Length % BLOCK != 0 {
      return false;
    }
    ghost var enc := E(key, keysize);
    ghost var s, out := input[..], output[..];
    ghost var goal, done: Bits := CbcEncrypt(enc, iv, s), [];
    var ivBuf := iv;
    var idx := 0;
    assert s[0..] == s && [] + goal == goal;
    while idx < input.Length
      invariant idx <= input.Length && |s[idx..]| % BLOCK == 0 && |done| == idx
      invariant goal == done + CbcEncrypt(enc, ivBuf, s[idx..])
      invariant output[..] == done + out[idx..] && input[idx..] == s[idx..]
    {
      CbcStep(enc, iv, s, done, ivBuf);
      SameRest(input[..], s, idx);
      Behind(output[..], done, out, idx);
      ivBuf := EncryptCbcBlock(input, output, idx, key, keysize, ivBuf);
      idx := idx + BLOCK;
      done := done + ivBuf;
    }
    CbcEnds(enc, iv, s, done, ivBuf);
    ok := true;
  }

  lemma CbcBackStep(dec: Cipher, iv: Block, s: Bits, done: Bits, now: Block)
    requires |done| < |s| && |s[|done|..]| % BLOCK == 0 && |s| % BLOCK == 0
    requires CbcDecrypt(dec, iv, s) == done + CbcDecrypt(dec, now, s[|done|..])
    ensures |done| + BLOCK <= |s| && |s[|done| + BLOCK..]| % BLOCK == 0
    ensures CbcDecrypt(dec, iv, s) == done + XorBits(dec(s[|done|..|done| + BLOCK]), now)
      + CbcDecrypt(dec, s[|done|..|done| + BLOCK], s[|done| + BLOCK..])
  {
    hide XorBits;
    var t := s[|done|..];
    assert t[..BLOCK] == s[|done|..|done| + BLOCK] && t[BLOCK..] == s[|done| + BLOCK..];
    var b: Block := t[..BLOCK];
    var p: Bits := XorBits(dec(b), now);
    var more: Bits := CbcDecrypt(dec, b, t[BLOCK..]);
    assert done + (p + more) == done + p + more;
  }

  /** The body of the loop: one block is decrypted and written; the buffers may be one. */
  method DecryptCbcBlock(input: array<bv8>, output: array<bv8>, at: nat, key: seq<bv32>, keysize: int, iv: Block)
    requires Schedule(key, DecryptRounds(keysize)) && at + BLOCK <= input.Length <= output.Length
    modifies output
    ensures output[..] == old(output[..at]) + XorBits(D(key, keysize)(old(input[at..at + BLOCK])), iv) + old(output[at + BLOCK..])
    ensures input[at + BLOCK..] == old(input[at + BLOCK..])
  {
    hide XorBits, D;
    var bufOut := DecryptOne(input[at..at + BLOCK], key, keysize);
    Copy(XorBits(bufOut, iv), output, at);
    assert output[at + BLOCK..] == old(output[at + BLOCK..]);
    if input == output {
      assert input[at + BLOCK..] == output[at + BLOCK..];
    }
  }

  /** aes_decrypt_cbc */
  method DecryptCbc(input: array<bv8>, output: array<bv8>, key: seq<bv32>, keysize: int, iv: Block) returns (ok: bool)
    requires Schedule(key, DecryptRounds(keysize)) && input.Length <= output.Length
    modifies output
    ensures ok == (input.Length % BLOCK == 0)
    ensures ok ==> output[..] == CbcDecrypt(D(key, keysize), iv, old(input[..])) + old(output[input.Length..])
    ensures !ok ==> output[..] == old(output[..])
  {
    hide CbcDecrypt, XorBits, D;
    if input.Length % BLOCK != 0 {
      return false;
    }
    ghost var dec := D(key, keysize);
    ghost var s, out := input[..], output[..];
    ghost var goal, done: Bits := CbcDecrypt(dec, iv, s), [];
    var ivBuf := iv;
    var idx := 0;
    assert s[0..] == s && [] + goal == goal;
    while idx < input.Length
      invariant idx <= input.Length && |s[idx..]| % BLOCK == 0 && |done| == idx
      invariant goal == done + CbcDecrypt(dec, ivBuf, s[idx..])
      invariant output[..] == done + out[idx..] && input[idx..] == s[idx..]
    {
      CbcBackStep(dec, iv, s, done, ivBuf);
      var bufIn: Block := input[idx..idx + BLOCK];
      SameRest(input[..], s, idx);
      Behind(output[..], done, out, idx);
      DecryptCbcBlock(input, output, idx, key, keysize, ivBuf);
      done := done + XorBits(dec(bufIn), ivBuf);
      ivBuf := bufIn;
      idx := idx + BLOCK;
    }
    CbcBackEnds(dec, iv, s, done, ivBuf);
    ok := true;
  }

  lemma CbcBackEnds(dec: Cipher, iv: Block, s: Bits, done: Bits, now: Block)
    requires |done| == |s|
    ensures CbcDecrypt(dec, now, s[|done|..]) == [] && done + [] == done
  {
    assert s[|done|..] == [];
  }

  /**
   aes_encrypt_cbc_mac: the last chaining value, and nothing for other lengths than whole blocks. Of
   no blocks at all it gives `unset`, what the output variable held before.
   */
  method EncryptCbcMac(input: Bits, key: seq<bv32>, keysize: int, iv: Block, unset: Block) returns (ok: bool, mac: Block)
    requires Schedule(key, EncryptRounds(keysize))
    ensures ok == (|input| % BLOCK == 0)
    ensures ok ==> mac == if input == [] then unset else CbcMac(E(key, keysize), iv, input)
  {
    hide XorBits, E;
    mac := unset;
    if |input| % BLOCK != 0 {
      return false, mac;
    }
    var ivBuf: Block := iv;
    var idx := 0;
    assert input[0..] == input;
    while idx < |input|
      invariant idx <= |input| && idx % BLOCK == 0
      invariant (idx > 0 ==> mac == ivBuf) && (idx == 0 ==> mac == unset)
      invariant CbcMac(E(key, keysize), iv, input) == CbcMac(E(key, keysize), ivBuf, input[idx..])
    {
      assert input[idx..][..BLOCK] == input[idx..idx + BLOCK] && input[idx..][BLOCK..] == input[idx + BLOCK..];
      mac := EncryptOne(XorBits(input[idx..idx + BLOCK], ivBuf), key, keysize);
      ivBuf := mac;
      idx := idx + BLOCK;
    }
    assert input[idx..] == [];
    ok := true;
  }

  // ---- CTR ----

  /** increment_iv */
  method IncrementIv(iv: array<bv8>, counterSize: int)
    requires iv.Length == BLOCK && counterSize <= BLOCK
    modifies iv
    ensures iv[..] == Increment(old(iv[..]), counterSize)
  {
    var idx := BLOCK - 1;
    ghost var was := iv[..];
    while idx >= BLOCK - counterSize
      invariant idx < BLOCK && if counterSize > 0 then idx >= BLOCK - counterSize else idx == BLOCK - 1
      invariant forall j :: 0 <= j <= idx ==> iv[j] == was[j]
      invariant forall j :: idx < j < BLOCK ==> iv[j] == 0 && was[j] + 1 == 0
    {
      iv[idx] := iv[idx] + 1;
      if iv[idx] != 0 || idx == BLOCK - counterSize {
        IncrementEnds(was, counterSize, idx, iv[..]);
        return;
      }
      idx := idx - 1;
    }
  }

  /** The carry goes through bytes that become zero and stops where one does not, or at the end of the counter. */
  lemma {:induction false} IncrementEnds(was: Bits, n: int, idx: nat, now: Bits)
    requires |was| == |now| && 0 < n <= |was| && |was| - n <= idx < |was|
    requires forall j :: 0 <= j < idx ==> now[j] == was[j]
    requires now[idx] == was[idx] + 1 && (now[idx] != 0 || idx == |was| - n)
    requires forall j :: idx < j < |was| ==> now[j] == 0 && was[j] + 1 == 0
    ensures Increment(was, n) == now
    decreases |was|
  {
    var k := |was| - 1;
    if idx < k {
      IncrementEnds(was[..k], n - 1, idx, now[..k]);
      assert now == now[..k] + [now[k]];
    } else {
      assert was[k := was[k] + 1] == now;
    }
  }

  /** The bytes of block `i` of CTR. */
  lemma CtrBlock(enc: Cipher, iv: Block, s: Bits, i: nat, n: nat)
    requires n <= BLOCK && BLOCK * i + n <= |s|
    ensures forall k :: 0 <= k < n ==>
      Ctr(enc, iv, s)[BLOCK * i + k] == AesTables.Add(s[BLOCK * i + k], enc(CounterBlock(iv, i))[k])
  {
    hide Ctr, AesTables.Add, CounterBlock;
    forall k | 0 <= k < n
      ensures Ctr(enc, iv, s)[BLOCK * i + k] == AesTables.Add(s[BLOCK * i + k], enc(CounterBlock(iv, i))[k])
    {
      CtrKeystream(enc, iv, s, BLOCK * i + k);
      assert (BLOCK * i + k) / BLOCK == i && (BLOCK * i + k) % BLOCK == k;
    }
  }

  /** The encryption of block `i` in aes_encrypt_ctr. */
  method CtrOne(out: array<bv8>, at: nat, idx: nat, n: nat, counter: Block, key: seq<bv32>, keysize: int,
                ghost iv: Block, ghost s: Bits, ghost i: nat)
    requires Schedule(key, EncryptRounds(keysize)) && idx == BLOCK * i && n <= BLOCK && idx + n <= |s| && at + idx + n <= out.Length
    requires counter == CounterBlock(iv, i)
    requires forall k :: idx <= k < idx + n ==> out[at + k] == s[k]
    modifies out
    ensures forall k :: 0 <= k < out.Length ==>
      out[k] == if at + idx <= k < at + idx + n then Ctr(E(key, keysize), iv, s)[k - at] else old(out[k])
  {
    hide Ctr, E, AesTables.Add, CounterBlock;
    var outBuf := EncryptOne(counter, key, keysize);
    CtrBlock(E(key, keysize), iv, s, i, n);
    XorBuf(outBuf, out, at + idx, n);
    forall k | at + idx <= k < at + idx + n ensures out[k] == Ctr(E(key, keysize), iv, s)[k - at] {
      var j := k - at - idx;
      assert Ctr(E(key, keysize), iv, s)[idx + j] == AesTables.Add(s[idx + j], outBuf[j]);
    }
  }

  lemma CounterStep(iv: Block, i: nat)
    ensures CounterBlock(iv, 0) == iv
    ensures CounterBlock(iv, i + 1) == Increment(CounterBlock(iv, i), BLOCK)
  {
  }

  /** A part of a buffer is replaced. */
  lemma Replaced(was: Bits, now: Bits, at: nat, part: Bits)
    requires |now| == |was| && at + |part| <= |was|
    requires forall k :: 0 <= k < |was| ==> now[k] == if at <= k < at + |part| then part[k - at] else was[k]
    ensures now == was[..at] + part + was[at + |part|..]
  {
  }

  /** aes_encrypt_ctr on a part of a buffer, in place */
  method CtrInPlace(out: array<bv8>, at: nat, len: nat, key: seq<bv32>, keysize: int, iv: Block)
    requires Schedule(key, EncryptRounds(keysize)) && at + len <= out.Length
    modifies out
    ensures out[..] == old(out[..at]) + Ctr(E(key, keysize), iv, old(out[at..at + len])) + old(out[at + len..])
  {
    hide Ctr, E, Increment, CounterBlock;
    ghost var was := out[..];
    ghost var s := was[at..at + len];
    ghost var goal: Bits := Ctr(E(key, keysize), iv, s);
    var ivBuf := new bv8[BLOCK](i requires 0 <= i < BLOCK => iv[i]);
    CounterStep(iv, 0);
    assert ivBuf[..] == iv;
    ghost var i := 0;
    var idx := 0;
    if len > BLOCK {
      while idx < len - BLOCK
        invariant idx == BLOCK * i && idx < len && fresh(ivBuf) && ivBuf[..] == CounterBlock(iv, i)
        invariant forall k :: 0 <= k < out.Length ==> out[k] == if at <= k < at + idx then goal[k - at] else was[k]
      {
        CounterStep(iv, i);
        CtrOne(out, at, idx, BLOCK, ivBuf[..], key, keysize, iv, s, i);
        IncrementIv(ivBuf, BLOCK);
        i := i + 1;
        idx := idx + BLOCK;
      }
    }
    CtrOne(out, at, idx, len - idx, ivBuf[..], key, keysize, iv, s, i);
    Replaced(was, out[..], at, goal);
  }

  /** aes_encrypt_ctr on the first `len` bytes of a buffer, in place */
  method CtrFront(out: array<bv8>, len: nat, key: seq<bv32>, keysize: int, iv: Block)
    requires Schedule(key, EncryptRounds(keysize)) && len <= out.Length
    modifies out
    ensures out[..] == Ctr(E(key, keysize), iv, old(out[..len])) + old(out[len..])
  {
    hide Ctr, E;
    assert out[0..0 + len] == out[..len] && out[0 + len..] == out[len..];
    ghost var c: Bits := Ctr(E(key, keysize), iv, out[..len]);
    assert out[..0] + c == c;
    CtrInPlace(out, 0, len, key, keysize, iv);
  }

  /** aes_encrypt_ctr and aes_decrypt_ctr */
  method EncryptCtr(input: array<bv8>, output: array<bv8>, key: seq<bv32>, keysize: int, iv: Block)
    requires Schedule(key, EncryptRounds(keysize)) && input.Length <= output.Length
    modifies output
    ensures output[..] == Ctr(E(key, keysize), iv, old(input[..])) + old(output[input.Length..])
  {
    hide Ctr, E;
    ghost var s, rest := input[..], output[input.Length..];
    if input != output {
      Copy(input[..], output, 0);
    }
    assert output[..input.Length] == s && output[input.Length..] == rest;
    CtrFront(output, input.Length, key, keysize, iv);
  }

  // ---- CCM ----

  /** The MAC in aes_encrypt_ccm and aes_decrypt_ccm, over the formatted data. */
  method ComputeMac(macLen: nat, nonce: Bits, assoc: Bits, payload: Bits, key: seq<bv32>, keysize: int) returns (mac: Bits)
    requires Schedule(key, EncryptRounds(keysize)) && C.Fits(macLen, nonce)
    ensures mac == C.Mac(E(key, keysize), macLen, nonce, assoc, payload)
  {
    hide E, CbcMac, C.FirstBlock, C.FormatAssoc, C.FormatPayload;
    var buf: Bits := C.FirstBlock(|assoc|, |payload|, macLen, nonce);
    buf := buf + C.FormatAssoc(assoc);
    buf := buf + C.FormatPayload(payload);
    assert buf == C.Format(macLen, nonce, assoc, payload);
    var _, last := EncryptCbcMac(buf, key, keysize, Zeros(BLOCK), Zeros(BLOCK));
    mac := last[..macLen];
  }

  /** The counter for the payload, in both directions. */
  method CounterForPayload(macLen: nat, nonce: Bits) returns (tempIv: Block)
    requires C.Fits(macLen, nonce)
    ensures tempIv == C.PayloadCounter(macLen, nonce)
  {
    hide C.FirstCounter, Increment;
    var counter := C.FirstCounter(nonce);
    var buffer := new bv8[BLOCK](i requires 0 <= i < BLOCK => counter[i]);
    assert buffer[..] == counter;
    IncrementIv(buffer, BLOCK - 1 - macLen);
    tempIv := buffer[..];
  }

  /** The parts of a buffer. */
  lemma Three(out: Bits, a: Bits, b: Bits, c: Bits)
    requires out == a + b + c
    ensures out[..|a|] == a && out[|a|..|a| + |b|] == b && out[|a| + |b|..] == c && out[|a|..] == b + c
    ensures forall x: Bits :: x + (b + c) == x + b + c
  {
  }

  /** The two copies, one behind the other. */
  method CopyBoth(payload: Bits, mac: Bits, out: array<bv8>)
    requires |payload| + |mac| <= out.Length
    modifies out
    ensures out[..] == payload + mac + old(out[|payload| + |mac|..])
  {
    ghost var was := out[..];
    Copy(payload, out, 0);
    Copy(mac, out, |payload|);
    BothWritten(was, payload, mac);
  }

  lemma BothWritten(was: Bits, payload: Bits, mac: Bits)
    requires |payload| + |mac| <= |was|
    ensures var first := was[..0] + payload + was[|payload|..];
      first[..|payload|] + mac + first[|payload| + |mac|..] == payload + mac + was[|payload| + |mac|..]
  {
    var first := was[..0] + payload + was[|payload|..];
    assert first[..|payload|] == payload;
    assert first[|payload| + |mac|..] == was[|payload| + |mac|..];
  }

  /** The last steps of aes_encrypt_ccm: payload and MAC are copied behind each other and encrypted in place. */
  method WriteSealed(payload: Bits, mac: Bits, out: array<bv8>, key: seq<bv32>, keysize: int, tempIv: Block, counter: Block)
    requires Schedule(key, EncryptRounds(keysize)) && |payload| + |mac| <= out.Length
    modifies out
    ensures out[..] == Ctr(E(key, keysize), tempIv, payload) + Ctr(E(key, keysize), counter, mac) + old(out[|payload| + |mac|..])
  {
    hide E, Ctr;
    ghost var rest := out[|payload| + |mac|..];
    CopyBoth(payload, mac, out);
    Three(out[..], payload, mac, rest);
    CtrFront(out, |payload|, key, keysize, tempIv);
    ghost var a: Bits := Ctr(E(key, keysize), tempIv, payload);
    assert out[..] == a + mac + rest;
    Three(out[..], a, mac, rest);
    CtrInPlace(out, |payload|, |mac|, key, keysize, counter);
  }

  /** aes_encrypt_ccm */
  method EncryptCcm(payload: Bits, assoc: Bits, nonce: Bits, out: array<bv8>, macLen: nat, keyStr: Bits, keysize: int)
    returns (ok: bool, outLen: nat)
    requires keysize in {128, 192, 256} && |keyStr| == keysize / 8 && |payload| + macLen <= out.Length
    modifies out
    ensures ok == C.Accepted(macLen, nonce, assoc)
    ensures ok ==> outLen == |payload| + macLen
    ensures ok ==> out[..] == C.Seal(E(Expand(keyStr, keysize), keysize), macLen, nonce, assoc, payload) + old(out[outLen..])
    ensures !ok ==> out[..] == old(out[..])
  {
    hide E, Expand, Ctr, C.Mac, C.PayloadCounter, C.FirstCounter;
    outLen := 0;
    if macLen != 4 && macLen != 6 && macLen != 8 && macLen != 10 && macLen != 12 && macLen != 14 && macLen != 16 {
      return false, outLen;
    }
    if |nonce| < 7 || |nonce| > 13 {
      return false, outLen;
    }
    if |assoc| > 32768 {
      return false, outLen;
    }
    var schedule := new bv32[60];
    KeySetup(keyStr, schedule, keysize);
    var key := schedule[..4 * (EncryptRounds(keysize) + 1)];
    var mac := ComputeMac(macLen, nonce, assoc, payload, key, keysize);
    var tempIv := CounterForPayload(macLen, nonce);
    WriteSealed(payload, mac, out, key, keysize, tempIv, C.FirstCounter(nonce));
    ok, outLen := true, |payload| + macLen;
  }

  /** The decryption of the MAC in aes_decrypt_ccm. */
  method DecryptMac(sealed: Bits, nonce: Bits, key: seq<bv32>, keysize: int) returns (mac: Bits)
    requires Schedule(key, EncryptRounds(keysize)) && |nonce| < BLOCK
    ensures mac == Ctr(E(key, keysize), C.FirstCounter(nonce), sealed)
  {
    hide E, Ctr, C.FirstCounter;
    var buffer := new bv8[|sealed|](i requires 0 <= i < |sealed| => sealed[i]);
    assert buffer[..|sealed|] == sealed && buffer[|sealed|..] == [];
    CtrFront(buffer, |sealed|, key, keysize, C.FirstCounter(nonce));
    mac := buffer[..];
  }

  /** The decryption of the payload in aes_decrypt_ccm. */
  method DecryptPayload(sealed: Bits, macLen: nat, nonce: Bits, plaintext: array<bv8>, key: seq<bv32>, keysize: int)
    requires Schedule(key, EncryptRounds(keysize)) && C.Fits(macLen, nonce) && |sealed| <= plaintext.Length
    modifies plaintext
    ensures plaintext[..] == Ctr(E(key, keysize), C.PayloadCounter(macLen, nonce), sealed) + old(plaintext[|sealed|..])
  {
    hide E, Ctr, C.PayloadCounter;
    ghost var rest := plaintext[|sealed|..];
    Copy(sealed, plaintext, 0);
    assert plaintext[..] == sealed + rest;
    assert plaintext[..|sealed|] == sealed && plaintext[|sealed|..] == rest;
    var tempIv := CounterForPayload(macLen, nonce);
    CtrFront(plaintext, |sealed|, key, keysize, tempIv);
  }

  /** aes_decrypt_ccm; `check` is whether the caller asked for authentication. */
  method DecryptCcm(ciphertext: Bits, assoc: Bits, nonce: Bits, plaintext: array<bv8>, macLen: nat, check: bool,
      keyStr: Bits, keysize: int)
    returns (ok: bool, plaintextLen: nat, macAuth: bool)
    requires keysize in {128, 192, 256} && |keyStr| == keysize / 8 && C.Fits(macLen, nonce)
    requires |ciphertext| - macLen <= plaintext.Length
    modifies plaintext
    ensures var r := C.Open(E(Expand(keyStr, keysize), keysize), macLen, nonce, assoc, ciphertext, check);
      && ok == !r.TooShort? && plaintextLen == |C.TextOf(r)| <= plaintext.Length
      && (ok && check ==> macAuth == r.Authentic?)
      && plaintext[..] == C.TextOf(r) + old(plaintext[plaintextLen..])
  {
    hide E, Expand, Ctr, C.Mac, C.PayloadCounter, C.FirstCounter;
    plaintextLen, macAuth := 0, false;
    if |ciphertext| <= macLen {
      assert [] + plaintext[0..] == plaintext[..];
      return false, plaintextLen, macAuth;
    }
    var schedule := new bv32[60];
    KeySetup(keyStr, schedule, keysize);
    var key := schedule[..4 * (EncryptRounds(keysize) + 1)];
    plaintextLen := |ciphertext| - macLen;
    ghost var rest := plaintext[plaintextLen..];
    DecryptPayload(ciphertext[..plaintextLen], macLen, nonce, plaintext, key, keysize);
    assert plaintext[plaintextLen..] == rest;
    if check {
      macAuth := Authenticate(ciphertext[plaintextLen..], macLen, nonce, assoc, plaintext, plaintextLen, key, keysize);
    }
    ok := true;
  }

  /** The check of the MAC; the plaintext is wiped if it fails. */
  method Authenticate(sealed: Bits, macLen: nat, nonce: Bits, assoc: Bits, plaintext: array<bv8>, len: nat, key: seq<bv32>, keysize: int)
    returns (macAuth: bool)
    requires Schedule(key, EncryptRounds(keysize)) && C.Fits(macLen, nonce) && len <= plaintext.Length
    modifies plaintext
    ensures macAuth == (Ctr(E(key, keysize), C.FirstCounter(nonce), sealed) == C.Mac(E(key, keysize), macLen, nonce, assoc, old(plaintext[..len])))
    ensures plaintext[..] == (if macAuth then old(plaintext[..len]) else Zeros(len)) + old(plaintext[len..])
  {
    hide E, Ctr, C.Mac, C.FirstCounter;
    var mac := DecryptMac(sealed, nonce, key, keysize);
    var macBuf := ComputeMac(macLen, nonce, assoc, plaintext[..len], key, keysize);
    macAuth := mac == macBuf;
    if !macAuth {
      Copy(Zeros(len), plaintext, 0);
    }
    assert macAuth ==> plaintext[..] == plaintext[..len] + plaintext[len..];
  }

  /** What was encrypted under a key is decrypted under it: the theorem for the code's own key setup. */
  lemma CcmInverts(keyStr: Bits, keysize: int, macLen: nat, nonce: Bits, assoc: Bits, payload: Bits)
    requires keysize in {128, 192, 256} && |keyStr| == keysize / 8 && C.Accepted(macLen, nonce, assoc) && payload != []
    ensures var enc := E(Expand(keyStr, keysize), keysize);
      C.Open(enc, macLen, nonce, assoc, C.Seal(enc, macLen, nonce, assoc, payload), true) == C.Authentic(payload)
  {
    hide E, Expand, C.Open, C.Seal;
    C.OpenInvertsSeal(E(Expand(keyStr, keysize), keysize), macLen, nonce, assoc, payload);
  }
}
