/**
 CCM as crypto/aes.c does it, on values and for any block cipher: what it decrypts of what it
 encrypts, and where its formatting is that of SP 800-38C.
 */
module Ccm {
  import opened Aes
  import opened Arithmetic
  import opened Numbers
  import opened BlockModes
  import AesTables

  /** The parameters that aes_encrypt_ccm accepts. */
  predicate Accepted(macLen: nat, nonce: Bits, assoc: Bits) {
    macLen in {4, 6, 8, 10, 12, 14, 16} && 7 <= |nonce| <= 13 && |assoc| <= 32768
  }

  /** What fits the buffers of the code: decryption asks its callers for no more. */
  predicate Fits(macLen: nat, nonce: Bits) {
    macLen <= BLOCK && |nonce| < BLOCK
  }

  // ---- Formatting ----

  /** payload_len_store_size: the bytes for the payload length, or for the counter. */
  function StoreSize(nonce: Bits): (q: nat)
    requires |nonce| < BLOCK
    ensures q == BLOCK - 1 - |nonce|
  {
    BLOCK - 1 - |nonce|
  }

  /** The low three bits of an integer in two's complement. */
  function LowBits(n: int): bv8 {
    (n % 8) as bv8
  }

  /** ccm_prepare_first_ctr_blk */
  function FirstCounter(nonce: Bits): (b: Block)
    requires |nonce| < BLOCK
  {
    [LowBits(StoreSize(nonce) - 1)] + nonce + Zeros(StoreSize(nonce))
  }

  /** The field of the MAC's length, with a division that rounds to zero. */
  function MacField(macLen: nat): int {
    if macLen == 0 then -1 else if macLen == 1 then 0 else (macLen - 2) / 2
  }

  function Flags(assocLen: nat, macLen: nat, q: nat): bv8 {
    ((LowBits(MacField(macLen)) << 3) | LowBits(q - 1)) + (if assocLen > 0 then 0x40 else 0)
  }

  /** ccm_prepare_first_format_blk: only the low 16 bits of the payload length are stored, over the end of the nonce if it is so long. */
  function FirstBlock(assocLen: nat, payloadLen: nat, macLen: nat, nonce: Bits): (b: Block)
    requires |nonce| < BLOCK
  {
    ([Flags(assocLen, macLen, StoreSize(nonce))] + nonce + Zeros(StoreSize(nonce)))
      [BLOCK - 1 := LowByte(payloadLen)][BLOCK - 2 := LowByte(payloadLen / 256)]
  }

  /** The length field behind a nonce that leaves room for it. */
  lemma FirstBlockParts(assocLen: nat, payloadLen: nat, macLen: nat, nonce: Bits)
    requires |nonce| <= 13
    ensures FirstBlock(assocLen, payloadLen, macLen, nonce) ==
      [Flags(assocLen, macLen, StoreSize(nonce))] + nonce + (Zeros(StoreSize(nonce) - 2) + [LowByte(payloadLen / 256), LowByte(payloadLen)])
  {
    hide Flags, LowByte;
  }

  lemma PaddedLength(n: nat)
    ensures (n + (BLOCK - n % BLOCK)) % BLOCK == 0
  {
  }

  /** ccm_format_assoc_data: the padding is never empty. */
  function FormatAssoc(assoc: Bits): (r: Bits)
    ensures |r| % BLOCK == 0 && |r| <= |assoc| + 18
  {
    PaddedLength(2 + |assoc|);
    [LowByte(|assoc| / 256), LowByte(|assoc|)] + assoc + Zeros(BLOCK - (2 + |assoc|) % BLOCK)
  }

  /** The zeros that fill the last block. */
  function Fill(n: nat): (p: nat)
    ensures (n + p) % BLOCK == 0 && p < BLOCK
  {
    if n % BLOCK == 0 then 0 else BLOCK - n % BLOCK
  }

  /** ccm_format_payload_data */
  function FormatPayload(payload: Bits): (r: Bits)
    ensures |r| % BLOCK == 0 && |r| <= |payload| + 15
  {
    payload + Zeros(Fill(|payload|))
  }

  /** What the MAC is computed over: always whole blocks, and never more than 49 bytes beyond the data. */
  function Format(macLen: nat, nonce: Bits, assoc: Bits, payload: Bits): (r: Bits)
    requires |nonce| < BLOCK
    ensures |r| % BLOCK == 0 && BLOCK < |r| <= |payload| + |assoc| + 49
  {
    var a, p := FormatAssoc(assoc), FormatPayload(payload);
    WholeBlocks(|a|, |p|);
    FirstBlock(|assoc|, |payload|, macLen, nonce) + a + p
  }

  lemma WholeBlocks(a: nat, b: nat)
    requires a % BLOCK == 0 && b % BLOCK == 0
    ensures (BLOCK + a + b) % BLOCK == 0
  {
    var i, j := a / BLOCK, b / BLOCK;
    assert BLOCK + a + b == BLOCK * (1 + i + j);
    ModIs(1 + i + j, 0, BLOCK);
  }

  // ---- Encryption and decryption ----

  function Mac(enc: Cipher, macLen: nat, nonce: Bits, assoc: Bits, payload: Bits): (mac: Bits)
    requires Fits(macLen, nonce)
    ensures |mac| == macLen
  {
    CbcMac(enc, Zeros(BLOCK), Format(macLen, nonce, assoc, payload))[..macLen]
  }

  /** The counter for the payload: the first is incremented in a field whose size the code takes from the MAC's length. */
  function PayloadCounter(macLen: nat, nonce: Bits): Block
    requires |nonce| < BLOCK
  {
    Increment(FirstCounter(nonce), BLOCK - 1 - macLen)
  }

  /** The ciphertext of aes_encrypt_ccm: the encrypted payload and the encrypted MAC. */
  function Seal(enc: Cipher, macLen: nat, nonce: Bits, assoc: Bits, payload: Bits): (c: Bits)
    requires Fits(macLen, nonce)
    ensures |c| == |payload| + macLen
  {
    Ctr(enc, PayloadCounter(macLen, nonce), payload) +
    Ctr(enc, FirstCounter(nonce), Mac(enc, macLen, nonce, assoc, payload))
  }

  /** The outcomes of aes_decrypt_ccm: too short, not checked, or checked and authentic or not. */
  datatype Opened = TooShort | Unchecked(payload: Bits) | Authentic(payload: Bits) | Forged(zeroed: Bits)

  function Open(enc: Cipher, macLen: nat, nonce: Bits, assoc: Bits, ciphertext: Bits, check: bool): Opened
    requires Fits(macLen, nonce)
  {
    if |ciphertext| <= macLen then TooShort
    else
      var n := |ciphertext| - macLen;
      var payload := Ctr(enc, PayloadCounter(macLen, nonce), ciphertext[..n]);
      if !check then Unchecked(payload)
      else if Ctr(enc, FirstCounter(nonce), ciphertext[n..]) == Mac(enc, macLen, nonce, assoc, payload) then Authentic(payload)
      else Forged(Zeros(n))
  }

  /** What is written to the plaintext buffer. */
  function TextOf(r: Opened): Bits {
    match r
    case TooShort => []
    case Unchecked(p) => p
    case Authentic(p) => p
    case Forged(z) => z
  }

  /**
   Decrypting what was encrypted authenticates and returns the payload, for every key, nonce,
   associated data and payload the encryptor accepts and for all that fit the buffers besides,
   except that an empty payload is encrypted but refused by the decryption.
   */
  lemma OpenInvertsSeal(enc: Cipher, macLen: nat, nonce: Bits, assoc: Bits, payload: Bits)
    requires Fits(macLen, nonce)
    ensures Open(enc, macLen, nonce, assoc, Seal(enc, macLen, nonce, assoc, payload), true) ==
      if payload == [] then TooShort else Authentic(payload)
    ensures Open(enc, macLen, nonce, assoc, Seal(enc, macLen, nonce, assoc, payload), false) ==
      if payload == [] then TooShort else Unchecked(payload)
  {
    hide Mac, PayloadCounter, FirstCounter, Ctr;
    var a, b := PayloadCounter(macLen, nonce), FirstCounter(nonce);
    var mac := Mac(enc, macLen, nonce, assoc, payload);
    var c := Seal(enc, macLen, nonce, assoc, payload);
    assert c[..|payload|] == Ctr(enc, a, payload) && c[|payload|..] == Ctr(enc, b, mac);
    CtrInverts(enc, a, payload);
    CtrInverts(enc, b, mac);
  }

  /** A ciphertext is authentic only if sealing what it opens to gives it back. */
  lemma OnlySealedIsAuthentic(enc: Cipher, macLen: nat, nonce: Bits, assoc: Bits, ciphertext: Bits)
    requires Fits(macLen, nonce)
    ensures var r := Open(enc, macLen, nonce, assoc, ciphertext, true);
      r.Authentic? ==> Seal(enc, macLen, nonce, assoc, r.payload) == ciphertext
  {
    hide Mac, PayloadCounter, FirstCounter, Ctr;
    if |ciphertext| > macLen {
      var n := |ciphertext| - macLen;
      CtrInverts(enc, PayloadCounter(macLen, nonce), ciphertext[..n]);
      CtrInverts(enc, FirstCounter(nonce), ciphertext[n..]);
      assert ciphertext[..n] + ciphertext[n..] == ciphertext;
    }
  }

  // ---- The buffer of the formatted data ----

  lemma FormatLength(macLen: nat, nonce: Bits, assoc: Bits, payload: Bits)
    requires |nonce| < BLOCK
    ensures |Format(macLen, nonce, assoc, payload)| ==
      |payload| + |assoc| + 18 + (BLOCK - (2 + |assoc|) % BLOCK) + Fill(|payload|)
  {
    hide FirstBlock;
  }

  /**
   The buffer that the encryption allocates is too short, and then by one byte, exactly if the
   associated data ends on a block boundary and one byte of the payload begins a block.
   */
  lemma EncryptBufferShortIff(macLen: nat, nonce: Bits, assoc: Bits, payload: Bits)
    requires |nonce| < BLOCK
    ensures |Format(macLen, nonce, assoc, payload)| > |payload| + |assoc| + 48 <==>
      (2 + |assoc|) % BLOCK == 0 && |payload| % BLOCK == 1
    ensures |Format(macLen, nonce, assoc, payload)| <= |payload| + |assoc| + 49
  {
    FormatLength(macLen, nonce, assoc, payload);
    hide Format;
  }

  /** The buffer that the decryption allocates counts the MAC as well, and is too short only if there is none. */
  lemma DecryptBufferShortIff(macLen: nat, nonce: Bits, assoc: Bits, ciphertext: Bits)
    requires |nonce| < BLOCK && |ciphertext| > macLen
    ensures forall payload: Bits :: |payload| == |ciphertext| - macLen ==>
      (|Format(macLen, nonce, assoc, payload)| > |assoc| + |ciphertext| + 48 <==>
        macLen == 0 && (2 + |assoc|) % BLOCK == 0 && |payload| % BLOCK == 1)
  {
    hide Format;
    forall payload: Bits | |payload| == |ciphertext| - macLen
      ensures |Format(macLen, nonce, assoc, payload)| > |assoc| + |ciphertext| + 48 <==>
        macLen == 0 && (2 + |assoc|) % BLOCK == 0 && |payload| % BLOCK == 1
    {
      EncryptBufferShortIff(macLen, nonce, assoc, payload);
    }
  }

  // ---- The counters of section 6.1 of SP 800-38C ----

  /** The payload is encrypted with the counters from one on, as the standard says, exactly if the MAC has less than 16 bytes. */
  lemma PayloadCounterIsOneIff(macLen: nat, nonce: Bits, assoc: Bits)
    requires Accepted(macLen, nonce, assoc)
    ensures PayloadCounter(macLen, nonce) == FirstCounter(nonce)[BLOCK - 1 := 1] <==> macLen != 16
    ensures macLen == 16 ==> PayloadCounter(macLen, nonce) == FirstCounter(nonce)
  {
    hide LowBits;
    var b := FirstCounter(nonce);
    assert b[BLOCK - 1] == 0;
    OneMore();
  }

  /**
   A ciphertext as section 6.1 of SP 800-38C has it, byte by byte: the payload under counter blocks from the
   payload's first on, then the MAC under the block of counter zero.
   */
  lemma SealedBytes(enc: Cipher, macLen: nat, nonce: Bits, assoc: Bits, payload: Bits, j: nat)
    requires Fits(macLen, nonce)
    ensures var c, first := Seal(enc, macLen, nonce, assoc, payload), PayloadCounter(macLen, nonce);
      j < |payload| ==> c[j] == AesTables.Add(payload[j], enc(CounterBlock(first, j / BLOCK))[j % BLOCK])
    ensures var c, chain := Seal(enc, macLen, nonce, assoc, payload), CbcEncrypt(enc, Zeros(BLOCK), Format(macLen, nonce, assoc, payload));
      j < macLen ==> c[|payload| + j] == AesTables.Add(chain[|chain| - BLOCK + j], enc(FirstCounter(nonce))[j])
  {
    hide FirstCounter, PayloadCounter, Ctr, Format, AesTables.Add;
    var mac := Mac(enc, macLen, nonce, assoc, payload);
    if j < |payload| {
      CtrKeystream(enc, PayloadCounter(macLen, nonce), payload, j);
    }
    if j < macLen {
      MacIsLastBlock(enc, Zeros(BLOCK), Format(macLen, nonce, assoc, payload));
      CtrKeystream(enc, FirstCounter(nonce), mac, j);
      assert CounterBlock(FirstCounter(nonce), 0) == FirstCounter(nonce);
    }
  }

  lemma OneMore()
    ensures (0 as bv8) + 1 == 1 && (0 as bv8) + 1 != 0
  {
  }

  /** With a MAC of 16 bytes the first block of the payload and the MAC are encrypted with one keystream. */
  lemma SharedKeystream(enc: Cipher, nonce: Bits, assoc: Bits, payload: Bits, j: nat)
    requires Accepted(16, nonce, assoc) && j < BLOCK && j < |payload|
    ensures var c, key := Seal(enc, 16, nonce, assoc, payload), enc(FirstCounter(nonce));
      && c[j] == AesTables.Add(payload[j], key[j])
      && c[|payload| + j] == AesTables.Add(Mac(enc, 16, nonce, assoc, payload)[j], key[j])
  {
    hide FirstCounter, PayloadCounter, Mac, Ctr, AesTables.Add;
    PayloadCounterIsOneIff(16, nonce, assoc);
    var b := FirstCounter(nonce);
    var mac := Mac(enc, 16, nonce, assoc, payload);
    CtrKeystream(enc, b, payload, j);
    CtrKeystream(enc, b, mac, j);
    assert CounterBlock(b, 0) == b;
  }

  // ---- The formatting of appendix A.2 of SP 800-38C ----

  function StandardFormat(macLen: nat, nonce: Bits, assoc: Bits, payload: Bits): Bits
    requires Accepted(macLen, nonce, assoc)
  {
    [Flags(|assoc|, macLen, StoreSize(nonce))] + nonce + BigEndian(|payload|, StoreSize(nonce)) +
    StandardAssoc(assoc) + payload + Zeros(Fill(|payload|))
  }

  /** A length fills only the last two bytes of its field exactly if it is below 2^16. */
  lemma LengthField(n: nat, q: nat)
    requires q >= 2 && n < Power256(q)
    ensures BigEndian(n, q) == Zeros(q - 2) + [LowByte(n / 256), LowByte(n)] <==> n < 0x10000
  {
    var short := Zeros(q - 2) + [LowByte(n / 256), LowByte(n)];
    var high := BigEndian(n / 256 / 256, q - 2);
    BigEndianStep(n, q);
    BigEndianStep(n / 256, q - 1);
    assert BigEndian(n, q) == high + [LowByte(n / 256), LowByte(n)];
    if n < 0x10000 {
      assert n / 256 / 256 == 0;
      BigEndianOfZero(q - 2);
    } else if BigEndian(n, q) == short {
      assert high == BigEndian(n, q)[..q - 2] == short[..q - 2] == Zeros(q - 2);
      PowerStep(q);
      PowerStep(q - 1);
      BigEndianNumber(n / 256 / 256, q - 2);
      BigEndianOfZero(q - 2);
      BigEndianNumber(0, q - 2);
    }
  }

  /**
   The code formats as the standard does exactly when there is associated data, its length field
   and bytes do not end on a block boundary, and the payload length fits 16 bits.
   */
  lemma FormatIsStandard(macLen: nat, nonce: Bits, assoc: Bits, payload: Bits)
    requires Accepted(macLen, nonce, assoc) && |payload| < Power256(StoreSize(nonce))
    ensures Format(macLen, nonce, assoc, payload) == StandardFormat(macLen, nonce, assoc, payload) <==>
      assoc != [] && (2 + |assoc|) % BLOCK != 0 && |payload| < 0x10000
  {
    hide Format, StandardFormat, Flags, BigEndian, Power256, LowByte;
    var q := StoreSize(nonce);
    var code, standard := Format(macLen, nonce, assoc, payload), StandardFormat(macLen, nonce, assoc, payload);
    var head: Bits := [Flags(|assoc|, macLen, q)] + nonce;
    LengthField(|payload|, q);
    AssocField(|assoc|);
    FormatParts(macLen, nonce, assoc, payload);
    var short, field := Zeros(q - 2) + [LowByte(|payload| / 256), LowByte(|payload|)], BigEndian(|payload|, q);
    var tail := payload + Zeros(Fill(|payload|));
    var middle := StandardAssoc(assoc);
    if assoc != [] && (2 + |assoc|) % BLOCK != 0 {
      assert FormatAssoc(assoc) == middle;
      if code == standard {
        assert (head + short + (middle + tail))[|head|..BLOCK] == short;
        assert (head + field + (middle + tail))[|head|..BLOCK] == field;
      }
    } else {
      assert |FormatAssoc(assoc)| == |middle| + BLOCK;
    }
  }

  function StandardAssoc(assoc: Bits): Bits {
    if assoc == [] then [] else BigEndian(|assoc|, 2) + assoc + Zeros(Fill(2 + |assoc|))
  }

  /** Both formattings as flags and nonce, the length field, the associated data and the payload. */
  lemma FormatParts(macLen: nat, nonce: Bits, assoc: Bits, payload: Bits)
    requires Accepted(macLen, nonce, assoc)
    ensures var q := StoreSize(nonce);
      var head: Bits := [Flags(|assoc|, macLen, q)] + nonce;
      var tail := payload + Zeros(Fill(|payload|));
      && Format(macLen, nonce, assoc, payload) ==
        head + (Zeros(q - 2) + [LowByte(|payload| / 256), LowByte(|payload|)]) + (FormatAssoc(assoc) + tail)
      && StandardFormat(macLen, nonce, assoc, payload) == head + BigEndian(|payload|, q) + (StandardAssoc(assoc) + tail)
  {
    hide Flags, BigEndian, LowByte, FirstBlock, StandardAssoc, FormatAssoc, Fill, Zeros;
    FirstBlockParts(|assoc|, |payload|, macLen, nonce);
    var q := StoreSize(nonce);
    var head: Bits := [Flags(|assoc|, macLen, q)] + nonce;
    Regroup(FirstBlock(|assoc|, |payload|, macLen, nonce), FormatAssoc(assoc), payload, Zeros(Fill(|payload|)));
    Regroup(head + BigEndian(|payload|, q), StandardAssoc(assoc), payload, Zeros(Fill(|payload|)));
  }

  lemma Regroup(a: Bits, b: Bits, c: Bits, d: Bits)
    ensures a + b + (c + d) == a + (b + (c + d)) == a + b + c + d
  {
  }

  lemma AssocField(n: nat)
    requires n <= 32768
    ensures BigEndian(n, 2) == [LowByte(n / 256), LowByte(n)]
  {
    BigEndianStep(n, 2);
    BigEndianStep(n / 256, 1);
  }
}
