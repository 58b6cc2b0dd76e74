/** Big-endian numbers in strings of bytes. */
module Numbers {
  import opened Arithmetic
  import opened Octets

  type Bits = seq<bv8>

  function Zeros(n: nat): (z: Bits)
    ensures |z| == n && forall i :: 0 <= i < n ==> z[i] == 0
  {
    seq(n, _ => 0)
  }

  /** A big-endian number. */
  function Number(b: Bits): nat {
    if b == [] then 0 else 256 * Number(b[..|b| - 1]) + b[|b| - 1] as int
  }

  function Power256(n: nat): (p: nat)
    ensures p > 0
  {
    if n == 0 then 1 else 256 * Power256(n - 1)
  }

  lemma NumberStep(b: Bits)
    ensures b == [] ==> Number(b) == 0
    ensures b != [] ==> Number(b) == 256 * Number(b[..|b| - 1]) + b[|b| - 1] as int
  {
  }

  lemma PowerStep(n: nat)
    ensures n == 0 ==> Power256(n) == 1
    ensures n > 0 ==> Power256(n) == 256 * Power256(n - 1)
  {
  }

  lemma NextByte(x: bv8)
    ensures (x + 1) as int == if x + 1 == 0 then 0 else (x as int) + 1
    ensures x + 1 == 0 ==> x as int == 255
    ensures 0 <= x as int <= 255
  {
  }

  lemma {:induction false} NumberBound(b: Bits)
    ensures Number(b) < Power256(|b|)
  {
    if b != [] {
      NumberBound(b[..|b| - 1]);
      NextByte(b[|b| - 1]);
    }
  }

  function LowByte(n: nat): bv8 {
    (n % 256) as bv8
  }

  /** `n` in `len` bytes, the high ones first. */
  function BigEndian(n: nat, len: nat): (b: Bits)
    ensures |b| == len
  {
    if len == 0 then [] else BigEndian(n / 256, len - 1) + [LowByte(n)]
  }

  lemma LowByteIs(n: nat)
    ensures LowByte(n) as int == n % 256
  {
    ByteFitsBits(n % 256);
  }

  lemma BigEndianStep(n: nat, len: nat)
    requires len > 0
    ensures BigEndian(n, len) == BigEndian(n / 256, len - 1) + [LowByte(n)]
  {
  }

  lemma {:induction false} BigEndianNumber(n: nat, len: nat)
    requires n < Power256(len)
    ensures Number(BigEndian(n, len)) == n
  {
    NumberStep(BigEndian(n, len));
    PowerStep(len);
    if len > 0 {
      hide BigEndian, Power256, Number;
      BigEndianStep(n, len);
      assert n / 256 < Power256(len - 1);
      BigEndianNumber(n / 256, len - 1);
      LowByteIs(n);
      assert (BigEndian(n / 256, len - 1) + [LowByte(n)])[..len - 1] == BigEndian(n / 256, len - 1);
    }
  }

  lemma {:induction false} BigEndianOfZero(len: nat)
    ensures BigEndian(0, len) == Zeros(len)
  {
    if len > 0 {
      BigEndianOfZero(len - 1);
      assert Zeros(len) == Zeros(len - 1) + [0];
    }
  }

  /** The low bytes of a number do not show what is above them. */
  lemma {:induction false} LowBytes(x: nat, n: nat)
    ensures BigEndian(x % Power256(n), n) == BigEndian(x, n)
  {
    if n > 0 {
      LowBytes(x / 256, n - 1);
      ModByByte(x, Power256(n - 1));
    }
  }

  lemma ModByByte(x: nat, p: nat)
    requires p > 0
    ensures x % (256 * p) / 256 == x / 256 % p && x % (256 * p) % 256 == x % 256
  {
    var q, r := x / 256 / p, x / 256 % p;
    assert x / 256 == p * q + r;
    assert x == 256 * p * q + (256 * r + x % 256) by {
      Associate(p, q);
    }
    ModIs(q, 256 * r + x % 256, 256 * p);
  }

  lemma Associate(p: nat, q: nat)
    ensures 256 * p * q == 256 * (p * q)
  {
  }
}
