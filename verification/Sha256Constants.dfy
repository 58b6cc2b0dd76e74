/** Where the constants of crypto/sha256.c come from: sections 4.2.2 and 5.3.2 of FIPS 180-2. */
module Sha256Constants {
  import opened Arithmetic
  import opened Sha256
  import opened Tables

  /** The first 64 primes. */
  function Prime(t: nat): nat
    requires t < 64
  {
    var row, i := t / 8, t % 8;
    if row == 0 then Eight(i, 2, 3, 5, 7, 11, 13, 17, 19)
    else if row == 1 then Eight(i, 23, 29, 31, 37, 41, 43, 47, 53)
    else if row == 2 then Eight(i, 59, 61, 67, 71, 73, 79, 83, 89)
    else if row == 3 then Eight(i, 97, 101, 103, 107, 109, 113, 127, 131)
    else if row == 4 then Eight(i, 137, 139, 149, 151, 157, 163, 167, 173)
    else if row == 5 then Eight(i, 179, 181, 191, 193, 197, 199, 211, 223)
    else if row == 6 then Eight(i, 227, 229, 233, 239, 241, 251, 257, 263)
    else Eight(i, 269, 271, 277, 281, 283, 293, 307, 311)
  }

  // ---- The primes ----

  ghost predicate IsPrime(n: nat) {
    n >= 2 && forall d :: 2 <= d < n ==> n % d != 0
  }

  /** Trial division by the primes up to 17, which is enough below 361. */
  predicate Passes(n: nat) {
    && (n % 2 != 0 || n == 2) && (n % 3 != 0 || n == 3) && (n % 5 != 0 || n == 5) && (n % 7 != 0 || n == 7)
    && (n % 11 != 0 || n == 11) && (n % 13 != 0 || n == 13) && (n % 17 != 0 || n == 17)
  }

  lemma SmallDivisor(n: nat, d: nat)
    requires 2 <= d <= 18 && d < n && n % d == 0
    ensures !Passes(n)
  {
    if d % 2 == 0 {
      Divides(n, d, 2);
    } else if d % 3 == 0 {
      Divides(n, d, 3);
    }
  }

  /** What divides a divisor divides the number. */
  lemma Divides(n: nat, d: nat, e: nat)
    requires d > 0 && e > 0 && n % d == 0 && d % e == 0
    ensures n % e == 0
  {
    var q, k := n / d, d / e;
    assert n == d * q && d == e * k;
    assert n == e * (k * q) + 0 by {
      Regroup(e, k, q);
    }
    ModIs(k * q, 0, e);
  }

  lemma Regroup(e: nat, k: nat, q: nat)
    ensures e * k * q == e * (k * q)
  {
  }

  lemma PassesIffPrime(n: nat)
    requires 2 <= n < 361
    ensures IsPrime(n) <==> Passes(n)
  {
    hide Passes;
    if Passes(n) {
      forall d | 2 <= d < n ensures n % d != 0 {
        if n % d == 0 {
          SmallerDivisor(n, d);
        }
      }
    } else {
      NotPrime(n);
    }
  }

  lemma SmallerDivisor(n: nat, d: nat)
    requires 2 <= d < n < 361 && n % d == 0
    ensures !Passes(n)
  {
    hide Passes;
    var q := n / d;
    assert n == d * q;
    if d <= 18 {
      SmallDivisor(n, d);
    } else {
      Cofactor(n, d, q);
      SmallDivisor(n, q);
    }
  }

  lemma BigProduct(d: nat, q: nat)
    requires d >= 19 && q >= 19
    ensures d * q >= 361
  {
  }

  lemma Cofactor(n: nat, d: nat, q: nat)
    requires 18 < d < n < 361 && n == d * q
    ensures 2 <= q <= 18 && q < n && n % q == 0
  {
    assert q >= 2 by {
      assert d * 1 == d && d * 0 == 0;
    }
    assert q <= 18 by {
      if q >= 19 {
        BigProduct(d, q);
      }
    }
    assert n == q * d + 0;
    ModIs(d, 0, q);
  }

  lemma NotPrime(n: nat)
    requires 2 <= n && !Passes(n)
    ensures !IsPrime(n)
  {
    var d :| d in {2, 3, 5, 7, 11, 13, 17} && n % d == 0 && n != d;
    assert d < n;
  }

  /** One prime and the next, with none between. */
  ghost predicate Next(p: nat, q: nat) {
    IsPrime(q) && p < q && forall n :: p < n < q ==> !IsPrime(n)
  }

  /** Nothing between the two passes. */
  predicate NonePasses(p: nat, q: nat)
    decreases q - p
  {
    p + 1 >= q || (!Passes(p + 1) && NonePasses(p + 1, q))
  }

  lemma {:induction false} NoneIsPrime(p: nat, q: nat)
    requires 1 <= p && q < 361 && NonePasses(p, q)
    ensures forall n :: p < n < q ==> !IsPrime(n)
    decreases q - p
  {
    hide Passes, IsPrime;
    if p + 1 < q {
      PassesIffPrime(p + 1);
      NoneIsPrime(p + 1, q);
    }
  }

  ghost predicate NextAt(t: nat)
    requires 0 < t < 64
  {
    Next(Prime(t - 1), Prime(t))
  }

  lemma IsNext(p: nat, q: nat)
    requires 2 <= p < q < 361 && Passes(q) && NonePasses(p, q)
    ensures Next(p, q)
  {
    hide Passes, NonePasses, IsPrime;
    PassesIffPrime(q);
    NoneIsPrime(p, q);
  }

  lemma Primes0()
    ensures NextAt(1)
    ensures NextAt(2)
    ensures NextAt(3)
    ensures NextAt(4)
    ensures NextAt(5)
    ensures NextAt(6)
    ensures NextAt(7)
  {
    hide Next;
    IsNext(2, 3);
    IsNext(3, 5);
    IsNext(5, 7);
    IsNext(7, 11);
    IsNext(11, 13);
    IsNext(13, 17);
    IsNext(17, 19);
  }

  lemma Primes1()
    ensures NextAt(8)
    ensures NextAt(9)
    ensures NextAt(10)
    ensures NextAt(11)
    ensures NextAt(12)
    ensures NextAt(13)
    ensures NextAt(14)
    ensures NextAt(15)
  {
    hide Next;
    IsNext(19, 23);
    IsNext(23, 29);
    IsNext(29, 31);
    IsNext(31, 37);
    IsNext(37, 41);
    IsNext(41, 43);
    IsNext(43, 47);
    IsNext(47, 53);
  }

  lemma Primes2()
    ensures NextAt(16)
    ensures NextAt(17)
    ensures NextAt(18)
    ensures NextAt(19)
    ensures NextAt(20)
    ensures NextAt(21)
    ensures NextAt(22)
    ensures NextAt(23)
  {
    hide Next;
    IsNext(53, 59);
    IsNext(59, 61);
    IsNext(61, 67);
    IsNext(67, 71);
    IsNext(71, 73);
    IsNext(73, 79);
    IsNext(79, 83);
    IsNext(83, 89);
  }

  lemma Primes3()
    ensures NextAt(24)
    ensures NextAt(25)
    ensures NextAt(26)
    ensures NextAt(27)
    ensures NextAt(28)
    ensures NextAt(29)
    ensures NextAt(30)
    ensures NextAt(31)
  {
    hide Next;
    IsNext(89, 97);
    IsNext(97, 101);
    IsNext(101, 103);
    IsNext(103, 107);
    IsNext(107, 109);
    IsNext(109, 113);
    IsNext(113, 127);
    IsNext(127, 131);
  }

  lemma Primes4()
    ensures NextAt(32)
    ensures NextAt(33)
    ensures NextAt(34)
    ensures NextAt(35)
    ensures NextAt(36)
    ensures NextAt(37)
    ensures NextAt(38)
    ensures NextAt(39)
  {
    hide Next;
    IsNext(131, 137);
    IsNext(137, 139);
    IsNext(139, 149);
    IsNext(149, 151);
    IsNext(151, 157);
    IsNext(157, 163);
    IsNext(163, 167);
    IsNext(167, 173);
  }

  lemma Primes5()
    ensures NextAt(40)
    ensures NextAt(41)
    ensures NextAt(42)
    ensures NextAt(43)
    ensures NextAt(44)
    ensures NextAt(45)
    ensures NextAt(46)
    ensures NextAt(47)
  {
    hide Next;
    IsNext(173, 179);
    IsNext(179, 181);
    IsNext(181, 191);
    IsNext(191, 193);
    IsNext(193, 197);
    IsNext(197, 199);
    IsNext(199, 211);
    IsNext(211, 223);
  }

  lemma Primes6()
    ensures NextAt(48)
    ensures NextAt(49)
    ensures NextAt(50)
    ensures NextAt(51)
    ensures NextAt(52)
    ensures NextAt(53)
    ensures NextAt(54)
    ensures NextAt(55)
  {
    hide Next;
    IsNext(223, 227);
    IsNext(227, 229);
    IsNext(229, 233);
    IsNext(233, 239);
    IsNext(239, 241);
    IsNext(241, 251);
    IsNext(251, 257);
    IsNext(257, 263);
  }

  lemma Primes7()
    ensures NextAt(56)
    ensures NextAt(57)
    ensures NextAt(58)
    ensures NextAt(59)
    ensures NextAt(60)
    ensures NextAt(61)
    ensures NextAt(62)
    ensures NextAt(63)
  {
    hide Next;
    IsNext(263, 269);
    IsNext(269, 271);
    IsNext(271, 277);
    IsNext(277, 281);
    IsNext(281, 283);
    IsNext(283, 293);
    IsNext(293, 307);
    IsNext(307, 311);
  }

  lemma FirstPrimes(t: nat)
    requires 0 < t < 32
    ensures NextAt(t)
  {
    hide NextAt;
    if t < 8 { Primes0(); }
    else if t < 16 { Primes1(); }
    else if t < 24 { Primes2(); }
    else { Primes3(); }
  }

  lemma LastPrimes(t: nat)
    requires 32 <= t < 64
    ensures NextAt(t)
  {
    hide NextAt;
    if t < 40 { Primes4(); }
    else if t < 48 { Primes5(); }
    else if t < 56 { Primes6(); }
    else { Primes7(); }
  }

  /** `Prime` lists the primes in order and leaves none out. */
  lemma PrimesInOrder(t: nat)
    requires t < 64
    ensures t == 0 ==> Prime(t) == 2 && IsPrime(Prime(t))
    ensures t > 0 ==> IsPrime(Prime(t)) && Prime(t - 1) < Prime(t) && forall n :: Prime(t - 1) < n < Prime(t) ==> !IsPrime(n)
  {
    if t == 0 {
      assert IsPrime(2);
    } else {
      hide Prime, IsPrime;
      if t < 32 {
        FirstPrimes(t);
      } else {
        LastPrimes(t);
      }
    }
  }

  const TWO96 := 0x1_0000_0000_0000_0000_0000_0000

  function Square(n: int): int {
    n * n
  }

  function Cube(n: int): int {
    n * n * n
  }

  /** The first 32 bits of the fraction of a cube root. */
  ghost predicate IsCubeFraction(c: int, p: nat) {
    exists w: nat :: CubeRootIs(w, c, p)
  }

  predicate CubeRootIs(whole: nat, c: int, p: nat) {
    0 <= c < TWO32 && Cube(TWO32 * whole + c) <= p * TWO96 < Cube(TWO32 * whole + c + 1)
  }

  /** The first 32 bits of the fraction of a square root. */
  ghost predicate IsSquareFraction(c: int, p: nat) {
    exists w: nat :: SquareRootIs(w, c, p)
  }

  predicate SquareRootIs(whole: nat, c: int, p: nat) {
    0 <= c < TWO32 && Square(TWO32 * whole + c) <= p * TWO64 < Square(TWO32 * whole + c + 1)
  }

  lemma FractionIs(c: int, p: nat, whole: nat)
    requires CubeRootIs(whole, c, p)
    ensures IsCubeFraction(c, p)
  {
  }

  lemma SquareIs(c: int, p: nat, whole: nat)
    requires SquareRootIs(whole, c, p)
    ensures IsSquareFraction(c, p)
  {
  }

  lemma Constants0()
    ensures IsCubeFraction(RoundConstant(0) as int, Prime(0))
    ensures IsCubeFraction(RoundConstant(1) as int, Prime(1))
    ensures IsCubeFraction(RoundConstant(2) as int, Prime(2))
    ensures IsCubeFraction(RoundConstant(3) as int, Prime(3))
    ensures IsCubeFraction(RoundConstant(4) as int, Prime(4))
    ensures IsCubeFraction(RoundConstant(5) as int, Prime(5))
    ensures IsCubeFraction(RoundConstant(6) as int, Prime(6))
    ensures IsCubeFraction(RoundConstant(7) as int, Prime(7))
  {
    hide IsCubeFraction;
    FractionIs(0x428a2f98, 2, 1);
    FractionIs(0x71374491, 3, 1);
    FractionIs(0xb5c0fbcf, 5, 1);
    FractionIs(0xe9b5dba5, 7, 1);
    FractionIs(0x3956c25b, 11, 2);
    FractionIs(0x59f111f1, 13, 2);
    FractionIs(0x923f82a4, 17, 2);
    FractionIs(0xab1c5ed5, 19, 2);
  }

  lemma Constants1()
    ensures IsCubeFraction(RoundConstant(8) as int, Prime(8))
    ensures IsCubeFraction(RoundConstant(9) as int, Prime(9))
    ensures IsCubeFraction(RoundConstant(10) as int, Prime(10))
    ensures IsCubeFraction(RoundConstant(11) as int, Prime(11))
    ensures IsCubeFraction(RoundConstant(12) as int, Prime(12))
    ensures IsCubeFraction(RoundConstant(13) as int, Prime(13))
    ensures IsCubeFraction(RoundConstant(14) as int, Prime(14))
    ensures IsCubeFraction(RoundConstant(15) as int, Prime(15))
  {
    hide IsCubeFraction;
    FractionIs(0xd807aa98, 23, 2);
    FractionIs(0x12835b01, 29, 3);
    FractionIs(0x243185be, 31, 3);
    FractionIs(0x550c7dc3, 37, 3);
    FractionIs(0x72be5d74, 41, 3);
    FractionIs(0x80deb1fe, 43, 3);
    FractionIs(0x9bdc06a7, 47, 3);
    FractionIs(0xc19bf174, 53, 3);
  }

  lemma Constants2()
    ensures IsCubeFraction(RoundConstant(16) as int, Prime(16))
    ensures IsCubeFraction(RoundConstant(17) as int, Prime(17))
    ensures IsCubeFraction(RoundConstant(18) as int, Prime(18))
    ensures IsCubeFraction(RoundConstant(19) as int, Prime(19))
    ensures IsCubeFraction(RoundConstant(20) as int, Prime(20))
    ensures IsCubeFraction(RoundConstant(21) as int, Prime(21))
    ensures IsCubeFraction(RoundConstant(22) as int, Prime(22))
    ensures IsCubeFraction(RoundConstant(23) as int, Prime(23))
  {
    hide IsCubeFraction;
    FractionIs(0xe49b69c1, 59, 3);
    FractionIs(0xefbe4786, 61, 3);
    FractionIs(0x0fc19dc6, 67, 4);
    FractionIs(0x240ca1cc, 71, 4);
    FractionIs(0x2de92c6f, 73, 4);
    FractionIs(0x4a7484aa, 79, 4);
    FractionIs(0x5cb0a9dc, 83, 4);
    FractionIs(0x76f988da, 89, 4);
  }

  lemma Constants3()
    ensures IsCubeFraction(RoundConstant(24) as int, Prime(24))
    ensures IsCubeFraction(RoundConstant(25) as int, Prime(25))
    ensures IsCubeFraction(RoundConstant(26) as int, Prime(26))
    ensures IsCubeFraction(RoundConstant(27) as int, Prime(27))
    ensures IsCubeFraction(RoundConstant(28) as int, Prime(28))
    ensures IsCubeFraction(RoundConstant(29) as int, Prime(29))
    ensures IsCubeFraction(RoundConstant(30) as int, Prime(30))
    ensures IsCubeFraction(RoundConstant(31) as int, Prime(31))
  {
    hide IsCubeFraction;
    FractionIs(0x983e5152, 97, 4);
    FractionIs(0xa831c66d, 101, 4);
    FractionIs(0xb00327c8, 103, 4);
    FractionIs(0xbf597fc7, 107, 4);
    FractionIs(0xc6e00bf3, 109, 4);
    FractionIs(0xd5a79147, 113, 4);
    FractionIs(0x06ca6351, 127, 5);
    FractionIs(0x14292967, 131, 5);
  }

  lemma Constants4()
    ensures IsCubeFraction(RoundConstant(32) as int, Prime(32))
    ensures IsCubeFraction(RoundConstant(33) as int, Prime(33))
    ensures IsCubeFraction(RoundConstant(34) as int, Prime(34))
    ensures IsCubeFraction(RoundConstant(35) as int, Prime(35))
    ensures IsCubeFraction(RoundConstant(36) as int, Prime(36))
    ensures IsCubeFraction(RoundConstant(37) as int, Prime(37))
    ensures IsCubeFraction(RoundConstant(38) as int, Prime(38))
    ensures IsCubeFraction(RoundConstant(39) as int, Prime(39))
  {
    hide IsCubeFraction;
    FractionIs(0x27b70a85, 137, 5);
    FractionIs(0x2e1b2138, 139, 5);
    FractionIs(0x4d2c6dfc, 149, 5);
    FractionIs(0x53380d13, 151, 5);
    FractionIs(0x650a7354, 157, 5);
    FractionIs(0x766a0abb, 163, 5);
    FractionIs(0x81c2c92e, 167, 5);
    FractionIs(0x92722c85, 173, 5);
  }

  lemma Constants5()
    ensures IsCubeFraction(RoundConstant(40) as int, Prime(40))
    ensures IsCubeFraction(RoundConstant(41) as int, Prime(41))
    ensures IsCubeFraction(RoundConstant(42) as int, Prime(42))
    ensures IsCubeFraction(RoundConstant(43) as int, Prime(43))
    ensures IsCubeFraction(RoundConstant(44) as int, Prime(44))
    ensures IsCubeFraction(RoundConstant(45) as int, Prime(45))
    ensures IsCubeFraction(RoundConstant(46) as int, Prime(46))
    ensures IsCubeFraction(RoundConstant(47) as int, Prime(47))
  {
    hide IsCubeFraction;
    FractionIs(0xa2bfe8a1, 179, 5);
    FractionIs(0xa81a664b, 181, 5);
    FractionIs(0xc24b8b70, 191, 5);
    FractionIs(0xc76c51a3, 193, 5);
    FractionIs(0xd192e819, 197, 5);
    FractionIs(0xd6990624, 199, 5);
    FractionIs(0xf40e3585, 211, 5);
    FractionIs(0x106aa070, 223, 6);
  }

  lemma Constants6()
    ensures IsCubeFraction(RoundConstant(48) as int, Prime(48))
    ensures IsCubeFraction(RoundConstant(49) as int, Prime(49))
    ensures IsCubeFraction(RoundConstant(50) as int, Prime(50))
    ensures IsCubeFraction(RoundConstant(51) as int, Prime(51))
    ensures IsCubeFraction(RoundConstant(52) as int, Prime(52))
    ensures IsCubeFraction(RoundConstant(53) as int, Prime(53))
    ensures IsCubeFraction(RoundConstant(54) as int, Prime(54))
    ensures IsCubeFraction(RoundConstant(55) as int, Prime(55))
  {
    hide IsCubeFraction;
    FractionIs(0x19a4c116, 227, 6);
    FractionIs(0x1e376c08, 229, 6);
    FractionIs(0x2748774c, 233, 6);
    FractionIs(0x34b0bcb5, 239, 6);
    FractionIs(0x391c0cb3, 241, 6);
    FractionIs(0x4ed8aa4a, 251, 6);
    FractionIs(0x5b9cca4f, 257, 6);
    FractionIs(0x682e6ff3, 263, 6);
  }

  lemma Constants7()
    ensures IsCubeFraction(RoundConstant(56) as int, Prime(56))
    ensures IsCubeFraction(RoundConstant(57) as int, Prime(57))
    ensures IsCubeFraction(RoundConstant(58) as int, Prime(58))
    ensures IsCubeFraction(RoundConstant(59) as int, Prime(59))
  {
    hide IsCubeFraction;
    FractionIs(0x748f82ee, 269, 6);
    FractionIs(0x78a5636f, 271, 6);
    FractionIs(0x84c87814, 277, 6);
    FractionIs(0x8cc70208, 281, 6);
  }

  lemma Constants8()
    ensures IsCubeFraction(RoundConstant(60) as int, Prime(60))
    ensures IsCubeFraction(RoundConstant(61) as int, Prime(61))
    ensures IsCubeFraction(RoundConstant(62) as int, Prime(62))
    ensures IsCubeFraction(RoundConstant(63) as int, Prime(63))
  {
    hide IsCubeFraction;
    FractionIs(0x90befffa, 283, 6);
    FractionIs(0xa4506ceb, 293, 6);
    FractionIs(0xbef9a3f7, 307, 6);
    FractionIs(0xc67178f2, 311, 6);
  }

  lemma FirstConstants(t: nat)
    requires t < 32
    ensures IsCubeFraction(RoundConstant(t) as int, Prime(t))
  {
    hide RoundConstant, Prime, IsCubeFraction;
    if t < 8 { Constants0(); }
    else if t < 16 { Constants1(); }
    else if t < 24 { Constants2(); }
    else { Constants3(); }
  }

  lemma LastConstants(t: nat)
    requires 32 <= t < 64
    ensures IsCubeFraction(RoundConstant(t) as int, Prime(t))
  {
    hide RoundConstant, Prime, IsCubeFraction;
    if t < 40 { Constants4(); }
    else if t < 48 { Constants5(); }
    else if t < 56 { Constants6(); }
    else { Constants7(); Constants8(); }
  }

  /** The constant of each round is the fraction of the cube root of a prime. */
  lemma ConstantsAreCubeRoots(t: nat)
    requires t < 64
    ensures IsCubeFraction(RoundConstant(t) as int, Prime(t))
  {
    hide RoundConstant, Prime, IsCubeFraction;
    if t < 32 {
      FirstConstants(t);
    } else {
      LastConstants(t);
    }
  }

  /** The initial hash is the fractions of the square roots of the first eight primes. */
  lemma InitialIsSquareRoots(i: nat)
    requires i < 8
    ensures IsSquareFraction(Initial()[i] as int, Prime(i))
  {
    hide IsSquareFraction;
    SquareIs(0x6a09e667, 2, 1);
    SquareIs(0xbb67ae85, 3, 1);
    SquareIs(0x3c6ef372, 5, 2);
    SquareIs(0xa54ff53a, 7, 2);
    SquareIs(0x510e527f, 11, 3);
    SquareIs(0x9b05688c, 13, 3);
    SquareIs(0x1f83d9ab, 17, 4);
    SquareIs(0x5be0cd19, 19, 4);
  }
}
