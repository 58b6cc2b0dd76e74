/**
 The UTF-8 codec of jansson/utf.c. The masks and shifts of the C code are written as
 divisions and remainders by powers of two.

 The specification is the encoder: a text is valid exactly when it is a concatenation of
 encodings of Unicode scalar values (sections 3 and 4 of RFC 3629).
 */
module Utf8 {
  import opened Bytes

  /** A Unicode scalar value: a code point that is not a UTF-16 surrogate half. */
  predicate IsScalar(cp: int) {
    0 <= cp < 0xD800 || 0xDFFF < cp <= 0x10FFFF
  }

  /** The encoding of a code point, surrogate halves included: the encoder does not refuse them. */
  function Encode(cp: int): (r: Text)
    requires 0 <= cp <= 0x10FFFF
    ensures 1 <= |r| <= 4
    ensures r[0] < 0x80 <==> cp < 0x80
  {
    if cp < 0x80 then [cp]
    else if cp < 0x800 then [0xC0 + cp / 64, 0x80 + cp % 64]
    else if cp < 0x10000 then [0xE0 + cp / 4096, 0x80 + cp / 64 % 64, 0x80 + cp % 64]
    else [0xF0 + cp / 262144, 0x80 + cp / 4096 % 64, 0x80 + cp / 64 % 64, 0x80 + cp % 64]
  }

  ghost predicate AllScalars(cps: seq<int>) {
    forall i :: 0 <= i < |cps| ==> IsScalar(cps[i])
  }

  ghost function EncodeAll(cps: seq<int>): Text
    requires AllScalars(cps)
  {
    if cps == [] then [] else Encode(cps[0]) + EncodeAll(cps[1..])
  }

  /** utf8_encode: writes the encoding at buffer[at..] and returns its size, or refuses the code point. */
  method EncodeTo(cp: int, buffer: array<Byte>, at: nat) returns (size: Option<nat>)
    requires 0 <= cp <= 0x10FFFF ==> at + |Encode(cp)| <= buffer.Length
    modifies buffer
    ensures size.Some? <==> 0 <= cp <= 0x10FFFF
    ensures size.Some? ==> size.value == |Encode(cp)|
    ensures buffer[..] == if size.Some? then old(buffer[..at]) + Encode(cp) + old(buffer[at + |Encode(cp)|..])
                          else old(buffer[..])
  {
    ghost var was := buffer[..];
    if cp < 0 {
      return None;
    } else if cp < 0x80 {
      buffer[at] := cp;
      size := Some(1);
    } else if cp < 0x800 {
      buffer[at] := 0xC0 + cp / 64;
      buffer[at + 1] := 0x80 + cp % 64;
      size := Some(2);
    } else if cp < 0x10000 {
      buffer[at] := 0xE0 + cp / 4096;
      buffer[at + 1] := 0x80 + cp / 64 % 64;
      buffer[at + 2] := 0x80 + cp % 64;
      size := Some(3);
    } else if cp <= 0x10FFFF {
      buffer[at] := 0xF0 + cp / 262144;
      buffer[at + 1] := 0x80 + cp / 4096 % 64;
      buffer[at + 2] := 0x80 + cp / 64 % 64;
      buffer[at + 3] := 0x80 + cp % 64;
      size := Some(4);
    } else {
      return None;
    }
    WrittenAt(was, buffer[..], at, Encode(cp));
  }

  lemma WrittenAt(was: Text, now: Text, at: nat, e: Text)
    requires |now| == |was| && at + |e| <= |was|
    requires forall k :: 0 <= k < |e| ==> now[at + k] == e[k]
    requires forall k :: 0 <= k < |was| && (k < at || at + |e| <= k) ==> now[k] == was[k]
    ensures now == was[..at] + e + was[at + |e|..]
  {
    assert now[at..at + |e|] == e;
    assert now == now[..at] + now[at..at + |e|] + now[at + |e|..];
  }

  /** utf8_check_first: how many bytes a sequence starting with this byte has, or 0 if none starts with it. */
  function CheckFirst(u: Byte): (n: nat)
    ensures n <= 4
    ensures n == 1 <==> u < 0x80
  {
    if u < 0x80 then 1
    else if u <= 0xBF then 0
    else if u == 0xC0 || u == 0xC1 then 0
    else if u <= 0xDF then 2
    else if u <= 0xEF then 3
    else if u <= 0xF4 then 4
    else 0
  }

  predicate IsContinuation(u: Byte) {
    0x80 <= u <= 0xBF
  }

  /** The bits of the lead byte of a sequence of `size` bytes that belong to the code point. */
  function LeadBits(u: Byte, size: nat): (v: nat)
    requires 2 <= size <= 4
  {
    if size == 2 then u % 32 else if size == 3 then u % 16 else u % 8
  }

  /** The code point that the first `size` bytes hold, if utf8_check_full accepts them. */
  function FullValue(s: Text, size: nat): (r: Option<int>)
    requires 0 < |s| && size <= |s|
  {
    if size < 2 || size > 4 then None
    else if exists i :: 1 <= i < size && !IsContinuation(s[i]) then None
    else
      var value := FoldBits(s, size, size);
      if value > 0x10FFFF || 0xD800 <= value <= 0xDFFF then None
      else if (size == 2 && value < 0x80) || (size == 3 && value < 0x800) || (size == 4 && value < 0x10000) then None
      else Some(value)
  }

  /** The accumulator of the loop of utf8_check_full after `n` bytes. */
  function FoldBits(s: Text, size: nat, n: nat): (v: nat)
    requires 2 <= size <= 4 && 1 <= n <= size <= |s|
  {
    if n == 1 then LeadBits(s[0], size) else Append(FoldBits(s, size, n - 1), s[n - 1])
  }

  /** One more six-bit group. */
  function Append(high: nat, u: Byte): (v: nat) {
    high * 64 + u % 64
  }

  method CheckFull(s: Text, size: nat) returns (codepoint: Option<int>)
    requires 0 < |s| && size <= |s|
    ensures codepoint == FullValue(s, size)
  {
    var value: nat := 0;
    var u := s[0];
    if size == 2 {
      value := u % 32;
    } else if size == 3 {
      value := u % 16;
    } else if size == 4 {
      value := u % 8;
    } else {
      return None;
    }
    var i := 1;
    while i < size
      invariant 1 <= i <= size
      invariant forall k :: 1 <= k < i ==> IsContinuation(s[k])
      invariant value == FoldBits(s, size, i)
    {
      u := s[i];
      if u < 0x80 || u > 0xBF {
        assert !IsContinuation(s[i]);
        return None;
      }
      value := value * 64 + u % 64;
      i := i + 1;
    }
    if value > 0x10FFFF {
      return None;
    } else if 0xD800 <= value <= 0xDFFF {
      return None;
    } else if (size == 2 && value < 0x80) || (size == 3 && value < 0x800) || (size == 4 && value < 0x10000) {
      return None;
    }
    return Some(value);
  }

  /** One character at the front of a text: its code point and its length in bytes. */
  datatype Char = Char(codepoint: int, size: nat)

  /** The character at the front of a non-empty text, if utf8_iterate finds one. */
  function Front(s: Text): (r: Option<Char>)
    requires s != []
    ensures r.Some? ==> 1 <= r.value.size <= |s| && r.value.size <= 4
    ensures r.Some? && s[0] < 0x80 ==> r.value == Char(s[0], 1)
    ensures r.Some? && s[0] >= 0x80 ==> r.value.codepoint >= 0x80
  {
    var count := CheckFirst(s[0]);
    if count == 0 then None
    else if count == 1 then Some(Char(s[0], 1))
    else if count > |s| then None
    else match FullValue(s, count)
      case None => None
      case Some(value) => Some(Char(value, count))
  }

  /** utf8_iterate on a non-empty buffer; the empty buffer is handled by its callers' loops. */
  method Iterate(s: Text) returns (r: Option<Char>)
    requires s != []
    ensures r == Front(s)
  {
    var count := CheckFirst(s[0]);
    if count == 0 {
      return None;
    }
    if count == 1 {
      return Some(Char(s[0], 1));
    }
    if count > |s| {
      return None;
    }
    var full := CheckFull(s, count);
    if full.None? {
      return None;
    }
    return Some(Char(full.value, count));
  }

  /** The text splits into characters. */
  predicate Valid(s: Text)
    decreases |s|
  {
    s == [] || (Front(s).Some? && Valid(s[Front(s).value.size..]))
  }

  /** utf8_check_string */
  method CheckString(s: Text) returns (ok: bool)
    ensures ok == Valid(s)
  {
    hide Valid, CheckFirst, FullValue;
    var i := 0;
    assert s[0..] == s;
    while i < |s|
      invariant 0 <= i <= |s|
      invariant Valid(s) == Valid(s[i..])
    {
      var count := CheckFirst(s[i]);
      ValidStep(s, i);
      if count == 0 {
        return false;
      } else if count > 1 {
        if count > |s| - i {
          return false;
        }
        var full := CheckFull(s[i..], count);
        if full.None? {
          return false;
        }
        i := i + (count - 1);
      }
      i := i + 1;
    }
    assert s[i..] == [] && Valid([]) by {
      ValidEmpty();
    }
    return true;
  }

  lemma ValidEmpty()
    ensures Valid([])
  {
  }

  /** What one turn of utf8_check_string decides about what is left of the string. */
  lemma ValidStep(s: Text, i: nat)
    requires i < |s|
    ensures var n := CheckFirst(s[i]);
      if n == 1 then Valid(s[i..]) == Valid(s[i + 1..])
      else if n == 0 || n > |s| - i || FullValue(s[i..], n).None? then !Valid(s[i..])
      else Valid(s[i..]) == Valid(s[i + n..])
  {
    hide CheckFirst, FullValue;
    var n := CheckFirst(s[i]);
    if n <= |s| - i {
      assert s[i..][n..] == s[i + n..];
    }
  }

  // ---- The codec against its specification ----

  /** The accumulator of utf8_check_full unrolled for each sequence length. */
  lemma FoldBitsUnrolled(s: Text)
    ensures |s| >= 2 ==> FoldBits(s, 2, 2) == Append(s[0] % 32, s[1])
    ensures |s| >= 3 ==> FoldBits(s, 3, 3) == Append(Append(s[0] % 16, s[1]), s[2])
    ensures |s| >= 4 ==> FoldBits(s, 4, 4) == Append(Append(Append(s[0] % 8, s[1]), s[2]), s[3])
  {
    if |s| >= 2 {
      assert FoldBits(s, 2, 1) == s[0] % 32;
    }
    if |s| >= 3 {
      assert FoldBits(s, 3, 1) == s[0] % 16;
      assert FoldBits(s, 3, 2) == Append(s[0] % 16, s[1]);
    }
    if |s| >= 4 {
      assert FoldBits(s, 4, 1) == s[0] % 8;
      assert FoldBits(s, 4, 2) == Append(s[0] % 8, s[1]);
      assert FoldBits(s, 4, 3) == Append(Append(s[0] % 8, s[1]), s[2]);
    }
  }

  /** One six-bit group on top of another, and apart again. */
  lemma Group(high: nat, low: nat)
    requires low < 64
    ensures (high * 64 + low) / 64 == high
    ensures (high * 64 + low) % 64 == low
  {
  }

  lemma Groups(high: nat, middle: nat, low: nat)
    requires middle < 64 && low < 64
    ensures var v := (high * 64 + middle) * 64 + low;
      v / 4096 == high && v / 64 % 64 == middle && v % 64 == low
  {
    Group(high, middle);
    Group(high * 64 + middle, low);
    Regroup((high * 64 + middle) * 64 + low);
  }

  /** A number is its low six bits on top of the rest. */
  lemma Regroup(v: nat)
    ensures v / 64 * 64 + v % 64 == v
    ensures v / 64 / 64 == v / 4096
    ensures v / 4096 / 64 == v / 262144
  {
  }

  /** The payload of a continuation byte. */
  lemma Low(u: Byte)
    requires IsContinuation(u)
    ensures u % 64 == u - 0x80
  {
  }

  /** The payload of the lead byte that starts a sequence of each length. */
  lemma Lead(u: Byte)
    ensures CheckFirst(u) == 2 ==> u % 32 == u - 0xC0
    ensures CheckFirst(u) == 3 ==> u % 16 == u - 0xE0
    ensures CheckFirst(u) == 4 ==> u % 8 == u - 0xF0
  {
  }

  /** Reading back the encoding of a scalar value, whatever follows it. */
  lemma FrontOfEncode(cp: int, rest: Text)
    requires IsScalar(cp)
    ensures Front(Encode(cp) + rest) == Some(Char(cp, |Encode(cp)|))
  {
    var s := Encode(cp) + rest;
    if 0x80 <= cp {
      var n := |Encode(cp)|;
      assert n == CheckFirst(s[0]);
      FullValueOfEncode(cp, rest);
    }
  }

  lemma FullValueOfEncode(cp: int, rest: Text)
    requires IsScalar(cp) && 0x80 <= cp
    ensures FullValue(Encode(cp) + rest, |Encode(cp)|) == Some(cp)
  {
    var s := Encode(cp) + rest;
    if cp < 0x800 {
      FullTwo(cp, s);
    } else if cp < 0x10000 {
      FullThree(cp, s);
    } else {
      FullFour(cp, s);
    }
  }

  lemma FullTwo(cp: int, s: Text)
    requires 0x80 <= cp < 0x800 && |s| >= 2 && s[..2] == Encode(cp)
    ensures FullValue(s, 2) == Some(cp)
  {
    var a, b := s[..2][0], s[..2][1];
    FoldBitsUnrolled(s);
    Lead(a);
    Low(b);
    Regroup(cp);
    assert Append(a - 0xC0, b) == cp;
  }

  lemma FullThree(cp: int, s: Text)
    requires 0x800 <= cp < 0x10000 && IsScalar(cp) && |s| >= 3 && s[..3] == Encode(cp)
    ensures FullValue(s, 3) == Some(cp)
  {
    var a, b, c := s[..3][0], s[..3][1], s[..3][2];
    FoldBitsUnrolled(s);
    Lead(a);
    Low(b);
    Low(c);
    Regroup(cp);
    Regroup(cp / 64);
    assert Append(a - 0xE0, b) == cp / 64;
    assert Append(cp / 64, c) == cp;
  }

  lemma FullFour(cp: int, s: Text)
    requires 0x10000 <= cp <= 0x10FFFF && |s| >= 4 && s[..4] == Encode(cp)
    ensures FullValue(s, 4) == Some(cp)
  {
    var a, b, c, d := s[..4][0], s[..4][1], s[..4][2], s[..4][3];
    FoldBitsUnrolled(s);
    Lead(a);
    Low(b);
    Low(c);
    Low(d);
    Regroup(cp);
    Regroup(cp / 64);
    Regroup(cp / 4096);
    assert Append(a - 0xF0, b) == cp / 4096;
    assert Append(cp / 4096, c) == cp / 64;
    assert Append(cp / 64, d) == cp;
  }

  /** What the decoder accepts is the encoding of a scalar value. */
  lemma EncodeOfFront(s: Text)
    requires s != [] && Front(s).Some?
    ensures IsScalar(Front(s).value.codepoint)
    ensures Encode(Front(s).value.codepoint) == s[..Front(s).value.size]
  {
    var n := CheckFirst(s[0]);
    FoldBitsUnrolled(s);
    if n == 2 {
      assert IsContinuation(s[1]);
      EncodeTwo(s[0], s[1]);
    } else if n == 3 {
      assert IsContinuation(s[1]) && IsContinuation(s[2]);
      EncodeThree(s[0], s[1], s[2]);
    } else if n == 4 {
      assert IsContinuation(s[1]) && IsContinuation(s[2]) && IsContinuation(s[3]);
      EncodeFour(s[0], s[1], s[2], s[3]);
    }
  }

  lemma EncodeTwo(a: Byte, b: Byte)
    requires CheckFirst(a) == 2 && IsContinuation(b)
    ensures 0x80 <= Append(a % 32, b) < 0x800 && Encode(Append(a % 32, b)) == [a, b]
  {
    Lead(a);
    Low(b);
    Group(a - 0xC0, b - 0x80);
  }

  lemma ValueOfThree(a: Byte, b: Byte, c: Byte)
    requires CheckFirst(a) == 3 && IsContinuation(b) && IsContinuation(c)
    ensures Append(Append(a % 16, b), c) == ((a - 0xE0) * 64 + (b - 0x80)) * 64 + (c - 0x80)
    ensures 0xE0 <= a
  {
    Lead(a);
    Low(b);
    Low(c);
  }

  lemma ThreeOfValue(v: int)
    requires 0x800 <= v < 0x10000
    ensures Encode(v) == [0xE0 + v / 4096, 0x80 + v / 64 % 64, 0x80 + v % 64]
  {
  }

  lemma EncodeThree(a: Byte, b: Byte, c: Byte)
    requires CheckFirst(a) == 3 && IsContinuation(b) && IsContinuation(c)
    requires 0x800 <= Append(Append(a % 16, b), c) < 0x10000
    ensures Encode(Append(Append(a % 16, b), c)) == [a, b, c]
  {
    hide Encode, Append, CheckFirst;
    ValueOfThree(a, b, c);
    Groups(a - 0xE0, b - 0x80, c - 0x80);
    ThreeOfValue(Append(Append(a % 16, b), c));
  }

  lemma EncodeFour(a: Byte, b: Byte, c: Byte, d: Byte)
    requires CheckFirst(a) == 4 && IsContinuation(b) && IsContinuation(c) && IsContinuation(d)
    requires 0x10000 <= Append(Append(Append(a % 8, b), c), d) <= 0x10FFFF
    ensures Encode(Append(Append(Append(a % 8, b), c), d)) == [a, b, c, d]
  {
    Lead(a);
    Low(b);
    Low(c);
    Low(d);
    var high := (a - 0xF0) * 64 + (b - 0x80);
    Group(a - 0xF0, b - 0x80);
    Groups(high, c - 0x80, d - 0x80);
    Regroup((high * 64 + (c - 0x80)) * 64 + (d - 0x80));
  }

  /** The scalar values of a valid text, one per step of utf8_iterate. */
  ghost function Scalars(s: Text): (cps: seq<int>)
    requires Valid(s)
    ensures AllScalars(cps)
    ensures EncodeAll(cps) == s
    decreases |s|
  {
    if s == [] then [] else
      EncodeOfFront(s);
      var Char(cp, n) := Front(s).value;
      var cps := Scalars(s[n..]);
      EncodeAllOf(cp, cps, s, n);
      [cp] + cps
  }

  lemma EncodeAllOf(cp: int, cps: seq<int>, s: Text, n: nat)
    requires IsScalar(cp) && AllScalars(cps) && n <= |s| && Encode(cp) == s[..n] && EncodeAll(cps) == s[n..]
    ensures AllScalars([cp] + cps) && EncodeAll([cp] + cps) == s
  {
    hide Encode;
    assert ([cp] + cps)[1..] == cps;
    assert s == s[..n] + s[n..];
  }

  /** A concatenation of encodings is valid, and iterating over it gives back the very scalar values. */
  lemma {:induction false} ScalarsOfEncodeAll(cps: seq<int>)
    requires AllScalars(cps)
    ensures Valid(EncodeAll(cps)) && Scalars(EncodeAll(cps)) == cps
  {
    if cps != [] {
      var s := EncodeAll(cps);
      FrontOfEncode(cps[0], EncodeAll(cps[1..]));
      assert s[|Encode(cps[0])|..] == EncodeAll(cps[1..]);
      ScalarsOfEncodeAll(cps[1..]);
    }
  }

  /** A text is accepted exactly when it is a concatenation of encodings of scalar values. */
  lemma ValidIffEncoded(s: Text)
    ensures Valid(s) <==> exists cps: seq<int> :: AllScalars(cps) && EncodeAll(cps) == s
  {
    if Valid(s) {
      var cps := Scalars(s);
      assert AllScalars(cps) && EncodeAll(cps) == s;
    }
    forall cps: seq<int> | AllScalars(cps) && EncodeAll(cps) == s
      ensures Valid(s)
    {
      ScalarsOfEncodeAll(cps);
    }
  }

  /** No text has two decompositions into scalar values. */
  lemma EncodeAllInjective(cps: seq<int>, cps': seq<int>)
    requires AllScalars(cps)
    requires AllScalars(cps')
    requires EncodeAll(cps) == EncodeAll(cps')
    ensures cps == cps'
  {
    ScalarsOfEncodeAll(cps);
    ScalarsOfEncodeAll(cps');
  }

  lemma {:induction false} ValidConcat(s: Text, t: Text)
    requires Valid(s)
    ensures Valid(s + t) <==> Valid(t)
    decreases |s|
  {
    if s == [] {
      assert s + t == t;
    } else {
      var n := Front(s).value.size;
      FrontPrefix(s, t);
      assert (s + t)[n..] == s[n..] + t;
      ValidConcat(s[n..], t);
    }
  }

  /** The first character does not depend on what follows it. */
  lemma FrontPrefix(s: Text, t: Text)
    requires s != [] && Front(s).Some?
    ensures Front(s + t) == Front(s)
  {
    EncodeOfFront(s);
    var Char(cp, n) := Front(s).value;
    FrontOfEncode(cp, s[n..] + t);
    assert s + t == Encode(cp) + (s[n..] + t);
  }
}
