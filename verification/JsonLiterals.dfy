/** Scanning back the string literals, numerals and words that the printer writes. */
module JsonLiterals {
  import opened Bytes
  import opened JsonValue
  import opened JsonDump
  import opened JsonLoad
  import Utf8

  /** What can follow a value in the text of a container, or at its end. */
  predicate IsDelimited(tail: Text) {
    tail == [] || tail[0] in {COMMA, RBRACKET, RBRACE} || IsSpace(tail[0])
  }

  predicate AllSpace(s: Text) {
    forall i :: 0 <= i < |s| ==> IsSpace(s[i])
  }

  lemma GetAscii(s: Text)
    requires s != [] && s[0] < 0x80
    ensures Get(Src(0, s)) == Got(s[0], Src(0, s[1..]))
  {
  }

  lemma {:induction false} SkipAllSpace(space: Text, s: Text)
    requires AllSpace(space)
    ensures SkipSpace(Src(0, space + s)) == SkipSpace(Src(0, s))
  {
    if space == [] {
      assert space + s == s;
    } else {
      GetAscii(space + s);
      assert (space + s)[1..] == space[1..] + s;
      SkipAllSpace(space[1..], s);
    }
  }

  /** White space in front of a token changes nothing. */
  lemma ScanAfterSpace(space: Text, s: Text, f: LoadFlags)
    requires AllSpace(space)
    ensures Scan(Src(0, space + s), f) == Scan(Src(0, s), f)
  {
    SkipAllSpace(space, s);
  }

  lemma UnreadDelimited(tail: Text)
    requires IsDelimited(tail)
    ensures Unread(Src(0, tail)) == Src(0, tail)
    ensures !IsDigit(Get(Src(0, tail)).c) && !IsLetter(Get(Src(0, tail)).c) && Get(Src(0, tail)).c != '.' as int
  {
    if tail != [] {
      GetAscii(tail);
    }
  }

  // ---- String literals ----

  /** Every byte of a character outside ASCII is at least 0x80. */
  lemma HighBytes(cp: int)
    requires 0x80 <= cp <= 0x10FFFF
    ensures forall i :: 0 <= i < |Utf8.Encode(cp)| ==> Utf8.Encode(cp)[i] >= 0x80
  {
  }

  /** A byte that is neither special nor a control character is taken on its own. */
  lemma TakeByte(s: Src)
    requires Get(s).c >= 0x20 && Get(s).c != QUOTE && Get(s).c != BACKSLASH
    ensures TakeLiteral(s) == Prepend([Get(s).c], TakeLiteral(Get(s).src))
  {
  }

  lemma PrependTwice(a: Text, b: Text, t: Option<Taken>)
    ensures Prepend(a, Prepend(b, t)) == Prepend(a + b, t)
    ensures Prepend([], t) == t
  {
    if t.Some? {
      assert a + (b + t.value.text) == a + b + t.value.text;
      assert [] + t.value.text == t.value.text;
    }
  }

  lemma {:induction false} LiteralOfMid(m: Text, x: Text)
    requires forall i :: 0 <= i < |m| ==> m[i] >= 0x80
    ensures TakeLiteral(Src(|m|, m + x)) == Prepend(m, TakeLiteral(Src(0, x)))
  {
    hide TakeLiteral, Prepend;
    PrependTwice([], [], TakeLiteral(Src(0, x)));
    if m == [] {
      assert m + x == x;
    } else {
      assert (m + x)[1..] == m[1..] + x;
      TakeByte(Src(|m|, m + x));
      LiteralOfMid(m[1..], x);
      PrependTwice([m[0]], m[1..], TakeLiteral(Src(0, x)));
      assert [m[0]] + m[1..] == m;
    }
  }

  /** A character that is written as it is is read as it is. */
  lemma LiteralOfChar(cp: int, x: Text, f: DumpFlags)
    requires Utf8.IsScalar(cp) && !NeedsEscape(cp, f)
    ensures TakeLiteral(Src(0, Utf8.Encode(cp) + x)) == Prepend(Utf8.Encode(cp), TakeLiteral(Src(0, x)))
  {
    var ch := Utf8.Encode(cp);
    if cp >= 0x80 {
      HighBytes(cp);
    }
    LiteralOfBytes(cp, ch, x);
  }

  lemma LiteralOfBytes(cp: int, ch: Text, x: Text)
    requires Utf8.IsScalar(cp) && ch == Utf8.Encode(cp)
    requires ch[0] >= 0x20 && ch[0] != QUOTE && ch[0] != BACKSLASH
    requires cp >= 0x80 ==> forall i :: 0 <= i < |ch| ==> ch[i] >= 0x80
    ensures TakeLiteral(Src(0, ch + x)) == Prepend(ch, TakeLiteral(Src(0, x)))
  {
    hide TakeLiteral, Prepend, Utf8.Front;
    Utf8.FrontOfEncode(cp, x);
    assert (ch + x)[1..] == ch[1..] + x;
    TakeByte(Src(0, ch + x));
    assert |ch| > 1 ==> cp >= 0x80;
    LiteralOfMid(ch[1..], x);
    PrependTwice([ch[0]], ch[1..], TakeLiteral(Src(0, x)));
    assert [ch[0]] + ch[1..] == ch;
  }

  lemma {:induction false} DecodeHigh(m: Text, p: Text)
    requires forall i :: 0 <= i < |m| ==> m[i] >= 0x80
    requires WellEscaped(p)
    ensures WellEscaped(m + p) && Decode(m + p) == Cons(m, Decode(p))
  {
    hide Decode, WellEscaped;
    if m == [] {
      assert m + p == p;
      if Decode(p).Some? {
        assert m + Decode(p).value == Decode(p).value;
      }
    } else {
      assert (m + p)[1..] == m[1..] + p;
      DecodeHigh(m[1..], p);
      DecodeHighByte(m + p);
      if Decode(p).Some? {
        assert [m[0]] + (m[1..] + Decode(p).value) == m + Decode(p).value;
      }
    }
  }

  lemma DecodeHighByte(p: Text)
    requires p != [] && p[0] >= 0x80 && WellEscaped(p[1..])
    ensures WellEscaped(p) && Decode(p) == Cons([p[0]], Decode(p[1..]))
  {
  }

  lemma DecodeChar(cp: int, p: Text, f: DumpFlags)
    requires Utf8.IsScalar(cp) && !NeedsEscape(cp, f)
    requires WellEscaped(p)
    ensures WellEscaped(Utf8.Encode(cp) + p) && Decode(Utf8.Encode(cp) + p) == Cons(Utf8.Encode(cp), Decode(p))
  {
    var ch := Utf8.Encode(cp);
    if cp < 0x80 {
      assert (ch + p)[1..] == p;
    } else {
      HighBytes(cp);
      DecodeHigh(ch, p);
    }
  }

  lemma HexDigitRoundTrip(n: nat)
    requires n < 16
    ensures IsHexDigit(HexDigit(n)) && HexDigitValue(HexDigit(n)) == n
  {
  }

  lemma HexRoundTrip(n: nat)
    requires n < 0x10000
    ensures n / 4096 < 16
    ensures IsHexDigit(HexDigit(n / 4096)) && IsHexDigit(HexDigit(n / 256 % 16))
    ensures IsHexDigit(HexDigit(n / 16 % 16)) && IsHexDigit(HexDigit(n % 16))
    ensures HexValue(HexDigit(n / 4096), HexDigit(n / 256 % 16), HexDigit(n / 16 % 16), HexDigit(n % 16)) == n
  {
    HexDigitRoundTrip(n / 4096);
    HexDigitRoundTrip(n / 256 % 16);
    HexDigitRoundTrip(n / 16 % 16);
    HexDigitRoundTrip(n % 16);
    assert n / 256 == n / 16 / 16 && n / 4096 == n / 256 / 16;
    assert n / 4096 * 16 + n / 256 % 16 == n / 256;
    assert n / 256 * 16 + n / 16 % 16 == n / 16;
  }

  lemma TakeHexFour(h: Text, x: Text)
    requires |h| == 4 && forall i :: 0 <= i < 4 ==> IsHexDigit(h[i])
    ensures TakeHex(Src(0, h + x), 4) == Some(Taken(h, Src(0, x)))
  {
    TakeHexAll(h, x);
  }

  lemma {:induction false} TakeHexAll(h: Text, x: Text)
    requires forall i :: 0 <= i < |h| ==> IsHexDigit(h[i])
    ensures TakeHex(Src(0, h + x), |h|) == Some(Taken(h, Src(0, x)))
  {
    if h == [] {
      assert h + x == x;
    } else {
      GetAscii(h + x);
      assert (h + x)[1..] == h[1..] + x;
      TakeHexAll(h[1..], x);
      assert [h[0]] + h[1..] == h;
    }
  }

  /** The first pass takes a \uXXXX escape whole. */
  lemma LiteralOfUnicode(n: nat, x: Text)
    requires n < 0x10000
    ensures TakeLiteral(Src(0, UnicodeEscape(n) + x)) == Prepend(UnicodeEscape(n), TakeLiteral(Src(0, x)))
  {
    hide Get, TakeHex, TakeLiteral, Prepend, HexValue, IsHexDigit;
    var e := UnicodeEscape(n);
    HexRoundTrip(n);
    var h := e[2..];
    assert forall i :: 0 <= i < 4 ==> IsHexDigit(h[i]);
    var s := e + x;
    GetAscii(s);
    assert s[1..] == ['u' as int] + (h + x);
    GetAscii(s[1..]);
    assert s[1..][1..] == h + x;
    TakeHexFour(h, x);
    TakeUnicode(Src(0, s));
    assert [BACKSLASH, 'u' as int] + h == e;
  }

  lemma TakeUnicode(s: Src)
    requires Get(s).c == BACKSLASH && Get(Get(s).src).c == 'u' as int && TakeHex(Get(Get(s).src).src, 4).Some?
    ensures var h := TakeHex(Get(Get(s).src).src, 4).value;
      TakeLiteral(s) == Prepend([BACKSLASH, 'u' as int] + h.text, TakeLiteral(h.src))
  {
    hide Get, TakeHex;
  }

  lemma LiteralOfShort(c: Byte, x: Text)
    requires IsShortEscape(c)
    ensures TakeLiteral(Src(0, [BACKSLASH, c] + x)) == Prepend([BACKSLASH, c], TakeLiteral(Src(0, x)))
  {
    var s := [BACKSLASH, c] + x;
    GetAscii(s);
    assert s[1..] == [c] + x;
    GetAscii(s[1..]);
    assert s[1..][1..] == x;
  }

  predicate HasShortEscape(cp: int) {
    cp == BACKSLASH || cp == QUOTE || cp == SLASH || cp == 8 || cp == 12 || cp == 10 || cp == 13 || cp == 9
  }

  /** The two halves of a code point outside the basic multilingual plane. */
  lemma SurrogateHalves(cp: int)
    requires 0x10000 <= cp <= 0x10FFFF
    ensures var high, low := 0xD800 + (cp - 0x10000) / 1024, 0xDC00 + (cp - 0x10000) % 1024;
      IsHighSurrogate(high) && IsLowSurrogate(low) && PairValue(high, low) == cp
  {
  }

  /** The first pass takes any escape sequence of the printer whole. */
  lemma LiteralOfEscape(cp: int, x: Text)
    requires Utf8.IsScalar(cp)
    ensures TakeLiteral(Src(0, EscapeText(cp) + x)) == Prepend(EscapeText(cp), TakeLiteral(Src(0, x)))
  {
    if HasShortEscape(cp) {
      LiteralOfShort(EscapeText(cp)[1], x);
    } else if cp < 0x10000 {
      LiteralOfUnicode(cp, x);
    } else {
      SurrogateHalves(cp);
      var a, b := UnicodeEscape(0xD800 + (cp - 0x10000) / 1024), UnicodeEscape(0xDC00 + (cp - 0x10000) % 1024);
      assert a + b + x == a + (b + x);
      LiteralOfUnicode(0xD800 + (cp - 0x10000) / 1024, b + x);
      LiteralOfUnicode(0xDC00 + (cp - 0x10000) % 1024, x);
      PrependTwice(a, b, TakeLiteral(Src(0, x)));
    }
  }

  lemma EscapeValueOf(n: nat, p: Text)
    requires n < 0x10000 && WellEscaped(p)
    ensures WellEscaped(UnicodeEscape(n) + p)
    ensures EscapeValue(UnicodeEscape(n) + p) == n
    ensures (UnicodeEscape(n) + p)[6..] == p
  {
    HexRoundTrip(n);
    var s := UnicodeEscape(n) + p;
    assert s[6..] == p;
    assert s[2] == HexDigit(n / 4096) && s[3] == HexDigit(n / 256 % 16);
    assert s[4] == HexDigit(n / 16 % 16) && s[5] == HexDigit(n % 16);
  }

  lemma DecodeShort(cp: int, p: Text)
    requires HasShortEscape(cp) && WellEscaped(p)
    ensures WellEscaped(EscapeText(cp) + p) && Decode(EscapeText(cp) + p) == Cons([cp], Decode(p))
  {
    var s := EscapeText(cp) + p;
    assert s[2..] == p;
    assert s[0] == BACKSLASH && IsShortEscape(s[1]) && ShortEscapeValue(s[1]) == cp;
  }

  lemma DecodeUnicode(n: nat, p: Text)
    requires n < 0x10000 && !IsHighSurrogate(n) && !IsLowSurrogate(n) && WellEscaped(p)
    ensures WellEscaped(UnicodeEscape(n) + p) && Decode(UnicodeEscape(n) + p) == Cons(Utf8.Encode(n), Decode(p))
  {
    EscapeValueOf(n, p);
    hide EscapeValue, Utf8.Encode, HexDigit;
  }

  lemma DecodeSurrogates(high: nat, low: nat, p: Text)
    requires IsHighSurrogate(high) && IsLowSurrogate(low) && WellEscaped(p)
    ensures var s := UnicodeEscape(high) + UnicodeEscape(low) + p;
      WellEscaped(s) && Decode(s) == Cons(Utf8.Encode(PairValue(high, low)), Decode(p))
  {
    EscapeValueOf(low, p);
    EscapeValueOf(high, UnicodeEscape(low) + p);
    assert UnicodeEscape(high) + UnicodeEscape(low) + p == UnicodeEscape(high) + (UnicodeEscape(low) + p);
    hide EscapeValue, Utf8.Encode, PairValue, HexDigit;
  }

  /** The second pass turns any escape sequence of the printer into the character it stands for. */
  lemma DecodeEscape(cp: int, p: Text)
    requires Utf8.IsScalar(cp) && WellEscaped(p)
    ensures WellEscaped(EscapeText(cp) + p) && Decode(EscapeText(cp) + p) == Cons(Utf8.Encode(cp), Decode(p))
  {
    hide WellEscaped, Decode;
    if HasShortEscape(cp) {
      DecodeShort(cp, p);
    } else if cp < 0x10000 {
      DecodeUnicode(cp, p);
    } else {
      SurrogateHalves(cp);
      DecodeSurrogates(0xD800 + (cp - 0x10000) / 1024, 0xDC00 + (cp - 0x10000) % 1024, p);
    }
  }

  /** Pending characters come first in the text. */
  lemma {:induction false} BodyAfterRun(s: Text, run: Text, f: DumpFlags)
    requires Utf8.Valid(s)
    ensures StringBody(s, run, f).ok
    ensures StringBody(s, run, f).text == run + StringBody(s, [], f).text
    ensures StringBody(s, [], f).ok
    decreases |s|
  {
    hide StringBody, EscapeText, NeedsEscape, Utf8.Front;
    StringBodyStep(s, run, f);
    StringBodyStep(s, [], f);
    if s == [] {
      Insert(run, [QUOTE], []);
    } else {
      var c := Utf8.Front(s).value;
      var rest := s[c.size..];
      BodyAfterRun(rest, [], f);
      if NeedsEscape(c.codepoint, f) {
        Insert(run, EscapeText(c.codepoint), StringBody(rest, [], f).text);
      } else {
        BodyAfterRun(rest, run + s[..c.size], f);
        BodyAfterRun(rest, [] + s[..c.size], f);
        Insert(run, s[..c.size], StringBody(rest, [], f).text);
      }
    }
  }

  lemma Insert(run: Text, a: Text, b: Text)
    ensures run + a + b == run + ([] + a + b)
    ensures run + a == run + ([] + a)
  {
  }

  /** What is written for a character. */
  function CharText(cp: int, f: DumpFlags): Text
    requires 0 <= cp <= 0x10FFFF
  {
    if NeedsEscape(cp, f) then EscapeText(cp) else Utf8.Encode(cp)
  }

  /** The first character of a valid string, and what is written for it. */
  lemma BodyStep(s: Text, f: DumpFlags)
    requires Utf8.Valid(s) && s != []
    ensures var c := Utf8.Front(s).value;
      Utf8.IsScalar(c.codepoint) && Utf8.Encode(c.codepoint) == s[..c.size] &&
      StringBody(s, [], f).text == CharText(c.codepoint, f) + StringBody(s[c.size..], [], f).text
  {
    Utf8.EncodeOfFront(s);
    StringBodyStep(s, [], f);
    var c := Utf8.Front(s).value;
    if NeedsEscape(c.codepoint, f) {
      assert [] + EscapeText(c.codepoint) == EscapeText(c.codepoint);
    } else {
      assert [] + s[..c.size] == s[..c.size];
      BodyAfterRun(s[c.size..], s[..c.size], f);
    }
  }

  /** What is written for some characters, one after the other. */
  ghost function CharTexts(cps: seq<int>, f: DumpFlags): Text
    requires Utf8.AllScalars(cps)
  {
    if cps == [] then [] else CharText(cps[0], f) + CharTexts(cps[1..], f)
  }

  lemma {:induction false} BodyIsItsCharacters(s: Text, f: DumpFlags)
    requires Utf8.Valid(s)
    ensures StringBody(s, [], f).text == CharTexts(Utf8.Scalars(s), f) + [QUOTE]
    decreases |s|
  {
    hide CharText, Utf8.Encode, Utf8.Front;
    if s == [] {
      assert CharTexts(Utf8.Scalars(s), f) == [];
    } else {
      hide StringBody;
      BodyStep(s, f);
      var rest := s[Utf8.Front(s).value.size..];
      var cps := Utf8.Scalars(s);
      assert cps == [Utf8.Front(s).value.codepoint] + Utf8.Scalars(rest);
      assert cps[1..] == Utf8.Scalars(rest);
      BodyIsItsCharacters(rest, f);
    }
  }

  /**
   dump_string writes between its quotes each Unicode character of the string, one after the other: its
   escape or, if the flags ask for none, its own encoding.
   */
  lemma StringIsItsCharacters(s: Text, f: DumpFlags)
    requires Utf8.Valid(s)
    ensures StringText(s, f) == Written(true, [QUOTE] + (CharTexts(Utf8.Scalars(s), f) + [QUOTE]))
  {
    BodyAfterRun(s, [], f);
    BodyIsItsCharacters(s, f);
  }

  /** Both passes take what is written for a character as that character. */
  lemma CharRoundTrip(cp: int, f: DumpFlags, body: Text, tail: Text)
    requires Utf8.IsScalar(cp) && WellEscaped(body)
    ensures TakeLiteral(Src(0, CharText(cp, f) + body + tail)) == Prepend(CharText(cp, f), TakeLiteral(Src(0, body + tail)))
    ensures WellEscaped(CharText(cp, f) + body)
    ensures Decode(CharText(cp, f) + body) == Cons(Utf8.Encode(cp), Decode(body))
  {
    assert CharText(cp, f) + body + tail == CharText(cp, f) + (body + tail);
    if NeedsEscape(cp, f) {
      LiteralOfEscape(cp, body + tail);
      DecodeEscape(cp, body);
    } else {
      LiteralOfChar(cp, body + tail, f);
      DecodeChar(cp, body, f);
    }
  }

  /**
   Scanning back a printed literal, for every valid string and every combination of escape
   flags: the first pass stops at the closing quote, and the second gives the string.
   */
  lemma {:induction false} LiteralRoundTrip(s: Text, f: DumpFlags, tail: Text)
    requires Utf8.Valid(s)
    ensures var body := StringBody(s, [], f).text;
      TakeLiteral(Src(0, body + tail)) == Some(Taken(body, Src(0, tail))) &&
      WellEscaped(body) && Decode(body) == Some(s)
    decreases |s|
  {
    if s == [] {
      StringBodyStep(s, [], f);
      var body := StringBody(s, [], f).text;
      assert body == [QUOTE];
      GetAscii(body + tail);
      assert (body + tail)[1..] == tail;
    } else {
      var c := Utf8.Front(s).value;
      LiteralRoundTrip(s[c.size..], f, tail);
      LiteralStep(s, f, tail);
    }
  }

  lemma LiteralStep(s: Text, f: DumpFlags, tail: Text)
    requires Utf8.Valid(s) && s != []
    requires var c := Utf8.Front(s).value; var body := StringBody(s[c.size..], [], f).text;
      TakeLiteral(Src(0, body + tail)) == Some(Taken(body, Src(0, tail))) &&
      WellEscaped(body) && Decode(body) == Some(s[c.size..])
    ensures var body := StringBody(s, [], f).text;
      TakeLiteral(Src(0, body + tail)) == Some(Taken(body, Src(0, tail))) &&
      WellEscaped(body) && Decode(body) == Some(s)
  {
    hide StringBody, TakeLiteral, WellEscaped, Decode, CharText, Utf8.Encode, Utf8.Front;
    BodyStep(s, f);
    var c := Utf8.Front(s).value;
    assert s[..c.size] + s[c.size..] == s;
    CharRoundTrip(c.codepoint, f, StringBody(s[c.size..], [], f).text, tail);
  }

  lemma ScanQuoted(body: Text, s: Text, tail: Text, f: LoadFlags)
    requires TakeLiteral(Src(0, body + tail)) == Some(Taken(body, Src(0, tail)))
    requires WellEscaped(body) && Decode(body) == Some(s)
    ensures Scan(Src(0, [QUOTE] + body + tail), f) == Scanned(TString(s), Src(0, tail))
  {
    hide TakeLiteral, Decode, WellEscaped;
    var all := [QUOTE] + body + tail;
    GetAscii(all);
    assert all[1..] == body + tail;
  }

  lemma ScanStringText(s: Text, df: DumpFlags, tail: Text, f: LoadFlags)
    requires Utf8.Valid(s)
    ensures StringText(s, df).ok
    ensures Scan(Src(0, StringText(s, df).text + tail), f) == Scanned(TString(s), Src(0, tail))
  {
    hide StringBody, TakeLiteral, Decode, WellEscaped, Scan;
    BodyAfterRun(s, [], df);
    LiteralRoundTrip(s, df, tail);
    ScanQuoted(StringBody(s, [], df).text, s, tail, f);
  }

  // ---- Numerals ----

  lemma {:induction false} TakeAllDigits(ds: Text, tail: Text)
    requires AllDigits(ds) && !IsDigit(Get(Src(0, tail)).c)
    ensures TakeDigits(Src(0, ds + tail)) == Taken(ds, Src(0, tail))
  {
    if ds == [] {
      assert ds + tail == tail;
    } else {
      GetAscii(ds + tail);
      assert (ds + tail)[1..] == ds[1..] + tail;
      TakeAllDigits(ds[1..], tail);
      assert [ds[0]] + ds[1..] == ds;
    }
  }

  lemma TakeWhole(n: nat, tail: Text)
    requires !IsDigit(Get(Src(0, tail)).c)
    ensures TakeInteger(Src(0, Digits(n) + tail)) == Some(Taken(Digits(n), Src(0, tail)))
  {
    var ds := Digits(n);
    GetAscii(ds + tail);
    assert (ds + tail)[1..] == ds[1..] + tail;
    if ds[0] == '0' as int {
      assert ds[1..] + tail == tail;
    } else {
      TakeAllDigits(ds, tail);
    }
  }

  /** A minus sign and the digits after it. */
  lemma GetMinus(s: Text)
    ensures Get(Src(0, ['-' as int] + s)) == Got('-' as int, Src(0, s))
  {
    GetAscii(['-' as int] + s);
  }

  lemma StartsNumber(s: Text, f: LoadFlags)
    requires s != [] && (IsDigit(s[0]) || s[0] == '-' as int)
    ensures Scan(Src(0, s), f) == ScanNumber(Src(0, s), f)
  {
    hide Get, ScanNumber, ScanString, TakeLetters;
    GetAscii(s);
  }

  /** A numeral with a sign, and the same after its sign. */
  lemma SignedDigits(negative: bool, n: nat, tail: Text, f: LoadFlags)
    ensures var s := (if negative then ['-' as int] else []) + Digits(n) + tail;
      Scan(Src(0, s), f) == ScanNumber(Src(0, s), f) &&
      (Get(Src(0, s)).c == '-' as int <==> negative) &&
      (if negative then Get(Src(0, s)).src else Src(0, s)) == Src(0, Digits(n) + tail)
  {
    hide Digits, Scan, ScanNumber;
    var sign: Text := if negative then ['-' as int] else [];
    var s := sign + Digits(n) + tail;
    StartsNumber(s, f);
    if negative {
      assert s == ['-' as int] + (Digits(n) + tail);
      GetMinus(Digits(n) + tail);
    } else {
      assert s == Digits(n) + tail;
      GetAscii(s);
    }
  }

  lemma DelimitedNumber(tail: Text)
    requires IsDelimited(tail)
    ensures var c := Get(Src(0, tail)).c; !IsDigit(c) && c != '.' as int && c != 'e' as int && c != 'E' as int
    ensures Unread(Src(0, tail)) == Src(0, tail)
  {
    UnreadDelimited(tail);
  }

  lemma ScanSigned(negative: bool, n: nat, tail: Text, f: LoadFlags)
    requires INT64_MIN <= (if negative then -(n as int) else n) <= INT64_MAX && IsDelimited(tail) && !f.intAsReal
    ensures Scan(Src(0, (if negative then ['-' as int] else []) + Digits(n) + tail), f) ==
      Scanned(TInteger(if negative then -(n as int) else n), Src(0, tail))
  {
    hide Digits, DigitsValue, TakeInteger, Get, Unread, Scan;
    DelimitedNumber(tail);
    SignedDigits(negative, n, tail, f);
    TakeWhole(n, tail);
    DigitsValueOfDigits(n);
  }

  lemma ScanDecimal(i: int, tail: Text, f: LoadFlags)
    requires INT64_MIN <= i <= INT64_MAX && IsDelimited(tail) && !f.intAsReal
    ensures Scan(Src(0, Decimal(i) + tail), f) == Scanned(TInteger(i), Src(0, tail))
  {
    hide Digits, Scan;
    ScanSigned(i < 0, if i < 0 then -i else i, tail, f);
    assert [] + Digits(if i < 0 then -i else i) == Digits(if i < 0 then -i else i);
  }

  lemma ScanFraction(fraction: Text, tail: Text)
    requires IsFraction(fraction) && !IsDigit(Get(Src(0, tail)).c)
    requires fraction == [] ==> Get(Src(0, tail)).c != '.' as int
    ensures TakeFraction(Src(0, fraction + tail)) == Some(Taken(fraction, Src(0, tail)))
  {
    if fraction == [] {
      assert fraction + tail == tail;
    } else {
      GetAscii(fraction + tail);
      assert (fraction + tail)[1..] == fraction[1..] + tail;
      GetAscii(fraction[1..] + tail);
      TakeAllDigits(fraction[1..], tail);
      assert ['.' as int] + fraction[1..] == fraction;
    }
  }

  lemma NoExponent(tail: Text)
    requires IsDelimited(tail)
    ensures Get(Src(0, tail)).c != 'e' as int && Get(Src(0, tail)).c != 'E' as int
  {
  }

  lemma ScanExponent(exponent: Text, tail: Text)
    requires IsExponent(exponent) && IsDelimited(tail)
    ensures TakeExponent(Src(0, exponent + tail)) == Some(Taken(exponent, Src(0, tail)))
  {
    hide Get, TakeDigits;
    UnreadDelimited(tail);
    if exponent == [] {
      assert exponent + tail == tail;
      NoExponent(tail);
    } else {
      var s := exponent + tail;
      GetAscii(s);
      assert s[1..] == exponent[1..] + tail;
      GetAscii(s[1..]);
      if exponent[1] in {'+' as int, '-' as int} {
        assert s[1..][1..] == exponent[2..] + tail;
        GetAscii(exponent[2..] + tail);
        TakeAllDigits(exponent[2..], tail);
        assert [exponent[0], exponent[1]] + exponent[2..] == exponent;
      } else {
        TakeAllDigits(exponent[1..], tail);
        assert [exponent[0]] + exponent[1..] == exponent;
      }
    }
  }

  /** What follows the integer part of a real is not a digit. */
  lemma NoDigitAfterWhole(fraction: Text, exponent: Text, tail: Text)
    requires IsFraction(fraction) && IsExponent(exponent) && IsDelimited(tail)
    ensures !IsDigit(Get(Src(0, exponent + tail)).c) && Get(Src(0, exponent + tail)).c != '.' as int
    ensures !IsDigit(Get(Src(0, fraction + (exponent + tail))).c)
    ensures fraction != [] || exponent != [] ==>
      Get(Src(0, fraction + (exponent + tail))).c in {'.' as int, 'e' as int, 'E' as int}
  {
    UnreadDelimited(tail);
    if exponent == [] {
      assert exponent + tail == tail;
    } else {
      GetAscii(exponent + tail);
    }
    if fraction == [] {
      assert fraction + (exponent + tail) == exponent + tail;
    } else {
      GetAscii(fraction + (exponent + tail));
    }
  }

  lemma ScanRealRest(text: Text, fraction: Text, exponent: Text, tail: Text)
    requires IsFraction(fraction) && IsExponent(exponent) && IsDelimited(tail)
    ensures ScanReal(text, Src(0, fraction + (exponent + tail))) == Scanned(TReal(text + fraction + exponent), Src(0, tail))
  {
    hide TakeFraction, TakeExponent, IsFraction, IsExponent, Get, Unread;
    DelimitedNumber(tail);
    NoDigitAfterWhole(fraction, exponent, tail);
    ScanFraction(fraction, exponent + tail);
    ScanExponent(exponent, tail);
  }

  lemma ScanRealParts(negative: bool, whole: nat, fraction: Text, exponent: Text, tail: Text, f: LoadFlags)
    requires IsFraction(fraction) && IsExponent(exponent) && IsDelimited(tail)
    requires fraction != [] || exponent != [] || f.intAsReal
    ensures Scan(Src(0, RealNumeral(negative, whole, fraction, exponent) + tail), f) ==
      Scanned(TReal(RealNumeral(negative, whole, fraction, exponent)), Src(0, tail))
  {
    hide Digits, TakeInteger, Get, ScanReal, IsFraction, IsExponent, Scan;
    var after := fraction + (exponent + tail);
    NoDigitAfterWhole(fraction, exponent, tail);
    TakeWhole(whole, after);
    SignedDigits(negative, whole, after, f);
    var sign: Text := if negative then ['-' as int] else [];
    ScanRealRest(sign + Digits(whole), fraction, exponent, tail);
    assert RealNumeral(negative, whole, fraction, exponent) + tail == sign + Digits(whole) + after;
  }

  lemma ScanRealNumeral(s: Text, tail: Text, f: LoadFlags)
    requires IsRealNumeral(s) && IsDelimited(tail)
    ensures Scan(Src(0, s + tail), f) == Scanned(TReal(s), Src(0, tail))
  {
    var whole: nat, negative: bool, fraction: Text, exponent: Text :|
      IsFraction(fraction) && IsExponent(exponent) && (fraction != [] || exponent != []) &&
      s == RealNumeral(negative, whole, fraction, exponent);
    ScanRealParts(negative, whole, fraction, exponent, tail, f);
  }

  /** An integer, if integers are to be read as reals. */
  lemma ScanDecimalAsReal(i: int, tail: Text, f: LoadFlags)
    requires IsDelimited(tail) && f.intAsReal
    ensures Scan(Src(0, Decimal(i) + tail), f) == Scanned(TReal(Decimal(i)), Src(0, tail))
  {
    hide Digits, Scan;
    var negative, whole: nat := i < 0, if i < 0 then -i else i;
    ScanRealParts(negative, whole, [], [], tail, f);
    assert RealNumeral(negative, whole, [], []) == Decimal(i);
  }

  // ---- Words ----

  lemma {:induction false} TakeAllLetters(word: Text, tail: Text)
    requires (forall i :: 0 <= i < |word| ==> IsLetter(word[i])) && IsDelimited(tail)
    ensures TakeLetters(Src(0, word + tail)) == Taken(word, Src(0, tail))
  {
    if word == [] {
      UnreadDelimited(tail);
      assert word + tail == tail;
    } else {
      GetAscii(word + tail);
      assert (word + tail)[1..] == word[1..] + tail;
      TakeAllLetters(word[1..], tail);
      assert [word[0]] + word[1..] == word;
    }
  }

  lemma ScanWord(word: Text, tail: Text, f: LoadFlags)
    requires word in {TRUE_TEXT, FALSE_TEXT, NULL_TEXT} && IsDelimited(tail)
    ensures Scan(Src(0, word + tail), f) == Scanned(WordToken(word), Src(0, tail))
  {
    GetAscii(word + tail);
    TakeAllLetters(word, tail);
    UnreadDelimited(tail);
  }

  lemma ScanPunct(c: Byte, tail: Text, f: LoadFlags)
    requires IsPunct(c)
    ensures Scan(Src(0, [c] + tail), f) == Scanned(TPunct(c), Src(0, tail))
  {
    GetAscii([c] + tail);
    assert ([c] + tail)[1..] == tail;
  }
}
