/**
 What the loader gives is a value that jansson may hold, from any input at all: so it can be dumped,
 and loading the dump gives the same value again.
 */
module JsonReload {
  import opened Bytes
  import Assoc
  import opened JsonValue
  import opened JsonDump
  import opened JsonLoad
  import opened JsonLiterals
  import opened JsonRoundTrip
  import Utf8

  // ---- Between tokens the input is at the start of a character ----

  lemma GetAtStart(s: Src)
    requires s.mid == 0 && Get(s).c < 0x80
    ensures Get(s).src.mid == 0
  {
  }

  lemma {:induction false} DigitsAtStart(s: Src)
    requires s.mid == 0
    ensures TakeDigits(s).src.mid == 0
    decreases |s.rest|
  {
    hide Get;
    GetAtStartIf(s);
    if IsDigit(Get(s).c) {
      DigitsAtStart(Get(s).src);
    }
  }

  lemma GetAtStartIf(s: Src)
    requires s.mid == 0
    ensures Get(s).c < 0x80 ==> Get(s).src.mid == 0
  {
    if Get(s).c < 0x80 {
      GetAtStart(s);
    }
  }

  lemma {:induction false} LettersAtStart(s: Src)
    requires s.mid == 0
    ensures TakeLetters(s).src.mid == 0
    decreases |s.rest|
  {
    hide Get;
    GetAtStartIf(s);
    if IsLetter(Get(s).c) {
      LettersAtStart(Get(s).src);
    }
  }

  lemma {:induction false} SpaceAtStart(s: Src)
    requires s.mid == 0
    ensures SkipSpace(s).mid == 0
    decreases |s.rest|
  {
    hide Get;
    GetAtStartIf(s);
    if IsSpace(Get(s).c) {
      SpaceAtStart(Get(s).src);
    }
  }

  lemma UnreadAtStart(s: Src)
    requires s.mid == 0
    ensures Unread(s).mid == 0
  {
    hide Get;
    GetAtStartIf(s);
  }

  lemma {:induction false} HexAtStart(s: Src, n: nat)
    requires s.mid == 0 && TakeHex(s, n).Some?
    ensures TakeHex(s, n).value.src.mid == 0
    decreases n
  {
    hide Get;
    GetAtStartIf(s);
    if n > 0 {
      HexAtStart(Get(s).src, n - 1);
    }
  }

  // ---- Strings ----

  ghost predicate Printable(s: Text) {
    forall i :: 0 <= i < |s| ==> s[i] >= 0x20
  }

  lemma {:induction false} HexIsPrefix(s: Src, n: nat)
    requires TakeHex(s, n).Some?
    ensures var t := TakeHex(s, n).value;
      s.rest == t.text + t.src.rest && Printable(t.text)
    decreases n
  {
    hide Get;
    if n > 0 {
      HexIsPrefix(Get(s).src, n - 1);
    }
  }

  ghost predicate Ascii(s: Text) {
    forall i :: 0 <= i < |s| ==> s[i] < 0x80
  }

  lemma {:induction false} AsciiIsValid(s: Text)
    requires Ascii(s)
    ensures Utf8.Valid(s)
    decreases |s|
  {
    if s != [] {
      assert Utf8.Front(s) == Some(Utf8.Char(s[0], 1));
      AsciiIsValid(s[1..]);
    }
  }

  lemma {:induction false} DropAscii(p: Text, k: nat)
    requires Utf8.Valid(p) && k <= |p| && Ascii(p[..k])
    ensures Utf8.Valid(p[k..])
    decreases k
  {
    AsciiIsValid(p[..k]);
    Utf8.ValidConcat(p[..k], p[k..]);
    assert p == p[..k] + p[k..];
  }

  lemma ScalarThen(cp: int, t: Text)
    requires Utf8.IsScalar(cp) && Utf8.Valid(t)
    ensures Utf8.Valid(Utf8.Encode(cp) + t)
  {
    var ch := Utf8.Encode(cp);
    Utf8.FrontOfEncode(cp, t);
    assert (ch + t)[|ch|..] == t;
  }

  lemma AsciiThen(a: Text, t: Text)
    requires Ascii(a) && Utf8.Valid(t)
    ensures Utf8.Valid(a + t)
  {
    AsciiIsValid(a);
    Utf8.ValidConcat(a, t);
  }

  /** The character at the front of the input: its bytes are read one after the other. */
  lemma CharAtFront(x: Text) returns (cp: int, rest: Text)
    requires Get(Src(0, x)).c >= 0x20 && Get(Src(0, x)).c != QUOTE && Get(Src(0, x)).c != BACKSLASH
    ensures Utf8.IsScalar(cp) && x == Utf8.Encode(cp) + rest && |rest| < |x|
    ensures TakeLiteral(Src(0, x)) == Prepend(Utf8.Encode(cp), TakeLiteral(Src(0, rest)))
  {
    hide TakeLiteral, Utf8.Encode;
    Utf8.EncodeOfFront(x);
    var c := Utf8.Front(x).value;
    cp, rest := c.codepoint, x[c.size..];
    assert x == x[..c.size] + rest;
    if cp >= 0x80 {
      HighBytes(cp);
    }
    LiteralOfBytes(cp, x[..c.size], rest);
  }

  /** What the first pass takes of any input is valid UTF-8, and it stops between two characters. */
  lemma {:induction false} LiteralIsText(x: Text)
    requires TakeLiteral(Src(0, x)).Some?
    ensures var t := TakeLiteral(Src(0, x)).value;
      t.src.mid == 0 && Utf8.Valid(t.text)
    decreases |x|
  {
    hide Get, TakeHex, IsShortEscape, Utf8.Valid, Utf8.Encode, Prepend;
    var s := Src(0, x);
    var g, t := Get(s), TakeLiteral(s).value;
    GetAtStartIf(s);
    if g.c == QUOTE {
      AsciiIsValid([QUOTE]);
    } else if g.c == BACKSLASH {
      var a, rest := EscapeAtFront(x);
      PrependIs(a, TakeLiteral(Src(0, rest)));
      LiteralIsText(rest);
      AsciiThen(a, TakeLiteral(Src(0, rest)).value.text);
    } else {
      var cp, rest := CharAtFront(x);
      PrependIs(Utf8.Encode(cp), TakeLiteral(Src(0, rest)));
      LiteralIsText(rest);
      ScalarThen(cp, TakeLiteral(Src(0, rest)).value.text);
    }
  }

  lemma PrependIs(a: Text, t: Option<Taken>)
    ensures Prepend(a, t).Some? <==> t.Some?
    ensures t.Some? ==> Prepend(a, t) == Some(Taken(a + t.value.text, t.value.src))
  {
  }

  /** The escape at the front of the input. */
  lemma EscapeAtFront(x: Text) returns (a: Text, rest: Text)
    requires Get(Src(0, x)).c == BACKSLASH && TakeLiteral(Src(0, x)).Some?
    ensures Ascii(a) && Printable(a) && |rest| < |x| && x == a + rest
    ensures TakeLiteral(Src(0, x)) == Prepend(a, TakeLiteral(Src(0, rest)))
  {
    hide Get, TakeHex;
    var g := Get(Src(0, x));
    GetAtStartIf(Src(0, x));
    var e := Get(g.src);
    GetAtStartIf(g.src);
    if e.c == 'u' as int {
      HexAtStart(e.src, 4);
      HexIsPrefix(e.src, 4);
      var h := TakeHex(e.src, 4).value;
      a, rest := [BACKSLASH, 'u' as int] + h.text, h.src.rest;
    } else {
      a, rest := [BACKSLASH, e.c], e.src.rest;
    }
  }

  /** A character that is not escaped is decoded as it is. */
  lemma DecodeFront(p: Text) returns (cp: int, q: Text)
    requires WellEscaped(p) && Utf8.Valid(p) && p[0] != QUOTE && p[0] != BACKSLASH
    ensures Utf8.IsScalar(cp) && WellEscaped(q) && Utf8.Valid(q) && |q| < |p| && p == Utf8.Encode(cp) + q
    ensures Decode(p) == Cons(Utf8.Encode(cp), Decode(q))
  {
    hide Decode, Utf8.Encode, WellEscaped;
    Utf8.EncodeOfFront(p);
    var c := Utf8.Front(p).value;
    cp, q := c.codepoint, p[c.size..];
    var ch := p[..c.size];
    assert p == ch + q;
    assert ch[0] == p[0];
    if cp < 0x80 {
      DecodeAscii(p);
      assert ch == [p[0]] && q == p[1..];
    } else {
      HighBytes(cp);
      EscapedBehind(ch, q);
      DecodeHigh(ch, q);
    }
  }

  lemma DecodeAscii(p: Text)
    requires WellEscaped(p) && p[0] != QUOTE && p[0] != BACKSLASH
    ensures WellEscaped(p[1..]) && Decode(p) == Cons([p[0]], Decode(p[1..]))
  {
  }

  lemma {:induction false} EscapedBehind(m: Text, q: Text)
    requires WellEscaped(m + q) && forall i :: 0 <= i < |m| ==> m[i] >= 0x80
    ensures WellEscaped(q)
    decreases |m|
  {
    if m == [] {
      assert m + q == q;
    } else {
      assert (m + q)[1..] == m[1..] + q;
      EscapedBehind(m[1..], q);
    }
  }

  /** What the second pass makes of valid UTF-8 is valid UTF-8: escapes stand for scalar values. */
  lemma {:induction false} DecodeIsText(p: Text)
    requires WellEscaped(p) && Utf8.Valid(p) && Decode(p).Some?
    ensures Utf8.Valid(Decode(p).value)
    decreases |p|
  {
    hide WellEscaped, Utf8.Valid, Utf8.Encode, Decode;
    if p[0] == QUOTE {
      DecodeQuote(p);
    } else if p[0] == BACKSLASH {
      var cp, q := DecodeEscape(p);
      DecodeIsText(q);
      ScalarThen(cp, Decode(q).value);
    } else {
      var cp, q := DecodeFront(p);
      DecodeIsText(q);
      ScalarThen(cp, Decode(q).value);
    }
  }

  lemma DecodeQuote(p: Text)
    requires WellEscaped(p) && p[0] == QUOTE
    ensures Decode(p) == Some([]) && Utf8.Valid([])
  {
  }

  /** The escape at the front of a literal, or the two that make a pair. */
  lemma DecodeEscape(p: Text) returns (cp: int, q: Text)
    requires WellEscaped(p) && Utf8.Valid(p) && p[0] == BACKSLASH && Decode(p).Some?
    ensures Utf8.IsScalar(cp) && WellEscaped(q) && Utf8.Valid(q) && |q| < |p|
    ensures Decode(p) == Cons(Utf8.Encode(cp), Decode(q))
  {
    hide HexValue, PairValue, Utf8.Valid;
    if p[1] == 'u' as int {
      var value := EscapeValue(p);
      DropAscii(p, 6);
      q := p[6..];
      if IsHighSurrogate(value) {
        cp := PairValue(value, EscapeValue(q));
        DropAscii(q, 6);
        q := q[6..];
      } else {
        cp := value;
      }
    } else {
      cp, q := ShortEscapeValue(p[1]), p[2..];
      DropAscii(p, 2);
    }
  }

  // ---- Numbers ----

  /** Digits without leading zeros are those of their number. */
  lemma {:induction false} DigitsOfValue(ds: Text)
    requires AllDigits(ds) && ds != [] && (ds[0] == '0' as int ==> |ds| == 1)
    ensures Digits(DigitsValue(ds)) == ds
    decreases |ds|
  {
    var front, d := ds[..|ds| - 1], ds[|ds| - 1] - '0' as int;
    if front == [] {
      assert DigitsValue(ds) == d && ds == ['0' as int + d];
    } else {
      DigitsOfValue(front);
      var n := DigitsValue(front);
      assert Digits(0) == ['0' as int] && front[0] != '0' as int;
      assert (n * 10 + d) / 10 == n && (n * 10 + d) % 10 == d;
      assert ds == front + ['0' as int + d];
    }
  }

  lemma IntegerKeeps(s: Src)
    requires s.mid == 0 && TakeInteger(s).Some?
    ensures var t := TakeInteger(s).value;
      t.src.mid == 0 && Digits(DigitsValue(t.text)) == t.text
  {
    hide Get, Digits, DigitsValue;
    GetAtStartIf(s);
    DigitsAtStart(s);
    FirstDigit(s);
    DigitsOfValue(TakeInteger(s).value.text);
  }

  lemma FirstDigit(s: Src)
    ensures IsDigit(Get(s).c) ==> TakeDigits(s).text != [] && TakeDigits(s).text[0] == Get(s).c
  {
    hide Get;
  }

  lemma FractionKeeps(s: Src)
    requires s.mid == 0 && TakeFraction(s).Some?
    ensures var t := TakeFraction(s).value;
      t.src.mid == 0 && IsFraction(t.text) && (t.text == [] ==> t.src == s) && (Get(s).c == '.' as int ==> t.text != [])
  {
    hide Get, TakeDigits;
    GetAtStartIf(s);
    if Get(s).c == '.' as int {
      DigitsAtStart(Get(s).src);
      FirstDigit(Get(s).src);
      var ds := TakeDigits(Get(s).src).text;
      assert (['.' as int] + ds)[1..] == ds;
    }
  }

  lemma ExponentKeeps(s: Src)
    requires s.mid == 0 && TakeExponent(s).Some?
    ensures var t := TakeExponent(s).value;
      t.src.mid == 0 && IsExponent(t.text) && (Get(s).c == 'e' as int || Get(s).c == 'E' as int ==> t.text != [])
  {
    hide Get, TakeDigits;
    var g := Get(s);
    if g.c == 'e' as int || g.c == 'E' as int {
      GetAtStartIf(s);
      var sign := Get(g.src);
      GetAtStartIf(g.src);
      if sign.c == '+' as int || sign.c == '-' as int {
        DigitsAtStart(sign.src);
        var ds := TakeDigits(sign.src).text;
        assert ([g.c, sign.c] + ds)[2..] == ds;
      } else {
        DigitsAtStart(g.src);
        FirstDigit(g.src);
        var ds := TakeDigits(g.src).text;
        assert ([g.c] + ds)[1..] == ds;
      }
    }
  }

  /** A number token is a 64-bit integer or the numeral of a real. */
  lemma NumberKeeps(s: Src, f: LoadFlags)
    requires s.mid == 0 && !f.intAsReal
    ensures var r := ScanNumber(s, f);
      r.token != TInvalid ==> r.src.mid == 0 && TokenIsFine(r.token)
  {
    hide Get, TakeInteger, TakeFraction, TakeExponent, Digits, DigitsValue, Unread, IsFraction, IsExponent;
    GetAtStartIf(s);
    var negative := Get(s).c == '-' as int;
    var at := if negative then Get(s).src else s;
    if TakeInteger(at).Some? {
      IntegerKeeps(at);
      var t := TakeInteger(at).value;
      UnreadAtStart(t.src);
      if TakeFraction(t.src).Some? {
        FractionKeeps(t.src);
        var fraction := TakeFraction(t.src).value;
        if TakeExponent(fraction.src).Some? {
          ExponentKeeps(fraction.src);
          var exponent := TakeExponent(fraction.src).value;
          UnreadAtStart(exponent.src);
          var sign: Text := if negative then ['-' as int] else [];
          assert sign + t.text + fraction.text + exponent.text == RealNumeral(negative, DigitsValue(t.text), fraction.text, exponent.text);
        }
      }
    }
  }

  // ---- Tokens ----

  /** What a token may hold. */
  ghost predicate TokenIsFine(token: Token) {
    match token
    case TString(text) => Utf8.Valid(text)
    case TInteger(i) => INT64_MIN <= i <= INT64_MAX
    case TReal(numeral) => IsRealNumeral(numeral)
    case _ => true
  }

  lemma StringKeeps(x: Text)
    ensures var r := ScanString(Src(0, x));
      r.token != TInvalid ==> r.src.mid == 0 && TokenIsFine(r.token)
  {
    hide TakeLiteral, Decode, WellEscaped;
    if TakeLiteral(Src(0, x)).Some? {
      LiteralIsText(x);
      LiteralWellEscaped(Src(0, x));
      var text := TakeLiteral(Src(0, x)).value.text;
      if Decode(text).Some? {
        DecodeIsText(text);
      }
    }
  }

  /** Every token is fine, and leaves the input at the start of a character. */
  lemma ScanKeeps(s: Src, f: LoadFlags)
    requires s.mid == 0 && !f.intAsReal
    ensures var r := Scan(s, f);
      r.token != TInvalid ==> r.src.mid == 0 && TokenIsFine(r.token)
  {
    hide Get, SkipSpace, ScanString, ScanNumber, TakeLetters, Unread, IsRealNumeral, Utf8.Valid;
    SpaceAtStart(s);
    var p := SkipSpace(s);
    GetAtStartIf(p);
    if Get(p).c == QUOTE {
      StringKeeps(Get(p).src.rest);
    } else if IsDigit(Get(p).c) || Get(p).c == '-' as int {
      NumberKeeps(p, f);
    } else if IsLetter(Get(p).c) {
      LettersAtStart(p);
      UnreadAtStart(TakeLetters(p).src);
    }
  }

  // ---- Values ----

  /** A value that may be held, that the loader's flags admit, and that is not higher than `n`. */
  ghost predicate Good(v: Json, f: LoadFlags, n: int) {
    WellFormed(v) && Admitted(v, f) && Height(v) <= n
  }

  ghost predicate GoodItems(items: seq<Json>, f: LoadFlags, n: int) {
    forall i :: 0 <= i < |items| ==> Good(items[i], f, n)
  }

  ghost predicate GoodFields(fields: seq<Assoc.Pair<Json>>, f: LoadFlags, n: int) {
    forall i :: 0 <= i < |fields| ==> Utf8.Valid(fields[i].key) && NulFree(fields[i].key) && Good(fields[i].value, f, n)
  }

  lemma {:induction false} ItemsAreGood(items: seq<Json>, f: LoadFlags, n: nat)
    requires GoodItems(items, f, n)
    ensures WellFormedItems(items) && HeightItems(items) <= n && (f.allowNul || ItemsNulFree(items))
  {
    if items != [] {
      assert Good(items[0], f, n);
      ItemsAreGood(items[1..], f, n);
    }
  }

  lemma {:induction false} FieldsAreGood(fields: seq<Assoc.Pair<Json>>, f: LoadFlags, n: nat)
    requires GoodFields(fields, f, n)
    ensures WellFormedFields(fields) && HeightFields(fields) <= n && (f.allowNul || FieldsNulFree(fields))
  {
    if fields != [] {
      assert Good(fields[0].value, f, n);
      FieldsAreGood(fields[1..], f, n);
    }
  }

  lemma ArrayIsGood(items: seq<Json>, f: LoadFlags, n: nat)
    requires GoodItems(items, f, n)
    ensures Good(Array(items), f, n + 1)
  {
    ItemsAreGood(items, f, n);
  }

  lemma ObjectIsGood(fields: seq<Assoc.Pair<Json>>, f: LoadFlags, n: nat)
    requires GoodFields(fields, f, n) && Assoc.Unique(fields)
    ensures Good(Object(fields), f, n + 1)
  {
    FieldsAreGood(fields, f, n);
  }

  lemma PutIsGood(fields: seq<Assoc.Pair<Json>>, key: Text, v: Json, f: LoadFlags, n: int)
    requires GoodFields(fields, f, n) && Assoc.Unique(fields)
    requires Utf8.Valid(key) && NulFree(key) && Good(v, f, n)
    ensures GoodFields(Assoc.Put(fields, key, v), f, n) && Assoc.Unique(Assoc.Put(fields, key, v))
  {
    hide Good, Utf8.Valid, NulFree;
    var i := Assoc.Find(fields, key);
    assert forall k :: 0 <= k < |fields| && k != i ==> fields[k].key != key;
  }

  ghost predicate ParsedFine(p: Parsed, f: LoadFlags, n: int) {
    p.Done? ==> p.src.mid == 0 && Good(p.value, f, n)
  }

  lemma {:induction false} ValueKeeps(token: Token, s: Src, depth: nat, f: LoadFlags)
    requires s.mid == 0 && !f.intAsReal && TokenIsFine(token)
    ensures ParsedFine(ParseValue(token, s, depth, f), f, MAX_DEPTH - depth)
    decreases |s.rest|, 1
  {
    hide ParseArray, ParseObject, IsRealNumeral, Utf8.Valid;
    if depth + 1 <= MAX_DEPTH {
      if token == TPunct(LBRACE) {
        ObjectKeeps(s, depth + 1, f);
      } else if token == TPunct(LBRACKET) {
        ArrayKeeps(s, depth + 1, f);
      }
    }
  }

  lemma {:induction false} ArrayKeeps(s: Src, depth: nat, f: LoadFlags)
    requires s.mid == 0 && !f.intAsReal && depth <= MAX_DEPTH
    ensures ParsedFine(ParseArray(s, depth, f), f, MAX_DEPTH - depth + 1)
    decreases |s.rest|, 0
  {
    hide Scan, ParseElements, Good;
    ScanKeeps(s, f);
    var t := Scan(s, f);
    ArrayIsGood([], f, MAX_DEPTH - depth);
    if t.token != TPunct(RBRACKET) && t.token != TInvalid && t.token != TEof {
      ElementsKeep(t.token, t.src, [], depth, f);
    }
  }

  lemma {:induction false} ElementsKeep(token: Token, s: Src, acc: seq<Json>, depth: nat, f: LoadFlags)
    requires s.mid == 0 && !f.intAsReal && depth <= MAX_DEPTH && TokenIsFine(token) && GoodItems(acc, f, MAX_DEPTH - depth)
    ensures ParsedFine(ParseElements(token, s, acc, depth, f), f, MAX_DEPTH - depth + 1)
    decreases |s.rest|, 2
  {
    hide Scan, ParseValue, Good;
    ValueKeeps(token, s, depth, f);
    var p := ParseValue(token, s, depth, f);
    if p.Done? {
      ScanKeeps(p.src, f);
      var t := Scan(p.src, f);
      if t.token == TPunct(RBRACKET) {
        ArrayIsGood(acc + [p.value], f, MAX_DEPTH - depth);
      } else if t.token == TPunct(COMMA) {
        ScanKeeps(t.src, f);
        var u := Scan(t.src, f);
        if u.token != TInvalid && u.token != TEof {
          ElementsKeep(u.token, u.src, acc + [p.value], depth, f);
        }
      }
    }
  }

  lemma {:induction false} ObjectKeeps(s: Src, depth: nat, f: LoadFlags)
    requires s.mid == 0 && !f.intAsReal && depth <= MAX_DEPTH
    ensures ParsedFine(ParseObject(s, depth, f), f, MAX_DEPTH - depth + 1)
    decreases |s.rest|, 0
  {
    hide Scan, ParseMembers, Good;
    ScanKeeps(s, f);
    var t := Scan(s, f);
    ObjectIsGood([], f, MAX_DEPTH - depth);
    if t.token.TString? {
      MembersKeep(t.token.text, t.src, [], depth, f);
    }
  }

  lemma {:induction false} MembersKeep(key: Text, s: Src, acc: seq<Assoc.Pair<Json>>, depth: nat, f: LoadFlags)
    requires s.mid == 0 && !f.intAsReal && depth <= MAX_DEPTH && Utf8.Valid(key)
    requires GoodFields(acc, f, MAX_DEPTH - depth) && Assoc.Unique(acc)
    ensures ParsedFine(ParseMembers(key, s, acc, depth, f), f, MAX_DEPTH - depth + 1)
    decreases |s.rest|, 2
  {
    hide Scan, ParseValue, Good, GoodFields, Assoc.Put, Assoc.Unique, Assoc.Get;
    if NulFree(key) && !(f.rejectDuplicates && Assoc.Get(acc, key).Some?) {
      ScanKeeps(s, f);
      var colon := Scan(s, f);
      if colon.token == TPunct(COLON) {
        ScanKeeps(colon.src, f);
        var t := Scan(colon.src, f);
        var p := ParseValue(t.token, t.src, depth, f);
        if t.token == TInvalid {
          InvalidFails(t.src, depth, f);
        } else {
          ValueKeeps(t.token, t.src, depth, f);
        }
        if p.Done? {
          PutIsGood(acc, key, p.value, f, MAX_DEPTH - depth);
          ScanKeeps(p.src, f);
          var u := Scan(p.src, f);
          if u.token.TPunct? {
            BehindMember(u, Assoc.Put(acc, key, p.value), depth, f);
          }
        }
      }
    }
  }

  /** The part of parse_object behind a member: the end of the object, or the key of the next one. */
  lemma {:induction false} BehindMember(u: Scanned, fields: seq<Assoc.Pair<Json>>, depth: nat, f: LoadFlags)
    requires u.token.TPunct? && u.src.mid == 0
    requires !f.intAsReal && depth <= MAX_DEPTH && GoodFields(fields, f, MAX_DEPTH - depth) && Assoc.Unique(fields)
    ensures Good(Object(fields), f, MAX_DEPTH - depth + 1)
    ensures u.token == TPunct(COMMA) && Scan(u.src, f).token.TString? ==>
      ParsedFine(ParseMembers(Scan(u.src, f).token.text, Scan(u.src, f).src, fields, depth, f), f, MAX_DEPTH - depth + 1)
    decreases |u.src.rest|, 1
  {
    hide Scan, ParseMembers, Good, GoodFields, Assoc.Unique;
    ObjectIsGood(fields, f, MAX_DEPTH - depth);
    if u.token == TPunct(COMMA) {
      ScanKeeps(u.src, f);
      var w := Scan(u.src, f);
      if w.token.TString? {
        MembersKeep(w.token.text, w.src, fields, depth, f);
      }
    }
  }

  lemma InvalidFails(s: Src, depth: nat, f: LoadFlags)
    ensures ParseValue(TInvalid, s, depth, f) == Fail
  {
    hide ParseArray, ParseObject;
  }

  // ---- Whole documents ----

  /** What the loader gives is well formed, no deeper than its limit, and free of NUL unless its flag admits it. */
  lemma LoadedIsGood(input: Text, f: LoadFlags)
    requires ParseJson(input, f).Some? && !f.intAsReal
    ensures Good(ParseJson(input, f).value, f, MAX_DEPTH)
    ensures ParseJson(input, f).value.IsContainer() || f.decodeAny
  {
    hide Scan, ParseArray, ParseObject, Good;
    var t := Scan(Src(0, input), f);
    ScanKeeps(Src(0, input), f);
    if t.token == TInvalid {
      InvalidFails(t.src, 0, f);
    } else {
      ValueKeeps(t.token, t.src, 0, f);
      ContainerOfPunct(t.src, 0, f);
    }
  }

  lemma ContainerOfPunct(s: Src, depth: nat, f: LoadFlags)
    ensures var p := ParseValue(TPunct(LBRACKET), s, depth, f); p.Done? ==> p.value.IsContainer()
    ensures var p := ParseValue(TPunct(LBRACE), s, depth, f); p.Done? ==> p.value.IsContainer()
  {
    hide Scan, ParseElements, ParseMembers;
    ArrayOrFail(s, depth + 1, f);
    ObjectOrFail(s, depth + 1, f);
  }

  lemma ArrayOrFail(s: Src, depth: nat, f: LoadFlags)
    ensures ParseArray(s, depth, f).Done? ==> ParseArray(s, depth, f).value.Array?
  {
    hide Scan;
    var t := Scan(s, f);
    if t.token != TPunct(RBRACKET) && t.token != TInvalid && t.token != TEof {
      ElementsOrFail(t.token, t.src, [], depth, f);
    }
  }

  lemma {:induction false} ElementsOrFail(token: Token, s: Src, acc: seq<Json>, depth: nat, f: LoadFlags)
    ensures ParseElements(token, s, acc, depth, f).Done? ==> ParseElements(token, s, acc, depth, f).value.Array?
    decreases |s.rest|
  {
    hide Scan, ParseValue;
    var p := ParseValue(token, s, depth, f);
    if p.Done? && Scan(p.src, f).token == TPunct(COMMA) {
      var u := Scan(Scan(p.src, f).src, f);
      if u.token != TInvalid && u.token != TEof {
        ElementsOrFail(u.token, u.src, acc + [p.value], depth, f);
      }
    }
  }

  lemma ObjectOrFail(s: Src, depth: nat, f: LoadFlags)
    ensures ParseObject(s, depth, f).Done? ==> ParseObject(s, depth, f).value.Object?
  {
    hide Scan;
    var t := Scan(s, f);
    if t.token.TString? {
      MembersOrFail(t.token.text, t.src, [], depth, f);
    }
  }

  lemma {:induction false} MembersOrFail(key: Text, s: Src, acc: seq<Assoc.Pair<Json>>, depth: nat, f: LoadFlags)
    ensures ParseMembers(key, s, acc, depth, f).Done? ==> ParseMembers(key, s, acc, depth, f).value.Object?
    decreases |s.rest|
  {
    hide Scan, ParseValue, Assoc.Get, Assoc.Put, NulFree;
    var t := Scan(Scan(s, f).src, f);
    var p := ParseValue(t.token, t.src, depth, f);
    if t.token == TInvalid {
      InvalidFails(t.src, depth, f);
    }
    if p.Done? && Scan(s, f).token == TPunct(COLON) && Scan(p.src, f).token == TPunct(COMMA) {
      var w := Scan(Scan(p.src, f).src, f);
      if w.token.TString? {
        MembersOrFail(w.token.text, w.src, Assoc.Put(acc, key, p.value), depth, f);
      }
    }
  }

  /** Dumping what was loaded, from whatever input and under any flags, and loading that gives the same value. */
  lemma LoadDumpLoad(input: Text, df: DumpFlags, f: LoadFlags)
    requires ParseJson(input, f).Some? && !f.intAsReal
    ensures var v := ParseJson(input, f).value;
      DumpTree(v, df, 0, false).Some? && ParseJson(DumpTree(v, df, 0, false).value, f) == Some(v)
  {
    hide ParseJson, DumpTree, AsRead;
    var v := ParseJson(input, f).value;
    LoadedIsGood(input, f);
    TreeRoundTrip(v, df, f);
    AsReadIsSame(v, f);
  }
}
