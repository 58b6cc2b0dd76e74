/**
 The loader against the grammar, the other way round: what it accepts, if there is no NUL among the bytes, is
 the text of a document, and what it gives is the value that this spells.
 */
module JsonSoundness {
  import opened Bytes
  import Assoc
  import opened JsonValue
  import opened JsonGrammar
  import opened JsonLoad
  import opened JsonReload
  import S = JsonSpelling
  import L = JsonLiterals
  import Utf8

  predicate NoNul(s: Text) {
    0 !in s
  }

  /** Without a NUL in front of it, what was read and put back is there again. */
  lemma UnreadIsSame(s: Src)
    requires NoNul(s.rest)
    ensures Unread(s) == s
  {
  }

  lemma RestOf(s: Src)
    requires Get(s).c >= 0
    ensures s.rest == [Get(s).c] + Get(s).src.rest
  {
  }

  // ---- Strings ----

  /** The first pass takes what it takes off the front of the input, and no control characters. */
  lemma {:induction false} LiteralIsPrefix(x: Text)
    requires TakeLiteral(Src(0, x)).Some?
    ensures var t := TakeLiteral(Src(0, x)).value;
      x == t.text + t.src.rest && Printable(t.text)
    decreases |x|
  {
    hide Get, Prepend, Utf8.Encode;
    var g := Get(Src(0, x));
    if g.c == QUOTE {
      RestOf(Src(0, x));
    } else if g.c == BACKSLASH {
      var a, rest := EscapeAtFront(x);
      hide TakeLiteral;
      PrependIs(a, TakeLiteral(Src(0, rest)));
      LiteralIsPrefix(rest);
    } else {
      var cp, rest := CharAtFront(x);
      PrintableChar(cp, rest);
      hide TakeLiteral;
      PrependIs(Utf8.Encode(cp), TakeLiteral(Src(0, rest)));
      LiteralIsPrefix(rest);
    }
  }

  lemma PrintableChar(cp: int, rest: Text)
    requires Utf8.IsScalar(cp) && Get(Src(0, Utf8.Encode(cp) + rest)).c >= 0x20
    ensures Printable(Utf8.Encode(cp))
  {
    if cp >= 0x80 {
      L.HighBytes(cp);
    }
  }

  /** The piece at the front of a literal. */
  lemma {:induction false} PieceOf(p: Text) returns (piece: Piece, q: Text)
    requires WellEscaped(p) && Utf8.Valid(p) && Printable(p) && Decode(p).Some? && p[0] != QUOTE
    ensures IsPiece(piece) && p == PieceText(piece) + q && |q| < |p|
    ensures WellEscaped(q) && Utf8.Valid(q) && Printable(q)
    ensures Decode(p) == Cons(Utf8.Encode(PieceValue(piece)), Decode(q))
  {
    if p[0] == BACKSLASH {
      if p[1] == 'u' as int {
        piece, q := UnitAtFront(p);
      } else {
        piece, q := Short(p[1]), p[2..];
        DropAscii(p, 2);
        assert p == [0x5C, p[1]] + q;
        S.ShortDecoded(p[1], q);
      }
    } else {
      piece, q := PlainAtFront(p);
    }
  }

  lemma {:induction false} PlainAtFront(p: Text) returns (piece: Piece, q: Text)
    requires WellEscaped(p) && Utf8.Valid(p) && Printable(p) && p[0] != QUOTE && p[0] != BACKSLASH
    ensures IsPiece(piece) && p == PieceText(piece) + q && |q| < |p|
    ensures WellEscaped(q) && Utf8.Valid(q) && Printable(q)
    ensures Decode(p) == Cons(Utf8.Encode(PieceValue(piece)), Decode(q))
  {
    hide Decode, WellEscaped, Utf8.Valid, Utf8.Encode;
    var cp;
    cp, q := DecodeFront(p);
    piece := Plain(cp);
    FrontIs(p, cp, q);
  }

  lemma FrontIs(p: Text, cp: int, q: Text)
    requires Utf8.IsScalar(cp) && p == Utf8.Encode(cp) + q && Printable(p) && p[0] != QUOTE && p[0] != BACKSLASH
    ensures IsPiece(Plain(cp)) && Printable(q)
  {
    assert p[0] == Utf8.Encode(cp)[0];
    var n := |Utf8.Encode(cp)|;
    forall i | 0 <= i < |q| ensures q[i] >= 0x20 {
      assert p[n + i] == q[i];
    }
  }

  lemma UnitShape(p: Text)
    requires WellEscaped(p) && p[0] == BACKSLASH && p[1] == 'u' as int
    ensures |p| >= 6 && (forall i :: 2 <= i < 6 ==> IsHexDigit(p[i])) && WellEscaped(p[6..])
    ensures p == [0x5C, 0x75] + p[2..6] + p[6..]
  {
    hide IsHexDigit;
  }

  lemma UnitValue(p: Text)
    requires |p| >= 6 && forall i :: 2 <= i < 6 ==> IsHexDigit(p[i])
    ensures IsUnit(p[2..6]) && EscapeValue(p) == UnitOf(p[2..6])
  {
    hide HexValue, UnitOf, IsHex, IsHexDigit;
    var digits := p[2..6];
    forall i | 0 <= i < 4 ensures digits[i] == p[i + 2] && IsHex(digits[i]) {
      S.HexIsHexDigit(p[i + 2]);
    }
    S.UnitIsHexValue(digits);
  }

  lemma UnitFront(p: Text)
    requires WellEscaped(p) && p[0] == BACKSLASH && p[1] == 'u' as int
    ensures |p| >= 6 && (forall i :: 2 <= i < 6 ==> IsHexDigit(p[i])) && WellEscaped(p[6..])
    ensures IsUnit(p[2..6]) && EscapeValue(p) == UnitOf(p[2..6])
    ensures p == [0x5C, 0x75] + p[2..6] + p[6..]
  {
    hide WellEscaped, IsHexDigit, EscapeValue, UnitOf, IsHex;
    UnitShape(p);
    UnitValue(p);
  }

  lemma {:induction false} UnitAtFront(p: Text) returns (piece: Piece, q: Text)
    requires WellEscaped(p) && Utf8.Valid(p) && Printable(p) && Decode(p).Some? && p[0] == BACKSLASH && p[1] == 'u' as int
    ensures IsPiece(piece) && p == PieceText(piece) + q && |q| < |p|
    ensures WellEscaped(q) && Utf8.Valid(q) && Printable(q)
    ensures Decode(p) == Cons(Utf8.Encode(PieceValue(piece)), Decode(q))
  {
    hide Decode, WellEscaped, EscapeValue, UnitOf, Utf8.Valid, Utf8.Encode, IsHex;
    UnitFront(p);
    UnitIsAscii(p);
    DropAscii(p, 6);
    var value, behind := EscapeValue(p), p[6..];
    if IsHighSurrogate(value) {
      SecondUnit(p);
      UnitFront(behind);
      UnitIsAscii(behind);
      DropAscii(behind, 6);
      piece, q := Pair(p[2..6], behind[2..6]), behind[6..];
      S.PairDecoded(p[2..6], behind[2..6], q);
      PairText(p);
    } else {
      piece, q := Unit(p[2..6]), behind;
      NotSurrogate(p);
      S.UnitDecoded(p[2..6], q);
    }
  }

  lemma UnitIsAscii(p: Text)
    requires |p| >= 6 && p[0] == BACKSLASH && p[1] == 'u' as int && IsUnit(p[2..6])
    ensures Ascii(p[..6])
  {
    forall i | 2 <= i < 6 ensures p[i] < 0x80 {
      assert p[i] == p[2..6][i - 2];
    }
  }

  lemma PairText(p: Text)
    requires |p| >= 12 && p[..2] == [0x5C, 0x75] == p[6..][..2]
    ensures p == [0x5C, 0x75] + p[2..6] + [0x5C, 0x75] + p[6..][2..6] + p[6..][6..]
  {
    assert p[6..][2..6] == p[8..12] && p[6..][6..] == p[12..];
  }

  lemma SecondUnit(p: Text)
    requires WellEscaped(p) && Decode(p).Some? && p[0] == BACKSLASH && p[1] == 'u' as int && IsHighSurrogate(EscapeValue(p))
    ensures var q := p[6..];
      |q| >= 6 && q[0] == BACKSLASH && q[1] == 'u' as int && WellEscaped(q) && IsLowSurrogate(EscapeValue(q))
  {
    hide EscapeValue;
  }

  lemma NotSurrogate(p: Text)
    requires WellEscaped(p) && Decode(p).Some? && p[0] == BACKSLASH && p[1] == 'u' as int && !IsHighSurrogate(EscapeValue(p))
    ensures !IsLowSurrogate(EscapeValue(p))
  {
    hide EscapeValue;
  }

  /** The pieces of a literal. */
  lemma {:induction false} PiecesOf(p: Text) returns (ps: seq<Piece>)
    requires WellEscaped(p) && Utf8.Valid(p) && Printable(p) && Decode(p).Some?
    ensures ArePieces(ps) && p == PiecesText(ps) + [0x22] && Decode(p) == Some(PiecesValue(ps))
    decreases |p|
  {
    hide Decode, WellEscaped, Utf8.Valid, PieceText, PieceValue, IsPiece;
    if p[0] == QUOTE {
      ps := [];
      OnlyQuote(p);
    } else {
      var piece, q := PieceOf(p);
      var rest := PiecesOf(q);
      ps := [piece] + rest;
      assert ps[1..] == rest;
      assert PieceText(piece) + PiecesText(rest) + [0x22] == PieceText(piece) + (PiecesText(rest) + [0x22]);
    }
  }

  lemma OnlyQuote(p: Text)
    requires WellEscaped(p) && p[0] == QUOTE
    ensures p == [0x22] && Decode(p) == Some([])
  {
  }

  /** A string token is spelled in front of the rest of the input. */
  lemma {:induction false} StringSpelled(x: Text) returns (ps: seq<Piece>)
    requires ScanString(Src(0, x)).token != TInvalid
    ensures var r := ScanString(Src(0, x));
      && ArePieces(ps) && r.token == TString(PiecesValue(ps)) && r.src.mid == 0
      && [0x22] + x == Quoted(ps) + r.src.rest
  {
    hide TakeLiteral, Decode, WellEscaped, Utf8.Valid, PiecesText, PiecesValue;
    LiteralIsText(x);
    LiteralIsPrefix(x);
    LiteralWellEscaped(Src(0, x));
    ps := PiecesOf(TakeLiteral(Src(0, x)).value.text);
  }

  // ---- Numbers ----

  lemma {:induction false} DigitsArePrefix(s: Src)
    ensures var t := TakeDigits(s);
      s.rest == t.text + t.src.rest && (t.text != [] ==> AreDigits(t.text))
    decreases |s.rest|
  {
    hide Get;
    if IsDigit(Get(s).c) {
      RestOf(s);
      DigitsArePrefix(Get(s).src);
    }
  }

  lemma IntegerIsPrefix(s: Src)
    requires TakeInteger(s).Some?
    ensures var t := TakeInteger(s).value;
      s.rest == t.text + t.src.rest && IsWhole(t.text)
  {
    hide Get, TakeDigits;
    RestOf(s);
    DigitsArePrefix(s);
    FirstDigit(s);
  }

  lemma FractionIsPrefix(s: Src)
    requires TakeFraction(s).Some?
    ensures var t := TakeFraction(s).value;
      s.rest == t.text + t.src.rest && IsFractionText(t.text)
  {
    hide Get, TakeDigits;
    if Get(s).c == '.' as int {
      var u := Get(s).src;
      RestOf(s);
      DigitsArePrefix(u);
      FirstDigit(u);
      assert ([0x2E] + TakeDigits(u).text)[1..] == TakeDigits(u).text;
    }
  }

  lemma ExponentIsPrefix(s: Src)
    requires TakeExponent(s).Some?
    ensures var t := TakeExponent(s).value;
      s.rest == t.text + t.src.rest && IsExponentText(t.text)
  {
    hide Get, TakeDigits;
    var g := Get(s);
    if g.c == 'e' as int || g.c == 'E' as int {
      RestOf(s);
      var sign := Get(g.src);
      var u := if sign.c == '+' as int || sign.c == '-' as int then sign.src else g.src;
      RestOf(g.src);
      DigitsArePrefix(u);
      FirstDigit(u);
      var ds := TakeDigits(u).text;
      if sign.c == '+' as int || sign.c == '-' as int {
        assert ([g.c, sign.c] + ds)[2..] == ds;
      } else {
        assert ([g.c] + ds)[1..] == ds;
      }
    }
  }

  /** A number token is spelled in front of the rest of the input. */
  lemma NumberSpelled(s: Src, f: LoadFlags) returns (d: Doc)
    requires s.mid == 0 && NoNul(s.rest) && ScanNumber(s, f).token != TInvalid
    ensures var r := ScanNumber(s, f);
      IsDoc(d) && IsLeaf(d, r.token, f) && s.rest == DocText(d) + r.src.rest && r.src.mid == 0
  {
    hide Get, TakeInteger, TakeFraction, TakeExponent, Unread, NumberOf, DigitsValue, IsFractionText, IsExponentText, AreDigits;
    GetAtStartIf(s);
    if Get(s).c >= 0 {
      RestOf(s);
    }
    var minus := Get(s).c == '-' as int;
    var at := if minus then Get(s).src else s;
    IntegerIsPrefix(at);
    IntegerKeeps(at);
    var whole := TakeInteger(at).value;
    assert s.rest == Sign(minus) + whole.text + whole.src.rest;
    UnreadIsSame(whole.src);
    var c := Get(whole.src).c;
    if !f.intAsReal && c != '.' as int && c != 'e' as int && c != 'E' as int {
      d := IntegerDoc(minus, whole.text);
      WholeValue(minus, whole.text);
    } else {
      d := RealSpelled(minus, whole.text, whole.src, f);
    }
  }

  lemma WholeValue(minus: bool, whole: Text)
    requires IsWhole(whole)
    ensures AllDigits(whole) && IntegerValue(minus, whole) == IntegerOf(minus, whole)
  {
    S.NumberIsDigitsValue(whole);
  }

  lemma RealSpelled(minus: bool, whole: Text, s: Src, f: LoadFlags) returns (d: Doc)
    requires IsWhole(whole) && s.mid == 0 && NoNul(s.rest) && ScanReal(Sign(minus) + whole, s).token != TInvalid
    requires f.intAsReal || Get(s).c in {'.' as int, 'e' as int, 'E' as int}
    ensures var r := ScanReal(Sign(minus) + whole, s);
      IsDoc(d) && IsLeaf(d, r.token, f) && Sign(minus) + whole + s.rest == DocText(d) + r.src.rest && r.src.mid == 0
  {
    hide Get, TakeFraction, TakeExponent, ScanReal, NumberOf, IsFractionText, IsExponentText, IsWhole, Sign;
    var start := Sign(minus) + whole;
    var fraction, exponent := RealParts(start, s);
    if fraction == [] && exponent == [] {
      d := IntegerDoc(minus, whole);
    } else {
      d := RealDoc(minus, whole, fraction, exponent);
    }
  }

  lemma RealParts(start: Text, s: Src) returns (fraction: Text, exponent: Text)
    requires s.mid == 0 && NoNul(s.rest) && ScanReal(start, s).token != TInvalid
    ensures IsFractionText(fraction) && IsExponentText(exponent)
    ensures Get(s).c in {'.' as int, 'e' as int, 'E' as int} ==> fraction != [] || exponent != []
    ensures var r := ScanReal(start, s);
      r.token == TReal(start + fraction + exponent) && r.src.mid == 0 && start + s.rest == start + fraction + exponent + r.src.rest
    ensures start + [] + [] == start
  {
    hide Get, TakeFraction, TakeExponent, Unread, IsFractionText, IsExponentText;
    FractionIsPrefix(s);
    FractionKeeps(s);
    var u := TakeFraction(s).value.src;
    ExponentIsPrefix(u);
    ExponentKeeps(u);
    var v := TakeExponent(u).value.src;
    UnreadIsSame(v);
    fraction, exponent := TakeFraction(s).value.text, TakeExponent(u).value.text;
    Chain(start, fraction, exponent, v.rest);
  }

  lemma Chain(a: Text, b: Text, c: Text, d: Text)
    ensures a + (b + (c + d)) == a + b + c + d
    ensures a + [] + [] == a
  {
  }

  // ---- Tokens ----

  /** A document without parts, for a token. */
  ghost predicate IsLeaf(d: Doc, token: Token, f: LoadFlags) {
    && IsDoc(d) && !IsContainer(d) && S.Admitted(d, S.WithNul(f)) && token == LeafToken(DocValue(d, f.intAsReal))
  }

  function LeafToken(v: Json): Token {
    match v
    case Null => TNull
    case True => TTrue
    case False => TFalse
    case Integer(i) => TInteger(i)
    case Real(numeral) => TReal(numeral)
    case String(text) => TString(text)
    case _ => TInvalid
  }

  /** The text of a token. */
  ghost predicate TokenIs(token: Token, text: Text, f: LoadFlags) {
    if token.TPunct? then text == [token.c]
    else if token == TEof then text == []
    else token != TInvalid && exists d :: IsLeaf(d, token, f) && text == DocText(d)
  }

  lemma {:induction false} SpaceIsPrefix(x: Text) returns (blank: Text)
    ensures var p := SkipSpace(Src(0, x));
      Blank(blank) && x == blank + p.rest && p.mid == 0
    decreases |x|
  {
    hide Get;
    var s := Src(0, x);
    GetAtStartIf(s);
    if IsSpace(Get(s).c) {
      RestOf(s);
      var more := SpaceIsPrefix(Get(s).src.rest);
      blank := [Get(s).c] + more;
    } else {
      blank := [];
    }
  }

  lemma {:induction false} LettersArePrefix(s: Src)
    ensures s.rest == TakeLetters(s).text + TakeLetters(s).src.rest
    decreases |s.rest|
  {
    hide Get;
    if IsLetter(Get(s).c) {
      RestOf(s);
      LettersArePrefix(Get(s).src);
    }
  }

  lemma WordSpelled(word: Text, f: LoadFlags) returns (d: Doc)
    requires WordToken(word) != TInvalid
    ensures IsDoc(d) && IsLeaf(d, WordToken(word), f) && DocText(d) == word
  {
    if word == TRUE_TEXT {
      d := TrueDoc;
    } else if word == FALSE_TEXT {
      d := FalseDoc;
    } else {
      d := NullDoc;
    }
    WordTexts();
    assert IsLeaf(d, WordToken(word), f);
  }

  lemma WordTexts()
    ensures DocText(TrueDoc) == TRUE_TEXT && DocText(FalseDoc) == FALSE_TEXT && DocText(NullDoc) == NULL_TEXT
  {
  }

  /** A token is spelled behind white space, in front of the rest of the input. */
  lemma ScanSpelled(x: Text, f: LoadFlags) returns (blank: Text, text: Text)
    requires NoNul(x) && Scan(Src(0, x), f).token != TInvalid
    ensures var r := Scan(Src(0, x), f);
      && Blank(blank) && x == blank + text + r.src.rest && r.src.mid == 0 && NoNul(r.src.rest) && TokenIs(r.token, text, f)
  {
    hide Get, SkipSpace, ScanString, ScanNumber, TakeLetters, Unread, IsLeaf, TokenIs, DocText, WordToken, Blank;
    blank := SpaceIsPrefix(x);
    var p := SkipSpace(Src(0, x));
    var g := Get(p);
    GetAtStartIf(p);
    EndIsEmpty(p);
    if g.c >= 0 {
      RestOf(p);
    }
    text := [];
    if g.c == QUOTE {
      var ps := StringSpelled(g.src.rest);
      text := Quoted(ps);
      StringIsLeaf(ps, f);
      LeafIsToken(StringDoc(ps), TString(PiecesValue(ps)), text, f);
    } else if IsDigit(g.c) || g.c == '-' as int {
      var d := NumberSpelled(p, f);
      text := DocText(d);
      LeafIsToken(d, ScanNumber(p, f).token, text, f);
    } else if IsPunct(g.c) {
      text := [g.c];
      assert TokenIs(TPunct(g.c), text, f) by {
        PunctIs(g.c, f);
      }
    } else if IsLetter(g.c) {
      LettersArePrefix(p);
      LettersAtStart(p);
      UnreadIsSame(TakeLetters(p).src);
      text := TakeLetters(p).text;
      var d := WordSpelled(text, f);
      LeafIsToken(d, WordToken(text), text, f);
    }
    PunctIs(0, f);
    assert x == blank + text + Scan(Src(0, x), f).src.rest;
  }

  lemma {:induction false} LeafIsToken(d: Doc, token: Token, text: Text, f: LoadFlags)
    requires IsDoc(d) && IsLeaf(d, token, f) && text == DocText(d)
    ensures TokenIs(token, text, f)
  {
    hide DocText;
  }

  lemma PunctIs(c: Byte, f: LoadFlags)
    ensures TokenIs(TPunct(c), [c], f) && TokenIs(TEof, [], f)
  {
  }

  lemma EndIsEmpty(p: Src)
    ensures Get(p).c == EOF ==> p.rest == [] && Get(p).src == p
  {
  }

  lemma {:induction false} StringIsLeaf(ps: seq<Piece>, f: LoadFlags)
    requires ArePieces(ps)
    ensures IsLeaf(StringDoc(ps), TString(PiecesValue(ps)), f) && DocText(StringDoc(ps)) == Quoted(ps)
  {
    hide PiecesValue, Quoted, ArePieces;
  }

  // ---- Values ----

  /** What is parsed is a document that starts with some text and ends where the rest of the input begins. */
  ghost predicate Spelled(start: Text, s: Src, d: Doc, p: Parsed, depth: nat, f: LoadFlags)
    requires IsDoc(d)
  {
    p.Done? ==>
      && start + s.rest == DocText(d) + p.src.rest && p.src.mid == 0 && NoNul(p.src.rest)
      && p.value == DocValue(d, f.intAsReal) && S.Admitted(d, f) && depth + Levels(d) <= 2048
  }

  lemma {:induction false} ValueSpelled(token: Token, text: Text, s: Src, depth: nat, f: LoadFlags) returns (d: Doc)
    requires s.mid == 0 && NoNul(s.rest) && TokenIs(token, text, f) && ParseValue(token, s, depth, f).Done?
    ensures IsDoc(d) && Spelled(text, s, d, ParseValue(token, s, depth, f), depth, f)
    decreases |s.rest|, 1
  {
    hide ParseArray, ParseObject, IsLeaf, DocText, Spelled, IsDoc;
    if token.TPunct? {
      if token.c == LBRACE {
        d := ObjectSpelled(s, depth + 1, f);
      } else {
        d := ArraySpelled(s, depth + 1, f);
      }
    } else {
      d := LeafSpelled(token, text, s, depth, f);
    }
  }

  lemma {:induction false} LeafSpelled(token: Token, text: Text, s: Src, depth: nat, f: LoadFlags) returns (d: Doc)
    requires s.mid == 0 && NoNul(s.rest) && TokenIs(token, text, f) && !token.TPunct? && ParseValue(token, s, depth, f).Done?
    ensures IsDoc(d) && Spelled(text, s, d, ParseValue(token, s, depth, f), depth, f)
  {
    hide ParseArray, ParseObject, DocText, NumberOf, PiecesValue;
    d :| IsLeaf(d, token, f) && text == DocText(d);
  }

  lemma {:induction false} ArraySpelled(s: Src, depth: nat, f: LoadFlags) returns (d: Doc)
    requires s.mid == 0 && NoNul(s.rest) && 0 < depth <= 2048 && ParseArray(s, depth, f).Done?
    ensures IsDoc(d) && Spelled([0x5B], s, d, ParseArray(s, depth, f), depth - 1, f)
    decreases |s.rest|, 0
  {
    hide Scan, ParseElements, TokenIs, ItemsText, ItemsValue, ItemsWithin, ItemsLevels, AreItems, Blank;
    assert s == Src(0, s.rest);
    var t := Scan(s, f);
    S.InvalidElements(t.src, [], depth, f);
    EmptyItems(f);
    var blank, text := ScanSpelled(s.rest, f);
    if t.token == TPunct(0x5D) {
      d := ArrayDoc(blank, []);
      PunctText(t.token, text, f);
      assert [0x5B] + (blank + [0x5D] + t.src.rest) == [0x5B] + blank + [0x5D] + t.src.rest;
    } else {
      var items := ItemsSpelled(t.token, blank, text, t.src, [], depth, f);
      d := ArrayDoc([], items);
      var rest := ParseArray(s, depth, f).src.rest;
      assert [0x5B] + (ItemsText(items) + [0x5D] + rest) == [0x5B] + ItemsText(items) + [0x5D] + rest;
      assert [] + ItemsValue(items, f.intAsReal) == ItemsValue(items, f.intAsReal);
    }
  }

  lemma PunctText(token: Token, text: Text, f: LoadFlags)
    requires TokenIs(token, text, f) && token.TPunct?
    ensures text == [token.c]
  {
  }

  lemma EmptyItems(f: LoadFlags)
    ensures AreItems([]) && S.ItemsAdmitted([], f) && ItemsLevels([]) == 0 && ItemsValue([], f.intAsReal) == []
    ensures Blank([])
  {
  }

  lemma {:induction false} ItemsSpelled(token: Token, before: Text, text: Text, s: Src, acc: seq<Json>, depth: nat, f: LoadFlags)
    returns (items: seq<Item>)
    requires s.mid == 0 && NoNul(s.rest) && Blank(before) && TokenIs(token, text, f) && depth <= 2048
    requires ParseElements(token, s, acc, depth, f).Done?
    ensures var p := ParseElements(token, s, acc, depth, f);
      && items != [] && AreItems(items)
      && before + text + s.rest == ItemsText(items) + [0x5D] + p.src.rest && p.src.mid == 0 && NoNul(p.src.rest)
      && p.value == Array(acc + ItemsValue(items, f.intAsReal))
      && S.ItemsAdmitted(items, f) && depth + ItemsLevels(items) <= 2048
    decreases |s.rest|, 2
  {
    hide Scan, ParseValue, ParseElements, TokenIs, DocText, DocValue, S.Admitted, Levels, Blank, IsDoc;
    hide ItemsText, ItemsValue, ItemsLevels, S.ItemsAdmitted;
    S.ElementsTurn(token, s, acc, depth, f);
    var p := ParseValue(token, s, depth, f);
    var d := ValueSpelled(token, text, s, depth, f);
    var t := Scan(p.src, f);
    var after, end := ScanSpelled(p.src.rest, f);
    PunctText(t.token, end, f);
    var item := Item(before, d, after);
    if t.token == TPunct(0x5D) {
      items := [item];
      OneItem(item, text, s.rest, p.src.rest, t.src.rest);
      assert acc + [p.value] == acc + ([p.value] + []);
    } else {
      var u := Scan(t.src, f);
      S.InvalidElements(u.src, acc + [p.value], depth, f);
      var blank, next := ScanSpelled(t.src.rest, f);
      var more := ItemsSpelled(u.token, blank, next, u.src, acc + [p.value], depth, f);
      items := [item] + more;
      assert items[1..] == more && items[0] == item;
      MoreItems(items, text, s.rest, p.src.rest, t.src.rest, ParseElements(u.token, u.src, acc + [p.value], depth, f).src.rest);
      assert acc + [p.value] + ItemsValue(more, f.intAsReal) == acc + ([p.value] + ItemsValue(more, f.intAsReal));
    }
    S.ItemsSplit(items, f);
  }

  lemma {:induction false} OneItem(item: Item, text: Text, rest: Text, behind: Text, left: Text)
    requires Blank(item.before) && IsDoc(item.doc) && Blank(item.after)
    requires text + rest == DocText(item.doc) + behind && behind == item.after + [0x5D] + left
    ensures AreItems([item]) && item.before + text + rest == ItemsText([item]) + [0x5D] + left
  {
    hide Blank, IsDoc, DocText;
    assert [item][1..] == [];
    assert ItemsText([item]) == item.before + DocText(item.doc) + item.after + [] + [];
    assert item.before + text + rest == item.before + (text + rest);
  }

  lemma {:induction false} MoreItems(items: seq<Item>, text: Text, rest: Text, behind: Text, left: Text, end: Text)
    requires |items| > 1 && AreItems(items)
    requires text + rest == DocText(items[0].doc) + behind && behind == items[0].after + [0x2C] + left
    requires left == ItemsText(items[1..]) + [0x5D] + end
    ensures items[0].before + text + rest == ItemsText(items) + [0x5D] + end
  {
    hide DocText;
    var item := items[0];
    assert ItemsText(items) == item.before + DocText(item.doc) + item.after + [0x2C] + ItemsText(items[1..]);
    hide ItemsText;
    S.Associate(item.before, DocText(item.doc), item.after, [0x2C], ItemsText(items[1..]), [0x5D], end);
    assert item.before + text + rest == item.before + (text + rest);
    assert item.after + [0x2C] + left == item.after + ([0x2C] + left);
  }

  // ---- Objects ----

  lemma {:induction false} ObjectSpelled(s: Src, depth: nat, f: LoadFlags) returns (d: Doc)
    requires s.mid == 0 && NoNul(s.rest) && 0 < depth <= 2048 && ParseObject(s, depth, f).Done?
    ensures IsDoc(d) && Spelled([0x7B], s, d, ParseObject(s, depth, f), depth - 1, f)
    decreases |s.rest|, 0
  {
    hide Scan, ParseMembers, TokenIs, MembersText, MembersValue, MembersWithin, MembersLevels, AreMembers, Blank, PiecesValue, ArePieces, Quoted;
    assert s == Src(0, s.rest);
    var t := Scan(s, f);
    EmptyMembers(f);
    var blank, text := ScanSpelled(s.rest, f);
    if t.token == TPunct(0x7D) {
      d := ObjectDoc(blank, []);
      PunctText(t.token, text, f);
      assert [0x7B] + (blank + [0x7D] + t.src.rest) == [0x7B] + blank + [0x7D] + t.src.rest;
    } else {
      var ps := KeySpelled(t.token, text, f);
      assert S.KeysOf([]) == {};
      var members := MembersSpelled(ps, blank, t.src, [], depth, f);
      d := ObjectDoc([], members);
      var rest := ParseObject(s, depth, f).src.rest;
      assert [0x7B] + (MembersText(members) + [0x7D] + rest) == [0x7B] + MembersText(members) + [0x7D] + rest;
    }
  }

  lemma EmptyMembers(f: LoadFlags)
    ensures AreMembers([]) && S.MembersAdmitted({}, [], f) && MembersLevels([]) == 0 && MembersValue([], [], f.intAsReal) == []
    ensures Blank([])
  {
  }

  lemma {:induction false} KeySpelled(token: Token, text: Text, f: LoadFlags) returns (ps: seq<Piece>)
    requires TokenIs(token, text, f) && token.TString?
    ensures ArePieces(ps) && text == Quoted(ps) && token.text == PiecesValue(ps)
  {
    hide ArePieces, Quoted, PiecesValue;
    var d :| IsLeaf(d, token, f) && text == DocText(d);
    ps := d.pieces;
  }

  /** A colon and a value are spelled behind a key. */
  lemma {:induction false} MemberSpelled(s: Src, depth: nat, f: LoadFlags) returns (colon: Text, before: Text, d: Doc)
    requires s.mid == 0 && NoNul(s.rest) && ParseMember(s, depth, f).Done?
    ensures var p := ParseMember(s, depth, f);
      && Blank(colon) && Blank(before) && IsDoc(d)
      && s.rest == colon + [0x3A] + before + DocText(d) + p.src.rest && p.src.mid == 0 && NoNul(p.src.rest)
      && p.value == DocValue(d, f.intAsReal) && S.Admitted(d, f) && depth + Levels(d) <= 2048
    decreases |s.rest|, 1
  {
    hide Scan, ParseValue, TokenIs, DocText, DocValue, S.Admitted, Levels, Blank, IsDoc;
    var c := Scan(s, f);
    var text, next;
    colon, text := ScanSpelled(s.rest, f);
    PunctText(c.token, text, f);
    var t := Scan(c.src, f);
    InvalidFails(t.src, depth, f);
    before, next := ScanSpelled(c.src.rest, f);
    d := ValueSpelled(t.token, next, t.src, depth, f);
    Behind(colon, [0x3A], before, next, t.src.rest, DocText(d), ParseMember(s, depth, f).src.rest);
  }

  lemma Behind(a: Text, b: Text, c: Text, d: Text, e: Text, x: Text, y: Text)
    requires d + e == x + y
    ensures a + b + (c + d + e) == a + b + c + x + y
  {
    assert a + b + (c + d + e) == a + b + c + (d + e);
  }

  lemma {:induction false} MembersSpelled(key: seq<Piece>, before: Text, s: Src, acc: seq<Assoc.Pair<Json>>, depth: nat, f: LoadFlags)
    returns (members: seq<Member>)
    requires s.mid == 0 && NoNul(s.rest) && Blank(before) && ArePieces(key) && depth <= 2048
    requires ParseMembers(PiecesValue(key), s, acc, depth, f).Done?
    ensures var p := ParseMembers(PiecesValue(key), s, acc, depth, f);
      && members != [] && AreMembers(members)
      && before + Quoted(key) + s.rest == MembersText(members) + [0x7D] + p.src.rest && p.src.mid == 0 && NoNul(p.src.rest)
      && p.value == Object(MembersValue(acc, members, f.intAsReal))
      && S.MembersAdmitted(S.KeysOf(acc), members, f) && depth + MembersLevels(members) <= 2048
    decreases |s.rest|, 2
  {
    hide Scan, ParseMember, ParseMembers, TokenIs, DocText, DocValue, S.Admitted, Levels, Blank, IsDoc, PiecesValue, ArePieces, Quoted;
    hide Assoc.Put, Assoc.Get, S.KeysOf, NulFree, MembersText, MembersValue, S.MembersAdmitted;
    var name := PiecesValue(key);
    S.MembersTurn(name, s, acc, depth, f);
    var p := ParseMember(s, depth, f);
    var colon, start, d := MemberSpelled(s, depth, f);
    var u := Scan(p.src, f);
    var after, end := ScanSpelled(p.src.rest, f);
    PunctText(u.token, end, f);
    var m := Member(before, key, colon, Item(start, d, after));
    S.KeysAfterPut(acc, name, p.value);
    if u.token == TPunct(0x7D) {
      members := [m];
      OneMember(m, s.rest, p.src.rest, u.src.rest);
    } else {
      var w := Scan(u.src, f);
      var blank, text := ScanSpelled(u.src.rest, f);
      var next := KeySpelled(w.token, text, f);
      var put := Assoc.Put(acc, name, p.value);
      var more := MembersSpelled(next, blank, w.src, put, depth, f);
      members := [m] + more;
      assert members[1..] == more && members[0] == m;
      MoreMembers(members, s.rest, p.src.rest, u.src.rest, ParseMembers(w.token.text, w.src, put, depth, f).src.rest);
    }
    S.MembersSplit(members, acc, S.KeysOf(acc), f);
    assert |members| == 1 ==> S.MembersEnd(Assoc.Put(acc, name, p.value), S.KeysOf(acc) + {name}, members[1..], f);
  }

  lemma {:induction false} OneMember(m: Member, rest: Text, behind: Text, left: Text)
    requires IsMember(m) && IsDoc(m.value.doc)
    requires rest == m.colon + [0x3A] + m.value.before + DocText(m.value.doc) + behind && behind == m.value.after + [0x7D] + left
    ensures AreMembers([m]) && m.before + Quoted(m.key) + rest == MembersText([m]) + [0x7D] + left
  {
    hide Blank, IsDoc, DocText, Quoted;
    assert [m][1..] == [];
    var value := m.value;
    assert MembersText([m]) == m.before + Quoted(m.key) + m.colon + [0x3A] + value.before + DocText(value.doc) + value.after + [] + [];
    hide MembersText;
    MemberChain(m.before, Quoted(m.key), m.colon, [0x3A], value.before, DocText(value.doc), value.after + [0x7D] + left);
    assert m.before + Quoted(m.key) + m.colon + [0x3A] + value.before + DocText(value.doc) + value.after + [] + [] + [0x7D] + left ==
      m.before + Quoted(m.key) + m.colon + [0x3A] + value.before + DocText(value.doc) + (value.after + [0x7D] + left);
  }

  lemma MemberChain(a: Text, b: Text, c: Text, d: Text, e: Text, x: Text, y: Text)
    ensures a + b + (c + d + e + x + y) == a + b + c + d + e + x + y
  {
  }

  lemma {:induction false} MoreMembers(members: seq<Member>, rest: Text, behind: Text, left: Text, end: Text)
    requires |members| > 1 && AreMembers(members)
    requires var m := members[0];
      rest == m.colon + [0x3A] + m.value.before + DocText(m.value.doc) + behind && behind == m.value.after + [0x2C] + left
    requires left == MembersText(members[1..]) + [0x7D] + end
    ensures members[0].before + Quoted(members[0].key) + rest == MembersText(members) + [0x7D] + end
  {
    hide DocText, Quoted;
    var m, value := members[0], members[0].value;
    assert MembersText(members) == m.before + Quoted(m.key) + m.colon + [0x3A] + value.before + DocText(value.doc) + value.after +
      [0x2C] + MembersText(members[1..]);
    hide MembersText;
    Rejoin(m.before + Quoted(m.key), m.colon, [0x3A], value.before, DocText(value.doc), value.after, [0x2C], MembersText(members[1..]), [0x7D], end);
  }

  lemma Rejoin(p: Text, a: Text, b: Text, c: Text, d: Text, e: Text, x: Text, t: Text, y: Text, z: Text)
    ensures p + (a + b + c + d + (e + x + (t + y + z))) == p + a + b + c + d + e + x + t + y + z
  {
    assert a + b + c + d + (e + x + (t + y + z)) == a + b + c + d + e + x + t + y + z;
  }

  // ---- Whole texts ----

  lemma EndIsBlank(x: Text, f: LoadFlags)
    requires Scan(Src(0, x), f).token == TEof
    ensures Blank(x)
  {
    hide Get, SkipSpace, ScanString, ScanNumber, TakeLetters, Unread, Blank;
    var blank := SpaceIsPrefix(x);
    EndIsEmpty(SkipSpace(Src(0, x)));
    OtherTokens(SkipSpace(Src(0, x)), f);
    assert blank + [] == blank;
  }

  lemma OtherTokens(p: Src, f: LoadFlags)
    ensures ScanNumber(p, f).token != TEof && ScanString(p).token != TEof && WordToken(TakeLetters(p).text) != TEof
    ensures forall s: Src :: ScanString(s).token != TEof
  {
  }

  lemma {:induction false} ContainerOfValue(d: Doc, f: LoadFlags)
    requires IsDoc(d)
    ensures DocValue(d, f.intAsReal).IsContainer() <==> IsContainer(d)
  {
  }

  /** What the loader accepts is a document with white space around it, unless it does not look for the end. */
  lemma {:induction false} LoadedIsSpelled(input: Text, f: LoadFlags) returns (before: Text, d: Doc, after: Text)
    requires NoNul(input) && ParseJson(input, f).Some?
    ensures Blank(before) && IsDoc(d) && input == before + DocText(d) + after && (!f.disableEofCheck ==> Blank(after))
    ensures Within(d, f.intAsReal, f.allowNul, f.rejectDuplicates) && Levels(d) <= 2048 && (IsContainer(d) || f.decodeAny)
    ensures ParseJson(input, f) == Some(DocValue(d, f.intAsReal))
  {
    hide Scan, ParseValue, TokenIs, DocText, DocValue, Within, Levels, Blank, IsDoc;
    var t := Scan(Src(0, input), f);
    InvalidFails(t.src, 0, f);
    var text;
    before, text := ScanSpelled(input, f);
    d := ValueSpelled(t.token, text, t.src, 0, f);
    var p := ParseValue(t.token, t.src, 0, f);
    after := p.src.rest;
    assert before + text + t.src.rest == before + (text + t.src.rest);
    if !f.disableEofCheck {
      EndIsBlank(after, f);
    }
    ContainerOfPunct(t.src, 0, f);
    ContainerOfValue(d, f);
  }

  /** A text that spells a value within the limits that the flags set. */
  ghost predicate SpellsAs(input: Text, before: Text, d: Doc, after: Text, f: LoadFlags, v: Json) {
    && Blank(before) && IsDoc(d) && Blank(after) && input == before + DocText(d) + after
    && Within(d, f.intAsReal, f.allowNul, f.rejectDuplicates) && Levels(d) <= 2048 && (IsContainer(d) || f.decodeAny)
    && v == DocValue(d, f.intAsReal)
  }

  /** json_loadb accepts exactly the texts of the grammar within its limits, and gives what they spell. */
  lemma LoadsExactly(input: Text, f: LoadFlags, v: Json)
    requires NoNul(input) && !f.disableEofCheck
    ensures ParseJson(input, f) == Some(v) <==> exists before, d, after :: SpellsAs(input, before, d, after, f, v)
  {
    hide ParseJson, DocText, DocValue, Within, Levels, Blank, IsDoc;
    if ParseJson(input, f) == Some(v) {
      var before, d, after := LoadedIsSpelled(input, f);
      assert SpellsAs(input, before, d, after, f, v);
    }
    forall before, d, after | SpellsAs(input, before, d, after, f, v) ensures ParseJson(input, f) == Some(v) {
      S.SpellingLoads(before, d, after, f);
    }
  }

  /** With a NUL it is otherwise: one behind a number is taken back and lost, so this loads as [1] does. */
  lemma NulIsLost(f: LoadFlags)
    requires !f.intAsReal
    ensures ParseJson([0x5B, 0x31, 0x00, 0x5D], f) == Some(Array([Integer(1)]))
  {
    hide Scan;
    NulBehindNumber(f);
    L.ScanPunct(0x5B, [0x31, 0x00, 0x5D], f);
    L.ScanPunct(0x5D, [], f);
    assert [0x5B] + [0x31, 0x00, 0x5D] == [0x5B, 0x31, 0x00, 0x5D] && [0x5D] + [] == [0x5D];
    S.EndBehindBlank([], f);
    var none: seq<Json> := [];
    S.ElementsTurn(TInteger(1), Src(0, [0x5D]), none, 1, f);
    assert ParseValue(TInteger(1), Src(0, [0x5D]), 1, f) == Done(Integer(1), Src(0, [0x5D]));
    assert ParseElements(TInteger(1), Src(0, [0x5D]), none, 1, f) == Done(Array(none + [Integer(1)]), Src(0, []));
    assert none + [Integer(1)] == [Integer(1)];
    assert ParseArray(Src(0, [0x31, 0x00, 0x5D]), 1, f) == Done(Array([Integer(1)]), Src(0, []));
    assert ParseValue(TPunct(0x5B), Src(0, [0x31, 0x00, 0x5D]), 0, f) == Done(Array([Integer(1)]), Src(0, []));
  }

  lemma NulBehindNumber(f: LoadFlags)
    requires !f.intAsReal
    ensures Scan(Src(0, [0x31, 0x00, 0x5D]), f) == Scanned(TInteger(1), Src(0, [0x5D]))
  {
    hide Get, TakeInteger, Scan;
    var s, tail: Text := [0x31, 0x00, 0x5D], [0x00, 0x5D];
    assert s == Digits(1) + tail;
    L.GetAscii(s);
    L.GetAscii(tail);
    L.StartsNumber(s, f);
    L.TakeWhole(1, tail);
    DigitsValueOfDigits(1);
    assert tail[1..] == [0x5D];
  }
}
