/**
 The scanner and parser of jansson/load.c.

 `Src` is what is left of the input. The end-of-input and error states of the stream are
 determined by it: a stream with nothing left is at its end, and one that does not start
 with a valid character is in error, now and ever after.
 */
module JsonLoad {
  import opened Bytes
  import opened Assoc
  import opened JsonValue
  import Utf8

  /** The JSON_* decoding flags. */
  datatype LoadFlags = LoadFlags(
    rejectDuplicates: bool, disableEofCheck: bool, decodeAny: bool, intAsReal: bool, allowNul: bool)

  const MAX_DEPTH := 2048

  const EOF := -1
  const ERROR := -2

  datatype Token =
    | TInvalid
    | TEof
    | TPunct(c: Byte)
    | TString(text: Text)
    | TInteger(i: int)
    | TReal(numeral: Text)
    | TTrue
    | TFalse
    | TNull

  // ---- The byte stream ----

  /** The unread input, and how many of its first bytes complete a character already checked. */
  datatype Src = Src(mid: nat, rest: Text)

  datatype Got = Got(c: int, src: Src)

  /** stream_get */
  function Get(s: Src): (g: Got)
    ensures g.c == EOF || g.c == ERROR || 0 <= g.c < 256
    ensures g.c >= 0 ==> s.rest != [] && g.c == s.rest[0] && g.src.rest == s.rest[1..]
    ensures g.c < 0 ==> g.src == s
  {
    if s.rest == [] then Got(EOF, s)
    else if s.mid > 0 then Got(s.rest[0], Src(s.mid - 1, s.rest[1..]))
    else match Utf8.Front(s.rest)
      case None => Got(ERROR, s)
      case Some(c) => Got(s.rest[0], Src(c.size - 1, s.rest[1..]))
  }

  /** Reading a byte and putting it back: a NUL byte is not seen again. */
  function Unread(s: Src): (r: Src)
    ensures |r.rest| <= |s.rest|
  {
    if Get(s).c == 0 then Get(s).src else s
  }

  // ---- Tokens ----

  predicate IsSpace(c: int) {
    c == SPACE || c == '\t' as int || c == NEWLINE || c == '\r' as int
  }

  predicate IsPunct(c: int) {
    c == LBRACE || c == RBRACE || c == LBRACKET || c == RBRACKET || c == COLON || c == COMMA
  }

  predicate IsLower(c: int) {
    'a' as int <= c <= 'z' as int
  }

  predicate IsUpper(c: int) {
    'A' as int <= c <= 'Z' as int
  }

  predicate IsLetter(c: int) {
    IsLower(c) || IsUpper(c)
  }

  predicate IsHexDigit(c: int) {
    IsDigit(c) || 'A' as int <= c <= 'F' as int || 'a' as int <= c <= 'f' as int
  }

  function SkipSpace(s: Src): (r: Src)
    ensures |r.rest| <= |s.rest|
    ensures !IsSpace(Get(r).c)
    decreases |s.rest|
  {
    var g := Get(s);
    if IsSpace(g.c) then SkipSpace(g.src) else s
  }

  /** A stretch of input with some property, and what follows it. */
  datatype Taken = Taken(text: Text, src: Src)

  function TakeDigits(s: Src): (t: Taken)
    ensures |t.src.rest| <= |s.rest|
    ensures AllDigits(t.text) && !IsDigit(Get(t.src).c)
    ensures IsDigit(Get(s).c) ==> t.text != [] && |t.src.rest| < |s.rest|
    decreases |s.rest|
  {
    var g := Get(s);
    if IsDigit(g.c) then
      var t := TakeDigits(g.src);
      Taken([g.c] + t.text, t.src)
    else Taken([], s)
  }

  function TakeLetters(s: Src): (t: Taken)
    ensures |t.src.rest| <= |s.rest|
    ensures IsLetter(Get(s).c) ==> |t.src.rest| < |s.rest|
    decreases |s.rest|
  {
    var g := Get(s);
    if IsLetter(g.c) then
      var t := TakeLetters(g.src);
      Taken([g.c] + t.text, t.src)
    else Taken([], s)
  }

  datatype Scanned = Scanned(token: Token, src: Src)

  // ---- String tokens ----

  predicate IsShortEscape(c: int) {
    c == QUOTE || c == BACKSLASH || c == SLASH || c == 'b' as int || c == 'f' as int ||
    c == 'n' as int || c == 'r' as int || c == 't' as int
  }

  /** `n` hexadecimal digits. */
  function TakeHex(s: Src, n: nat): (t: Option<Taken>)
    ensures t.Some? ==> |t.value.text| == n && |t.value.src.rest| <= |s.rest|
    ensures t.Some? ==> forall i :: 0 <= i < n ==> IsHexDigit(t.value.text[i])
    decreases n
  {
    if n == 0 then Some(Taken([], s))
    else
      var g := Get(s);
      if !IsHexDigit(g.c) then None
      else match TakeHex(g.src, n - 1)
        case None => None
        case Some(t) => Some(Taken([g.c] + t.text, t.src))
  }

  function Prepend(text: Text, t: Option<Taken>): Option<Taken> {
    match t
    case None => None
    case Some(x) => Some(Taken(text + x.text, x.src))
  }

  /** The first pass of lex_scan_string: the source of a string literal up to its closing quote. */
  function TakeLiteral(s: Src): (t: Option<Taken>)
    ensures t.Some? ==> |t.value.src.rest| < |s.rest|
    decreases |s.rest|
  {
    var g := Get(s);
    if g.c == QUOTE then Some(Taken([QUOTE], g.src))
    else if g.c < 0x20 then None
    else if g.c == BACKSLASH then
      var e := Get(g.src);
      if e.c == 'u' as int then
        (match TakeHex(e.src, 4)
         case None => None
         case Some(h) => Prepend([BACKSLASH, 'u' as int] + h.text, TakeLiteral(h.src)))
      else if IsShortEscape(e.c) then Prepend([BACKSLASH, e.c], TakeLiteral(e.src))
      else None
    else Prepend([g.c], TakeLiteral(g.src))
  }

  /** The shape that the first pass leaves for the second: escapes are complete, one closing quote at the end. */
  predicate WellEscaped(p: Text)
    ensures WellEscaped(p) ==> p != []
    decreases |p|
  {
    p != [] &&
    if p[0] == QUOTE then |p| == 1
    else if p[0] == BACKSLASH then
      |p| >= 2 &&
      if p[1] == 'u' as int then
        |p| >= 6 && (forall i :: 2 <= i < 6 ==> IsHexDigit(p[i])) && WellEscaped(p[6..])
      else IsShortEscape(p[1]) && WellEscaped(p[2..])
    else WellEscaped(p[1..])
  }

  function HexDigitValue(c: Byte): (v: nat)
    requires IsHexDigit(c)
    ensures v < 16
  {
    if IsDigit(c) then c - '0' as int
    else if IsLower(c) then c - 'a' as int + 10
    else c - 'A' as int + 10
  }

  /** The value of four hexadecimal digits. */
  function HexValue(a: Byte, b: Byte, c: Byte, d: Byte): (v: nat)
    requires IsHexDigit(a) && IsHexDigit(b) && IsHexDigit(c) && IsHexDigit(d)
    ensures v < 0x10000
  {
    ((HexDigitValue(a) * 16 + HexDigitValue(b)) * 16 + HexDigitValue(c)) * 16 + HexDigitValue(d)
  }

  /** The value of the \uXXXX escape at the front. */
  function EscapeValue(p: Text): (v: nat)
    requires |p| >= 6 && forall i :: 2 <= i < 6 ==> IsHexDigit(p[i])
    ensures v < 0x10000
  {
    HexValue(p[2], p[3], p[4], p[5])
  }

  function ShortEscapeValue(c: Byte): Byte {
    if c == 'b' as int then 8
    else if c == 'f' as int then 12
    else if c == 'n' as int then 10
    else if c == 'r' as int then 13
    else if c == 't' as int then 9
    else c
  }

  predicate IsHighSurrogate(v: int) {
    0xD800 <= v <= 0xDBFF
  }

  predicate IsLowSurrogate(v: int) {
    0xDC00 <= v <= 0xDFFF
  }

  function PairValue(high: int, low: int): (cp: int)
    requires IsHighSurrogate(high) && IsLowSurrogate(low)
    ensures 0x10000 <= cp <= 0x10FFFF
  {
    (high - 0xD800) * 1024 + (low - 0xDC00) + 0x10000
  }

  function Cons(text: Text, t: Option<Text>): Option<Text> {
    match t
    case None => None
    case Some(x) => Some(text + x)
  }

  /** The second pass of lex_scan_string: the text that a literal denotes. Lone surrogates are refused. */
  function Decode(p: Text): (t: Option<Text>)
    requires WellEscaped(p)
    ensures t.Some? ==> |t.value| < |p|
    decreases |p|
  {
    if p[0] == QUOTE then Some([])
    else if p[0] == BACKSLASH then
      if p[1] == 'u' as int then
        var value := EscapeValue(p);
        var q := p[6..];
        assert WellEscaped(q);
        if IsHighSurrogate(value) then
          if q[0] == BACKSLASH && q[1] == 'u' as int then
            var value2 := EscapeValue(q);
            if IsLowSurrogate(value2) then Cons(Utf8.Encode(PairValue(value, value2)), Decode(q[6..]))
            else None
          else None
        else if IsLowSurrogate(value) then None
        else Cons(Utf8.Encode(value), Decode(q))
      else Cons([ShortEscapeValue(p[1])], Decode(p[2..]))
    else Cons([p[0]], Decode(p[1..]))
  }

  lemma {:induction false} LiteralWellEscaped(s: Src)
    requires TakeLiteral(s).Some?
    ensures WellEscaped(TakeLiteral(s).value.text)
    decreases |s.rest|
  {
    var g := Get(s);
    var t := TakeLiteral(s).value.text;
    if g.c == QUOTE {
    } else if g.c == BACKSLASH {
      var e := Get(g.src);
      if e.c == 'u' as int {
        var h := TakeHex(e.src, 4).value;
        LiteralWellEscaped(h.src);
        assert t[6..] == TakeLiteral(h.src).value.text;
        assert forall i :: 2 <= i < 6 ==> t[i] == h.text[i - 2];
      } else {
        LiteralWellEscaped(e.src);
        assert t[2..] == TakeLiteral(e.src).value.text;
      }
    } else {
      LiteralWellEscaped(g.src);
      assert t[1..] == TakeLiteral(g.src).value.text;
    }
  }

  /** lex_scan_string, after the opening quote. */
  function ScanString(s: Src): (r: Scanned)
    ensures r.token != TInvalid ==> |r.src.rest| < |s.rest|
  {
    match TakeLiteral(s)
    case None => Scanned(TInvalid, s)
    case Some(t) =>
      LiteralWellEscaped(s);
      match Decode(t.text)
      case None => Scanned(TInvalid, t.src)
      case Some(text) => Scanned(TString(text), t.src)
  }

  // ---- Number tokens ----

  /** The part of a number from its first digit to the end of its integer part. */
  function TakeInteger(s: Src): (t: Option<Taken>)
    ensures t.Some? ==> |t.value.src.rest| < |s.rest| && AllDigits(t.value.text) && t.value.text != []
  {
    var g := Get(s);
    if g.c == '0' as int then
      if IsDigit(Get(g.src).c) then None else Some(Taken(['0' as int], g.src))
    else if IsDigit(g.c) then Some(TakeDigits(s))
    else None
  }

  /** strtoll on a sign and digits, without its range check. */
  function IntegerValue(negative: bool, digits: Text): int
    requires AllDigits(digits)
  {
    var v: int := DigitsValue(digits);
    if negative then -v else v
  }

  function TakeFraction(s: Src): (t: Option<Taken>)
    ensures t.Some? ==> |t.value.src.rest| <= |s.rest|
  {
    var g := Get(s);
    if g.c != '.' as int then Some(Taken([], s))
    else if !IsDigit(Get(g.src).c) then None
    else Prepend(['.' as int], Some(TakeDigits(g.src)))
  }

  function TakeExponent(s: Src): (t: Option<Taken>)
    ensures t.Some? ==> |t.value.src.rest| <= |s.rest|
  {
    var g := Get(s);
    if g.c != 'e' as int && g.c != 'E' as int then Some(Taken([], s))
    else
      var sign := Get(g.src);
      if sign.c == '+' as int || sign.c == '-' as int then
        if !IsDigit(Get(sign.src).c) then None
        else Prepend([g.c, sign.c], Some(TakeDigits(sign.src)))
      else if !IsDigit(sign.c) then None
      else Prepend([g.c], Some(TakeDigits(g.src)))
  }

  /** The rest of a number that is not an integer, whose integer part is `text`. */
  function ScanReal(text: Text, s: Src): (r: Scanned)
    ensures |r.src.rest| <= |s.rest|
  {
    match TakeFraction(s)
    case None => Scanned(TInvalid, s)
    case Some(fraction) =>
      match TakeExponent(fraction.src)
      case None => Scanned(TInvalid, s)
      case Some(exponent) => Scanned(TReal(text + fraction.text + exponent.text), Unread(exponent.src))
  }

  /** lex_scan_number, from the first character of the number on. */
  function ScanNumber(s: Src, f: LoadFlags): (r: Scanned)
    ensures r.token != TInvalid ==> |r.src.rest| < |s.rest|
  {
    var negative := Get(s).c == '-' as int;
    match TakeInteger(if negative then Get(s).src else s)
    case None => Scanned(TInvalid, s)
    case Some(t) =>
      var c := Get(t.src).c;
      if !f.intAsReal && c != '.' as int && c != 'e' as int && c != 'E' as int then
        var value := IntegerValue(negative, t.text);
        if INT64_MIN <= value <= INT64_MAX then Scanned(TInteger(value), Unread(t.src))
        else Scanned(TInvalid, s)
      else ScanReal((if negative then ['-' as int] else []) + t.text, t.src)
  }

  // ---- lex_scan ----

  function WordToken(text: Text): Token {
    if text == TRUE_TEXT then TTrue
    else if text == FALSE_TEXT then TFalse
    else if text == NULL_TEXT then TNull
    else TInvalid
  }

  function Scan(s: Src, f: LoadFlags): (r: Scanned)
    ensures r.token != TInvalid && r.token != TEof ==> |r.src.rest| < |s.rest|
    ensures |r.src.rest| <= |s.rest|
    ensures r.token == TInvalid ==> s.rest != []
  {
    var p := SkipSpace(s);
    var g := Get(p);
    if g.c == EOF then Scanned(TEof, p)
    else if g.c == ERROR then Scanned(TInvalid, p)
    else if IsPunct(g.c) then Scanned(TPunct(g.c), g.src)
    else if g.c == QUOTE then ScanString(g.src)
    else if IsDigit(g.c) || g.c == '-' as int then ScanNumber(p, f)
    else if IsLetter(g.c) then
      var t := TakeLetters(p);
      Scanned(WordToken(t.text), Unread(t.src))
    else Scanned(TInvalid, g.src)
  }

  // ---- The parser ----

  datatype Parsed = Fail | Done(value: Json, src: Src)

  /** parse_value: the value that starts with a token already scanned. `depth` is the nesting depth outside it. */
  function ParseValue(token: Token, s: Src, depth: nat, f: LoadFlags): (r: Parsed)
    ensures r.Done? ==> |r.src.rest| <= |s.rest|
    decreases |s.rest|, 1
  {
    if depth + 1 > MAX_DEPTH then Fail
    else match token
      case TString(text) => if !f.allowNul && !NulFree(text) then Fail else Done(String(text), s)
      case TInteger(i) => Done(Integer(i), s)
      case TReal(numeral) => Done(Real(numeral), s)
      case TTrue => Done(True, s)
      case TFalse => Done(False, s)
      case TNull => Done(Null, s)
      case TPunct(c) =>
        if c == LBRACE then ParseObject(s, depth + 1, f)
        else if c == LBRACKET then ParseArray(s, depth + 1, f)
        else Fail
      case TInvalid => Fail
      case TEof => Fail
  }

  /** parse_array, after the opening bracket. */
  function ParseArray(s: Src, depth: nat, f: LoadFlags): (r: Parsed)
    ensures r.Done? ==> |r.src.rest| <= |s.rest|
    decreases |s.rest|, 0
  {
    var t := Scan(s, f);
    if t.token == TPunct(RBRACKET) then Done(Array([]), t.src)
    else if t.token == TInvalid || t.token == TEof then Fail
    else ParseElements(t.token, t.src, [], depth, f)
  }

  /** The loop of parse_array, with the elements so far. */
  function ParseElements(token: Token, s: Src, acc: seq<Json>, depth: nat, f: LoadFlags): (r: Parsed)
    ensures r.Done? ==> |r.src.rest| <= |s.rest|
    decreases |s.rest|, 2
  {
    match ParseValue(token, s, depth, f)
    case Fail => Fail
    case Done(v, s1) =>
      var t := Scan(s1, f);
      if t.token == TPunct(RBRACKET) then Done(Array(acc + [v]), t.src)
      else if t.token != TPunct(COMMA) then Fail
      else
        var u := Scan(t.src, f);
        if u.token == TInvalid || u.token == TEof then Fail
        else ParseElements(u.token, u.src, acc + [v], depth, f)
  }

  /** parse_object, after the opening brace. */
  function ParseObject(s: Src, depth: nat, f: LoadFlags): (r: Parsed)
    ensures r.Done? ==> |r.src.rest| <= |s.rest|
    decreases |s.rest|, 0
  {
    var t := Scan(s, f);
    if t.token == TPunct(RBRACE) then Done(Object([]), t.src)
    else if !t.token.TString? then Fail
    else ParseMembers(t.token.text, t.src, [], depth, f)
  }

  /** The loop of parse_object after a key is scanned, with the fields so far. */
  function ParseMembers(key: Text, s: Src, acc: seq<Pair<Json>>, depth: nat, f: LoadFlags): (r: Parsed)
    ensures r.Done? ==> |r.src.rest| <= |s.rest|
    decreases |s.rest|, 2
  {
    if !NulFree(key) then Fail
    else if f.rejectDuplicates && Assoc.Get(acc, key).Some? then Fail
    else match ParseMember(s, depth, f)
      case Fail => Fail
      case Done(v, s1) =>
        var u := Scan(s1, f);
        if u.token == TPunct(RBRACE) then Done(Object(Put(acc, key, v)), u.src)
        else if u.token != TPunct(COMMA) then Fail
        else
          var w := Scan(u.src, f);
          if !w.token.TString? then Fail
          else ParseMembers(w.token.text, w.src, Put(acc, key, v), depth, f)
  }

  /** The colon behind a key, and the value. */
  function ParseMember(s: Src, depth: nat, f: LoadFlags): (r: Parsed)
    ensures r.Done? ==> |r.src.rest| <= |s.rest|
    decreases |s.rest|, 1
  {
    var colon := Scan(s, f);
    if colon.token != TPunct(COLON) then Fail
    else
      var t := Scan(colon.src, f);
      ParseValue(t.token, t.src, depth, f)
  }

  /** parse_json */
  function ParseJson(input: Text, f: LoadFlags): (r: Option<Json>) {
    var t := Scan(Src(0, input), f);
    if !f.decodeAny && t.token != TPunct(LBRACKET) && t.token != TPunct(LBRACE) then None
    else match ParseValue(t.token, t.src, 0, f)
      case Fail => None
      case Done(v, s) =>
        if !f.disableEofCheck && Scan(s, f).token != TEof then None else Some(v)
  }
}
