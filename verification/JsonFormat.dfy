/**
 The bytes that the printer writes, apart from how it writes them: without flags for white space there is
 none outside of strings, and with them it is exactly where they say.
 */
module JsonFormat {
  import opened Bytes
  import opened Assoc
  import opened JsonValue
  import opened JsonDump
  import JsonLoad
  import JsonSorting
  import G = JsonGrammar
  import S = JsonSpelling
  import L = JsonLiterals
  import Utf8

  // ---- White space in a text without any ----

  function Blanks(n: nat): Text {
    seq(n, _ => 0x20)
  }

  /** A new line for what stands at some depth, if lines are asked for. */
  function Line(indent: nat, depth: nat): Text {
    if indent > 0 then [0x0A] + Blanks(depth * indent) else []
  }

  /**
   A text without white space with the white space of the flags put in, read from the left: `depth` is how many
   brackets are open, `inside` whether the text goes on inside a string.
   */
  function Spread(t: Text, indent: nat, compact: bool, depth: nat, inside: bool): Text
    decreases |t|
  {
    if t == [] then []
    else
      var c, rest := t[0], t[1..];
      if inside then
        if c == 0x5C && rest != [] then [c, rest[0]] + Spread(rest[1..], indent, compact, depth, true)
        else [c] + Spread(rest, indent, compact, depth, c != 0x22)
      else if (c == 0x5B || c == 0x7B) && rest != [] && rest[0] == c + 2 then
        // no line in an empty array or object
        [c, rest[0]] + Spread(rest[1..], indent, compact, depth, false)
      else if c == 0x5B || c == 0x7B then
        [c] + Line(indent, depth + 1) + Spread(rest, indent, compact, depth + 1, false)
      else if (c == 0x5D || c == 0x7D) && depth > 0 then
        Line(indent, depth - 1) + [c] + Spread(rest, indent, compact, depth - 1, false)
      else if c == 0x2C then
        [c] + (if indent > 0 then Line(indent, depth) else if compact then [] else [0x20]) + Spread(rest, indent, compact, depth, false)
      else if c == 0x3A then
        [c] + (if compact then [] else [0x20]) + Spread(rest, indent, compact, depth, false)
      else [c] + Spread(rest, indent, compact, depth, c == 0x22)
  }

  /** No white space outside of strings. */
  predicate Dense(t: Text, inside: bool)
    decreases |t|
  {
    t == [] ||
    (var c, rest := t[0], t[1..];
     if inside then
       if c == 0x5C && rest != [] then Dense(rest[1..], true) else Dense(rest, c != 0x22)
     else c !in {0x20, 0x09, 0x0A, 0x0D} && Dense(rest, c == 0x22))
  }

  /** The flags without lines and spaces. */
  function Tight(f: DumpFlags): DumpFlags {
    f.(indent := 0, compact := true)
  }

  // ---- Parts of a text ----

  /** Bytes that mean nothing to the format. */
  ghost predicate Neutral(s: Text) {
    forall i :: 0 <= i < |s| ==> s[i] !in {0x22, 0x5B, 0x5D, 0x7B, 0x7D, 0x2C, 0x3A, 0x20, 0x09, 0x0A, 0x0D}
  }

  lemma {:induction false} SpreadNeutral(s: Text, rest: Text, indent: nat, compact: bool, depth: nat)
    requires Neutral(s)
    ensures Spread(s + rest, indent, compact, depth, false) == s + Spread(rest, indent, compact, depth, false)
    ensures Dense(s + rest, false) == Dense(rest, false)
    decreases |s|
  {
    if s == [] {
      assert s + rest == rest;
    } else {
      assert (s + rest)[1..] == s[1..] + rest;
      SpreadNeutral(s[1..], rest, indent, compact, depth);
    }
  }

  lemma InsideQuote(rest: Text, indent: nat, compact: bool, depth: nat)
    ensures Spread([0x22] + rest, indent, compact, depth, true) == [0x22] + Spread(rest, indent, compact, depth, false)
    ensures Dense([0x22] + rest, true) == Dense(rest, false)
  {
    assert ([0x22] + rest)[1..] == rest;
  }

  lemma InsideByte(c: Byte, rest: Text, indent: nat, compact: bool, depth: nat)
    requires c != 0x22 && c != 0x5C
    ensures Spread([c] + rest, indent, compact, depth, true) == [c] + Spread(rest, indent, compact, depth, true)
    ensures Dense([c] + rest, true) == Dense(rest, true)
  {
    assert ([c] + rest)[1..] == rest;
  }

  lemma InsideEscape(c: Byte, rest: Text, indent: nat, compact: bool, depth: nat)
    ensures Spread([0x5C, c] + rest, indent, compact, depth, true) == [0x5C, c] + Spread(rest, indent, compact, depth, true)
    ensures Dense([0x5C, c] + rest, true) == Dense(rest, true)
  {
    var t := [0x5C, c] + rest;
    assert t[1..] == [c] + rest && t[1..][1..] == rest;
  }

  /** How a literal that is well escaped begins. */
  lemma EscapedShape(p: Text)
    requires JsonLoad.WellEscaped(p)
    ensures p[0] == 0x22 ==> p == [0x22]
    ensures p[0] == 0x5C ==> |p| >= 2 && p == [0x5C, p[1]] + p[2..]
    ensures p[0] == 0x5C && p[1] == 0x75 ==>
      |p| >= 6 && (forall i :: 2 <= i < 6 ==> JsonLoad.IsHexDigit(p[i])) && JsonLoad.WellEscaped(p[6..])
    ensures p[0] == 0x5C && p[1] != 0x75 ==> JsonLoad.WellEscaped(p[2..])
    ensures p[0] != 0x22 && p[0] != 0x5C ==> JsonLoad.WellEscaped(p[1..]) && p == [p[0]] + p[1..]
  {
    hide JsonLoad.IsHexDigit;
  }

  /** A literal behind its opening quote. */
  lemma {:induction false} SpreadInside(p: Text, rest: Text, indent: nat, compact: bool, depth: nat)
    requires JsonLoad.WellEscaped(p)
    ensures Spread(p + rest, indent, compact, depth, true) == p + Spread(rest, indent, compact, depth, false)
    ensures Dense(p + rest, true) == Dense(rest, false)
    decreases |p|
  {
    hide Spread, Dense, JsonLoad.WellEscaped, JsonLoad.IsHexDigit;
    EscapedShape(p);
    if p[0] == 0x22 {
      InsideQuote(rest, indent, compact, depth);
    } else if p[0] == 0x5C {
      InsideEscape(p[1], p[2..] + rest, indent, compact, depth);
      assert [0x5C, p[1]] + p[2..] + rest == [0x5C, p[1]] + (p[2..] + rest);
      if p[1] == 0x75 {
        SpreadUnit(p[2..], rest, indent, compact, depth);
        SpreadInside(p[6..], rest, indent, compact, depth);
        assert p[2..] == p[2..][..4] + p[6..] && p[2..][4..] == p[6..];
      } else {
        SpreadInside(p[2..], rest, indent, compact, depth);
      }
    } else {
      InsideByte(p[0], p[1..] + rest, indent, compact, depth);
      assert [p[0]] + p[1..] + rest == [p[0]] + (p[1..] + rest);
      SpreadInside(p[1..], rest, indent, compact, depth);
    }
  }

  /** The four digits of an escape. */
  lemma SpreadUnit(q: Text, rest: Text, indent: nat, compact: bool, depth: nat)
    requires |q| >= 4 && forall i :: 0 <= i < 4 ==> JsonLoad.IsHexDigit(q[i])
    ensures Spread(q + rest, indent, compact, depth, true) == q[..4] + Spread(q[4..] + rest, indent, compact, depth, true)
    ensures Dense(q + rest, true) == Dense(q[4..] + rest, true)
  {
    SpreadDigit(q, rest, indent, compact, depth);
    SpreadDigit(q[1..], rest, indent, compact, depth);
    SpreadDigit(q[2..], rest, indent, compact, depth);
    SpreadDigit(q[3..], rest, indent, compact, depth);
    hide Spread, Dense;
    assert q[..4] == [q[0]] + [q[1]] + [q[2]] + [q[3]];
    assert q[1..][1..] == q[2..] && q[2..][1..] == q[3..] && q[3..][1..] == q[4..];
  }

  lemma SpreadDigit(q: Text, rest: Text, indent: nat, compact: bool, depth: nat)
    requires q != [] && JsonLoad.IsHexDigit(q[0])
    ensures Spread(q + rest, indent, compact, depth, true) == [q[0]] + Spread(q[1..] + rest, indent, compact, depth, true)
    ensures Dense(q + rest, true) == Dense(q[1..] + rest, true)
  {
    assert (q + rest)[1..] == q[1..] + rest;
  }

  /** A string literal stays as it is. */
  lemma SpreadString(s: Text, f: DumpFlags, rest: Text, indent: nat, compact: bool, depth: nat)
    requires Utf8.Valid(s)
    ensures var t := StringText(s, f);
      && t.ok
      && Spread(t.text + rest, indent, compact, depth, false) == t.text + Spread(rest, indent, compact, depth, false)
      && Dense(t.text + rest, false) == Dense(rest, false)
  {
    hide Spread, Dense, StringBody, JsonLoad.WellEscaped, JsonLoad.TakeLiteral, JsonLoad.Decode;
    var body := StringBody(s, [], f).text;
    L.BodyAfterRun(s, [], f);
    L.LiteralRoundTrip(s, f, []);
    SpreadInside(body, rest, indent, compact, depth);
    OutsideByte(QUOTE, body + rest, indent, compact, depth);
    assert [QUOTE] + body + rest == [QUOTE] + (body + rest);
  }

  /** A byte outside of strings that brings no white space. */
  lemma OutsideByte(c: Byte, rest: Text, indent: nat, compact: bool, depth: nat)
    requires c !in {0x5B, 0x5D, 0x7B, 0x7D, 0x2C, 0x3A, 0x20, 0x09, 0x0A, 0x0D}
    ensures Spread([c] + rest, indent, compact, depth, false) == [c] + Spread(rest, indent, compact, depth, c == 0x22)
    ensures Dense([c] + rest, false) == Dense(rest, c == 0x22)
  {
    assert ([c] + rest)[1..] == rest;
  }

  // ---- Numbers and words ----

  lemma {:induction false} DigitsAreNeutral(s: Text)
    requires AllDigits(s)
    ensures Neutral(s)
  {
  }

  lemma RealIsNeutral(s: Text)
    requires IsRealNumeral(s)
    ensures Neutral(s)
  {
    hide Digits;
    var whole: nat, negative: bool, fraction: Text, exponent: Text :|
      IsFraction(fraction) && IsExponent(exponent) && (fraction != [] || exponent != []) &&
      s == RealNumeral(negative, whole, fraction, exponent);
    DigitsAreNeutral(Digits(whole));
    FractionIsNeutral(fraction);
    ExponentIsNeutral(exponent);
  }

  lemma FractionIsNeutral(s: Text)
    requires IsFraction(s)
    ensures Neutral(s)
  {
    if s != [] {
      DigitsAreNeutral(s[1..]);
      assert s == [s[0]] + s[1..];
    }
  }

  lemma ExponentIsNeutral(s: Text)
    requires IsExponent(s)
    ensures Neutral(s)
  {
    if s != [] {
      if s[1] in {'+' as int, '-' as int} {
        DigitsAreNeutral(s[2..]);
        assert s == [s[0], s[1]] + s[2..];
      } else {
        DigitsAreNeutral(s[1..]);
        assert s == [s[0]] + s[1..];
      }
    }
  }

  lemma DecimalIsNeutral(i: int)
    ensures Neutral(Decimal(i))
  {
    hide Digits;
    DigitsAreNeutral(Digits(if i < 0 then -i else i));
  }

  // ---- Brackets and separators ----

  lemma OpenBracket(c: Byte, rest: Text, indent: nat, compact: bool, depth: nat)
    requires (c == 0x5B || c == 0x7B) && rest != [] && rest[0] != c + 2
    ensures Spread([c] + rest, indent, compact, depth, false) ==
      [c] + Line(indent, depth + 1) + Spread(rest, indent, compact, depth + 1, false)
    ensures Dense([c] + rest, false) == Dense(rest, false)
  {
    assert ([c] + rest)[1..] == rest;
  }

  lemma EmptyBrackets(c: Byte, rest: Text, indent: nat, compact: bool, depth: nat)
    requires c == 0x5B || c == 0x7B
    ensures Spread([c, c + 2] + rest, indent, compact, depth, false) == [c, c + 2] + Spread(rest, indent, compact, depth, false)
    ensures Dense([c, c + 2] + rest, false) == Dense(rest, false)
  {
    var t := [c, c + 2] + rest;
    assert t[1..] == [c + 2] + rest && t[1..][1..] == rest;
  }

  lemma CloseBracket(c: Byte, rest: Text, indent: nat, compact: bool, depth: nat)
    requires c == 0x5D || c == 0x7D
    ensures Spread([c] + rest, indent, compact, depth + 1, false) == Line(indent, depth) + [c] + Spread(rest, indent, compact, depth, false)
    ensures Dense([c] + rest, false) == Dense(rest, false)
  {
    assert ([c] + rest)[1..] == rest;
  }

  lemma CommaSpreads(rest: Text, indent: nat, compact: bool, depth: nat)
    ensures Spread([0x2C] + rest, indent, compact, depth, false) ==
      [0x2C] + (if indent > 0 then Line(indent, depth) else if compact then [] else [0x20]) + Spread(rest, indent, compact, depth, false)
    ensures Dense([0x2C] + rest, false) == Dense(rest, false)
  {
    assert ([0x2C] + rest)[1..] == rest;
  }

  lemma ColonSpreads(rest: Text, indent: nat, compact: bool, depth: nat)
    ensures Spread([0x3A] + rest, indent, compact, depth, false) ==
      [0x3A] + (if compact then [] else [0x20]) + Spread(rest, indent, compact, depth, false)
    ensures Dense([0x3A] + rest, false) == Dense(rest, false)
  {
    assert ([0x3A] + rest)[1..] == rest;
  }

  // ---- Values ----

  /** The text of a value, as a part of a longer one: `tight` without white space, `wide` with that of the flags. */
  ghost predicate Spreads(tight: Text, wide: Text, rest: Text, f: DumpFlags, depth: nat) {
    && Spread(tight + rest, f.indent, f.compact, depth, false) == wide + Spread(rest, f.indent, f.compact, depth, false)
    && Dense(tight + rest, false) == Dense(rest, false)
  }

  lemma {:induction false} LeafSpreads(v: Json, f: DumpFlags, k: nat, d: nat, rest: Text)
    requires !v.IsContainer() && WellFormed(v)
    ensures var tight, wide := DumpTree(v, Tight(f), k, false), DumpTree(v, f, d, false);
      tight.Some? && wide.Some? && Spreads(tight.value, wide.value, rest, f, d)
  {
    hide Spread, Dense, StringText, Decimal, IsRealNumeral;
    match v
    case Integer(i) =>
      DecimalIsNeutral(i);
      SpreadNeutral(Decimal(i), rest, f.indent, f.compact, d);
    case Real(s) =>
      RealIsNeutral(s);
      SpreadNeutral(s, rest, f.indent, f.compact, d);
    case String(s) =>
      SpreadString(s, f, rest, f.indent, f.compact, d);
      SameString(s, f);
    case Null => SpreadNeutral(NULL_TEXT, rest, f.indent, f.compact, d);
    case True => SpreadNeutral(TRUE_TEXT, rest, f.indent, f.compact, d);
    case False => SpreadNeutral(FALSE_TEXT, rest, f.indent, f.compact, d);
  }

  /** The flags for white space do not touch strings. */
  lemma SameString(s: Text, f: DumpFlags)
    requires Utf8.Valid(s)
    ensures StringText(s, Tight(f)) == StringText(s, f)
  {
    hide StringBody;
    SameBody(s, [], f);
  }

  lemma {:induction false} SameBody(s: Text, run: Text, f: DumpFlags)
    requires Utf8.Valid(s)
    ensures StringBody(s, run, Tight(f)) == StringBody(s, run, f)
    decreases |s|
  {
    hide StringBody, EscapeText, Utf8.Front;
    StringBodyStep(s, run, f);
    StringBodyStep(s, run, Tight(f));
    if s != [] {
      var c := Utf8.Front(s).value;
      SameBody(s[c.size..], [], f);
      SameBody(s[c.size..], run + s[..c.size], f);
    }
  }

  /** What the printer calls indentation. */
  lemma IndentIs(f: DumpFlags, depth: nat)
    ensures IndentText(f, depth, false) == Line(f.indent, depth)
    ensures IndentText(f, depth, true) == if f.indent > 0 then Line(f.indent, depth) else if f.compact then [] else [0x20]
    ensures IndentText(Tight(f), depth, false) == [] && IndentText(Tight(f), depth, true) == []
  {
  }

  /** How a text begins. */
  lemma {:induction false} FirstByte(v: Json, f: DumpFlags, k: nat)
    requires WellFormed(v) && DumpTree(v, f, k, false).Some?
    ensures var t := DumpTree(v, f, k, false).value;
      t != [] && t[0] != 0x5D && t[0] != 0x7D
  {
    hide StringBody, IsRealNumeral, Decimal, DumpItems, DumpFields;
    match v
    case Integer(i) => DecimalIsNeutral(i);
    case Real(s) =>
      RealIsNeutral(s);
      RealIsSome(s);
    case _ =>
  }

  lemma RealIsSome(s: Text)
    requires IsRealNumeral(s)
    ensures s != []
  {
    hide Digits;
  }

  /** One element with what follows it, in front of the closing bracket or of the next one. */
  lemma ElementSpreads(tight: Text, wide: Text, last: bool, behind: Text, wideBehind: Text, c: Byte, rest: Text, f: DumpFlags, d: nat)
    requires c == 0x5D || c == 0x7D
    requires Spreads(tight, wide, AfterElement(Tight(f), d, last) + (behind + [c] + rest), f, d + 1)
    requires last ==> behind == wideBehind == []
    requires !last ==>
      Spread(behind + [c] + rest, f.indent, f.compact, d + 1, false) == wideBehind + [c] + Spread(rest, f.indent, f.compact, d, false)
    requires !last ==> Dense(behind + [c] + rest, false) == Dense(rest, false)
    ensures Spread(tight + AfterElement(Tight(f), d, last) + behind + [c] + rest, f.indent, f.compact, d + 1, false) ==
      wide + AfterElement(f, d, last) + wideBehind + [c] + Spread(rest, f.indent, f.compact, d, false)
    ensures Dense(tight + AfterElement(Tight(f), d, last) + behind + [c] + rest, false) == Dense(rest, false)
  {
    hide Spread, Dense, Line, IndentText;
    var after, end := AfterElement(Tight(f), d, last), Spread(rest, f.indent, f.compact, d, false);
    assert tight + after + behind + [c] + rest == tight + (after + (behind + [c] + rest));
    IndentIs(f, d);
    IndentIs(f, d + 1);
    if last {
      assert after + (behind + [c] + rest) == [c] + rest;
      CloseBracket(c, rest, f.indent, f.compact, d);
      assert wide + Line(f.indent, d) + [] + [c] + end == wide + (Line(f.indent, d) + [c] + end);
    } else {
      assert after == [0x2C];
      CommaSpreads(behind + [c] + rest, f.indent, f.compact, d + 1);
      var space := IndentText(f, d + 1, true);
      assert wide + ([0x2C] + space) + wideBehind + [c] + end == wide + ([0x2C] + space + (wideBehind + [c] + end));
    }
  }

  lemma {:induction false} TreeSpreads(v: Json, f: DumpFlags, k: nat, d: nat, rest: Text)
    requires WellFormed(v)
    ensures var tight, wide := DumpTree(v, Tight(f), k, false), DumpTree(v, f, d, false);
      tight.Some? && wide.Some? && Spreads(tight.value, wide.value, rest, f, d)
    decreases v, 0
  {
    hide Spreads;
    match v
    case Array(items) =>
      if items == [] {
        EmptySpreads(0x5B, rest, f, d);
      } else {
        ItemsSpread(items, f, k, d, rest);
        hide DumpItems;
        ContainerSpreads(0x5B, DumpItems(items, Tight(f), k).value, DumpItems(items, f, d).value, rest, f, k, d);
      }
    case Object(fields) =>
      if fields == [] {
        EmptySpreads(0x7B, rest, f, d);
      } else {
        FieldsSpread(fields, f, k, d, rest);
        hide DumpFields;
        ContainerSpreads(0x7B, DumpFields(fields, Tight(f), k).value, DumpFields(fields, f, d).value, rest, f, k, d);
      }
    case _ => LeafSpreads(v, f, k, d, rest);
  }

  lemma EmptySpreads(c: Byte, rest: Text, f: DumpFlags, d: nat)
    requires c == 0x5B || c == 0x7B
    ensures Spreads([c] + [c + 2], [c] + [c + 2], rest, f, d)
  {
    hide Spread, Dense;
    EmptyBrackets(c, rest, f.indent, f.compact, d);
    assert [c] + [c + 2] == [c, c + 2];
  }

  lemma ContainerSpreads(c: Byte, tight: Text, wide: Text, rest: Text, f: DumpFlags, k: nat, d: nat)
    requires (c == 0x5B || c == 0x7B) && tight != [] && tight[0] != c + 2
    requires Spread(tight + [c + 2] + rest, f.indent, f.compact, d + 1, false) == wide + [c + 2] + Spread(rest, f.indent, f.compact, d, false)
    requires Dense(tight + [c + 2] + rest, false) == Dense(rest, false)
    ensures Spreads([c] + IndentText(Tight(f), k + 1, false) + tight + [c + 2], [c] + IndentText(f, d + 1, false) + wide + [c + 2], rest, f, d)
  {
    hide Spread, Dense, Line, IndentText;
    IndentIs(f, k + 1);
    IndentIs(f, d + 1);
    var s := tight + [c + 2] + rest;
    OpenBracket(c, s, f.indent, f.compact, d);
    assert [c] + [] + tight + [c + 2] + rest == [c] + s;
    var end := Spread(rest, f.indent, f.compact, d, false);
    var line := Line(f.indent, d + 1);
    assert [c] + line + wide + [c + 2] + end == [c] + line + (wide + [c + 2] + end);
  }

  lemma {:induction false} ItemsSpread(items: seq<Json>, f: DumpFlags, k: nat, d: nat, rest: Text)
    requires WellFormedItems(items) && items != []
    ensures var tight, wide := DumpItems(items, Tight(f), k), DumpItems(items, f, d);
      && tight.Some? && wide.Some? && tight.value != [] && tight.value[0] != 0x5D
      && Spread(tight.value + [0x5D] + rest, f.indent, f.compact, d + 1, false) == wide.value + [0x5D] + Spread(rest, f.indent, f.compact, d, false)
      && Dense(tight.value + [0x5D] + rest, false) == Dense(rest, false)
    decreases items, 1
  {
    hide Spread, Dense, Spreads, DumpTree, AfterElement, WellFormed;
    var last, more := |items| == 1, items[1..];
    if !last {
      ItemsSpread(more, f, k, d, rest);
    }
    var behind, wideBehind := DumpItems(more, Tight(f), k).value, DumpItems(more, f, d).value;
    SameAfter(f, k, d, last);
    TreeSpreads(items[0], f, k + 1, d + 1, AfterElement(Tight(f), d, last) + (behind + [0x5D] + rest));
    FirstByte(items[0], Tight(f), k + 1);
    ElementSpreads(DumpTree(items[0], Tight(f), k + 1, false).value, DumpTree(items[0], f, d + 1, false).value, last,
      behind, wideBehind, 0x5D, rest, f, d);
  }

  lemma SameAfter(f: DumpFlags, k: nat, d: nat, last: bool)
    ensures AfterElement(Tight(f), k, last) == AfterElement(Tight(f), d, last)
  {
  }

  lemma {:induction false} FieldsSpread(fields: seq<Pair<Json>>, f: DumpFlags, k: nat, d: nat, rest: Text)
    requires WellFormedFields(fields) && fields != []
    ensures var tight, wide := DumpFields(fields, Tight(f), k), DumpFields(fields, f, d);
      && tight.Some? && wide.Some? && tight.value != [] && tight.value[0] != 0x7D
      && Spread(tight.value + [0x7D] + rest, f.indent, f.compact, d + 1, false) == wide.value + [0x7D] + Spread(rest, f.indent, f.compact, d, false)
      && Dense(tight.value + [0x7D] + rest, false) == Dense(rest, false)
    decreases fields, 1
  {
    hide Spread, Dense, Spreads, DumpTree, AfterElement, WellFormed, SeparatorText, StringBody, Utf8.Valid;
    var last, more, key := |fields| == 1, fields[1..], fields[0].key;
    if !last {
      FieldsSpread(more, f, k, d, rest);
    }
    var behind, wideBehind := DumpFields(more, Tight(f), k).value, DumpFields(more, f, d).value;
    SameAfter(f, k, d, last);
    var after := AfterElement(Tight(f), d, last) + (behind + [0x7D] + rest);
    TreeSpreads(fields[0].value, f, k + 1, d + 1, after);
    var tight, wide := DumpTree(fields[0].value, Tight(f), k + 1, false).value, DumpTree(fields[0].value, f, d + 1, false).value;
    KeySpreads(key, tight, wide, after, f, d + 1);
    SameString(key, f);
    ElementSpreads(StringText(key, f).text + SeparatorText(Tight(f)) + tight, StringText(key, f).text + SeparatorText(f) + wide, last,
      behind, wideBehind, 0x7D, rest, f, d);
  }

  /** A key, its colon and its value. */
  lemma KeySpreads(key: Text, tight: Text, wide: Text, rest: Text, f: DumpFlags, d: nat)
    requires Utf8.Valid(key) && Spreads(tight, wide, rest, f, d)
    ensures Spreads(StringText(key, f).text + SeparatorText(Tight(f)) + tight, StringText(key, f).text + SeparatorText(f) + wide, rest, f, d)
  {
    hide Spread, Dense, StringText;
    var k := StringText(key, f).text;
    SpreadString(key, f, [0x3A] + (tight + rest), f.indent, f.compact, d);
    ColonSpreads(tight + rest, f.indent, f.compact, d);
    assert SeparatorText(Tight(f)) == [0x3A];
    assert k + [0x3A] + tight + rest == k + ([0x3A] + (tight + rest));
    var space: Text := if f.compact then [] else [0x20];
    assert SeparatorText(f) == [0x3A] + space;
    var end := Spread(rest, f.indent, f.compact, d, false);
    assert k + ([0x3A] + space) + wide + end == k + ([0x3A] + space + (wide + end));
  }

  // ---- Whole texts ----

  /**
   The text of a value under any flags for white space is the text without, with exactly the white space of the
   flags put in; and there is none in that text outside of strings.
   */
  lemma TextIsSpread(v: Json, f: DumpFlags)
    requires WellFormed(v)
    ensures var tight, wide := DumpTree(v, Tight(f), 0, false), DumpTree(v, f, 0, false);
      tight.Some? && wide.Some? && Dense(tight.value, false) && wide.value == Spread(tight.value, f.indent, f.compact, 0, false)
  {
    hide Spread, Dense, DumpTree;
    TreeSpreads(v, f, 0, 0, []);
    SpreadNothing(f);
    var tight, wide := DumpTree(v, Tight(f), 0, false).value, DumpTree(v, f, 0, false).value;
    assert tight + [] == tight && wide + [] == wide;
  }

  lemma SpreadNothing(f: DumpFlags)
    ensures Spread([], f.indent, f.compact, 0, false) == [] && Dense([], false)
  {
  }

  /** The same of the dump of a value graph. */
  lemma DumpIsSpread(h: Heap, r: Ref, f: DumpFlags)
    requires JsonSorting.HeapWellFormed(h) && !f.embed && DumpText(h, r, f).Some?
    ensures var tight := DumpText(h, r, Tight(f));
      tight.Some? && Dense(tight.value, false) && DumpText(h, r, f) == Some(Spread(tight.value, f.indent, f.compact, 0, false))
  {
    hide Unfold, DumpTree, Spread, Dense;
    JsonSorting.UnfoldWellFormed(h, r, f.sortKeys, {});
    TextIsSpread(Unfold(h, r, f.sortKeys, {}).value, f);
  }

  /** An embedded array or object is its text without the brackets around it. */
  lemma EmbeddedIsInner(v: Json, f: DumpFlags)
    requires v.IsContainer() && DumpTree(v, f, 0, false).Some?
    ensures DumpTree(v, f, 0, true).Some?
    ensures DumpTree(v, f, 0, false).value == (if v.Array? then [0x5B] else [0x7B]) + DumpTree(v, f, 0, true).value + (if v.Array? then [0x5D] else [0x7D])
  {
    hide DumpItems, DumpFields, IndentText;
  }

  // ---- Characters of strings ----

  function Upper(n: nat): Byte
    requires n < 16
  {
    if n < 10 then 0x30 + n else 0x41 + n - 10
  }

  /** An escape with four digits, capitals among them. */
  function Escaped(n: nat): Text
    requires n < 0x10000
  {
    [0x5C, 0x75, Upper(n / 4096), Upper(n / 256 % 16), Upper(n / 16 % 16), Upper(n % 16)]
  }

  /** What each character of a string is written as. */
  lemma CharTextIs(cp: int, f: DumpFlags)
    requires Utf8.IsScalar(cp)
    ensures L.CharText(cp, f) ==
      if cp == 0x22 || cp == 0x5C then [0x5C, cp]
      else if cp == 0x08 then [0x5C, 0x62]
      else if cp == 0x0C then [0x5C, 0x66]
      else if cp == 0x0A then [0x5C, 0x6E]
      else if cp == 0x0D then [0x5C, 0x72]
      else if cp == 0x09 then [0x5C, 0x74]
      else if cp < 0x20 then Escaped(cp)
      else if cp == 0x2F && f.escapeSlash then [0x5C, 0x2F]
      else if cp < 0x80 then [cp]
      else if !f.ensureAscii then Utf8.Encode(cp)
      else if cp < 0x10000 then Escaped(cp)
      else Escaped(0xD800 + (cp - 0x10000) / 0x400) + Escaped(0xDC00 + (cp - 0x10000) % 0x400)
  {
  }

  // ---- Integers ----

  /** An integer is its digits without leading zeros, behind a minus exactly if it is negative. */
  lemma DecimalIs(i: int)
    ensures var t := Decimal(i);
      var whole := if i < 0 then t[1..] else t;
      t == G.Sign(i < 0) + whole && G.IsWhole(whole) && G.IntegerOf(i < 0, whole) == i
  {
    hide Digits;
    var n: nat := if i < 0 then -i else i;
    DigitsAre(n);
    assert (['-' as int] + Digits(n))[1..] == Digits(n);
  }

  lemma DigitsAre(n: nat)
    ensures G.IsWhole(Digits(n)) && G.NumberOf(Digits(n)) == n
  {
    hide Digits;
    S.NumberIsDigitsValue(Digits(n));
    DigitsValueOfDigits(n);
  }
}
