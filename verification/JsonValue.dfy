/** JSON values as trees, and the decimal and hexadecimal numerals of the printer and the scanner. */
module JsonValue {
  import opened Bytes
  import opened Assoc
  import Utf8

  /**
   A JSON value. A real is its numeral: the conversions between numerals and doubles are
   libc's and not part of this model.
   */
  datatype Json =
    | Null
    | True
    | False
    | Integer(i: int)
    | Real(numeral: Text)
    | String(text: Text)
    | Array(items: seq<Json>)
    | Object(fields: seq<Pair<Json>>)
  {
    predicate IsContainer() {
      Array? || Object?
    }
  }

  function Max(a: nat, b: nat): nat {
    if a < b then b else a
  }

  /** The number of nested values on the longest path; a scalar has height 1. */
  function Height(v: Json): (h: nat)
    ensures h >= 1
  {
    match v
    case Array(items) => 1 + HeightItems(items)
    case Object(fields) => 1 + HeightFields(fields)
    case _ => 1
  }

  function HeightItems(items: seq<Json>): nat {
    if items == [] then 0 else Max(Height(items[0]), HeightItems(items[1..]))
  }

  function HeightFields(fields: seq<Pair<Json>>): nat {
    if fields == [] then 0 else Max(Height(fields[0].value), HeightFields(fields[1..]))
  }

  // ---- Characters and numerals ----

  const QUOTE: Byte := '"' as int
  const BACKSLASH: Byte := '\\' as int
  const SLASH: Byte := '/' as int
  const COMMA: Byte := ',' as int
  const COLON: Byte := ':' as int
  const SPACE: Byte := ' ' as int
  const NEWLINE: Byte := '\n' as int
  const LBRACKET: Byte := '[' as int
  const RBRACKET: Byte := ']' as int
  const LBRACE: Byte := '{' as int
  const RBRACE: Byte := '}' as int

  const NULL_TEXT: Text := ['n' as int, 'u' as int, 'l' as int, 'l' as int]
  const TRUE_TEXT: Text := ['t' as int, 'r' as int, 'u' as int, 'e' as int]
  const FALSE_TEXT: Text := ['f' as int, 'a' as int, 'l' as int, 's' as int, 'e' as int]

  predicate IsDigit(c: int) {
    '0' as int <= c <= '9' as int
  }

  predicate AllDigits(s: Text) {
    forall i :: 0 <= i < |s| ==> IsDigit(s[i])
  }

  /** The decimal digits of a natural number, without leading zeros. */
  function Digits(n: nat): (s: Text)
    ensures |s| >= 1 && AllDigits(s)
    ensures s[0] == '0' as int ==> |s| == 1
    ensures n > 0 ==> s[0] != '0' as int
  {
    if n < 10 then ['0' as int + n] else Digits(n / 10) + ['0' as int + n % 10]
  }

  /** "%lld" */
  function Decimal(i: int): (s: Text)
    ensures |s| >= 1
  {
    if i < 0 then ['-' as int] + Digits(-i) else Digits(i)
  }

  /** The number a string of decimal digits denotes. */
  function DigitsValue(s: Text): nat
    requires AllDigits(s)
  {
    if s == [] then 0 else DigitsValue(s[..|s| - 1]) * 10 + (s[|s| - 1] - '0' as int)
  }

  lemma {:induction false} DigitsValueOfDigits(n: nat)
    ensures DigitsValue(Digits(n)) == n
  {
    if n < 10 {
      assert Digits(n)[..0] == [];
    } else {
      var s := Digits(n);
      assert s[..|s| - 1] == Digits(n / 10);
      DigitsValueOfDigits(n / 10);
    }
  }

  /** A numeral with a fraction or an exponent (section 6 of RFC 8259). */
  ghost predicate IsRealNumeral(s: Text) {
    exists whole: nat, negative: bool, fraction: Text, exponent: Text ::
      IsFraction(fraction) && IsExponent(exponent) && (fraction != [] || exponent != []) &&
      s == RealNumeral(negative, whole, fraction, exponent)
  }

  function RealNumeral(negative: bool, whole: nat, fraction: Text, exponent: Text): Text {
    (if negative then ['-' as int] else []) + Digits(whole) + fraction + exponent
  }

  /** Empty, or a point and at least one digit. */
  predicate IsFraction(s: Text) {
    s == [] || (|s| >= 2 && s[0] == '.' as int && AllDigits(s[1..]))
  }

  /** Empty, or an 'e', an optional sign and at least one digit. */
  predicate IsExponent(s: Text) {
    s == [] ||
    (|s| >= 2 && s[0] in {'e' as int, 'E' as int} &&
     var digits := if s[1] in {'+' as int, '-' as int} then s[2..] else s[1..];
     digits != [] && AllDigits(digits))
  }

  predicate NulFree(s: Text) {
    forall i :: 0 <= i < |s| ==> s[i] != 0
  }

  // ---- Well-formed values ----

  /**
   What jansson lets a value hold: 64-bit integers, valid UTF-8 strings, keys that are valid
   UTF-8 C strings and occur once. Whether strings may contain NUL is up to the loader.
   */
  ghost predicate WellFormed(v: Json) {
    match v
    case Integer(i) => INT64_MIN <= i <= INT64_MAX
    case Real(s) => IsRealNumeral(s)
    case String(s) => Utf8.Valid(s)
    case Array(items) => WellFormedItems(items)
    case Object(fields) => WellFormedFields(fields) && Unique(fields)
    case _ => true
  }

  ghost predicate WellFormedItems(items: seq<Json>) {
    items == [] || (WellFormed(items[0]) && WellFormedItems(items[1..]))
  }

  ghost predicate WellFormedFields(fields: seq<Pair<Json>>) {
    fields == [] ||
    (Utf8.Valid(fields[0].key) && NulFree(fields[0].key) && WellFormed(fields[0].value) && WellFormedFields(fields[1..]))
  }

  /** No string value contains a NUL byte. */
  predicate StringsNulFree(v: Json) {
    match v
    case String(s) => NulFree(s)
    case Array(items) => ItemsNulFree(items)
    case Object(fields) => FieldsNulFree(fields)
    case _ => true
  }

  predicate ItemsNulFree(items: seq<Json>) {
    items == [] || (StringsNulFree(items[0]) && ItemsNulFree(items[1..]))
  }

  predicate FieldsNulFree(fields: seq<Pair<Json>>) {
    fields == [] || (StringsNulFree(fields[0].value) && FieldsNulFree(fields[1..]))
  }

  predicate HasInteger(v: Json) {
    match v
    case Integer(_) => true
    case Array(items) => ItemsHaveInteger(items)
    case Object(fields) => FieldsHaveInteger(fields)
    case _ => false
  }

  predicate ItemsHaveInteger(items: seq<Json>) {
    items != [] && (HasInteger(items[0]) || ItemsHaveInteger(items[1..]))
  }

  predicate FieldsHaveInteger(fields: seq<Pair<Json>>) {
    fields != [] && (HasInteger(fields[0].value) || FieldsHaveInteger(fields[1..]))
  }

  // ---- json_equal ----

  /** json_equal: objects are compared as maps, arrays and strings element by element. */
  predicate Equal(a: Json, b: Json) {
    match (a, b)
    case (Array(x), Array(y)) => |x| == |y| && EqualItems(x, y)
    case (Object(x), Object(y)) => |x| == |y| && EqualFields(x, y)
    case (Array(_), _) => false
    case (Object(_), _) => false
    case _ => a == b
  }

  predicate EqualItems(x: seq<Json>, y: seq<Json>)
    requires |x| == |y|
  {
    x == [] || (Equal(x[0], y[0]) && EqualItems(x[1..], y[1..]))
  }

  /** Every field of the first object has an equal counterpart in the second. */
  predicate EqualFields(x: seq<Pair<Json>>, y: seq<Pair<Json>>)
    decreases x
  {
    x == [] ||
    (match Get(y, x[0].key)
     case None => false
     case Some(v) => Equal(x[0].value, v) && EqualFields(x[1..], y))
  }

  // ---- Sorting object keys ----

  /** strcmp on NUL-free keys: unsigned lexicographic order. */
  predicate KeyBefore(a: Text, b: Text) {
    b != [] && (a == [] || a[0] < b[0] || (a[0] == b[0] && KeyBefore(a[1..], b[1..])))
  }

  /** Inserts a pair in front of the first one whose key does not come before its own. */
  function InsertSorted<V>(p: Pair<V>, s: seq<Pair<V>>): (r: seq<Pair<V>>)
    ensures |r| == |s| + 1
    ensures multiset(r) == multiset(s) + multiset{p}
  {
    if s == [] then [p]
    else if KeyBefore(s[0].key, p.key) then
      assert s == [s[0]] + s[1..];
      [s[0]] + InsertSorted(p, s[1..])
    else [p] + s
  }

  /** The pairs of an object in the order of their keys: what qsort leaves, as keys are distinct. */
  function SortPairs<V>(s: seq<Pair<V>>): (r: seq<Pair<V>>)
    ensures |r| == |s|
    ensures multiset(r) == multiset(s)
  {
    if s == [] then [] else
      assert s == [s[0]] + s[1..];
      InsertSorted(s[0], SortPairs(s[1..]))
  }

  /** A value with the fields of all its objects sorted by key. */
  function SortDeep(v: Json): (r: Json) {
    match v
    case Array(items) => Array(SortItems(items))
    case Object(fields) => Object(SortPairs(SortFields(fields)))
    case _ => v
  }

  function SortItems(items: seq<Json>): (r: seq<Json>)
    ensures |r| == |items|
  {
    if items == [] then [] else [SortDeep(items[0])] + SortItems(items[1..])
  }

  /** Sorts inside the values, not the fields themselves. */
  function SortFields(fields: seq<Pair<Json>>): (r: seq<Pair<Json>>)
    ensures |r| == |fields|
    ensures forall i :: 0 <= i < |r| ==> r[i].key == fields[i].key
  {
    if fields == [] then [] else [Pair(fields[0].key, SortDeep(fields[0].value))] + SortFields(fields[1..])
  }
}
