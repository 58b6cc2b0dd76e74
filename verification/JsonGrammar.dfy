/**
 The grammar of sections 2 to 7 of RFC 8259, written down apart from the scanner and the parser: documents
 with every choice that the grammar leaves open, the text of each, and the value that it spells.
 */
module JsonGrammar {
  import opened Bytes
  import Assoc
  import opened JsonValue
  import Utf8

  // ---- White space, section 2 ----

  predicate IsBlank(c: int) {
    c == 0x20 || c == 0x09 || c == 0x0A || c == 0x0D
  }

  predicate Blank(s: Text) {
    forall i :: 0 <= i < |s| ==> IsBlank(s[i])
  }

  // ---- Strings, section 7 ----

  /** A character as it is, after a backslash, by its code, or by the codes of a surrogate pair. */
  datatype Piece =
    | Plain(cp: int)
    | Short(letter: Byte)
    | Unit(digits: Text)
    | Pair(high: Text, low: Text)

  predicate IsHex(c: int) {
    0x30 <= c <= 0x39 || 0x41 <= c <= 0x46 || 0x61 <= c <= 0x66
  }

  /** A to F and a to f alike stand for 10 to 15. */
  function HexOf(c: Byte): (v: nat)
    requires IsHex(c)
    ensures v < 16
  {
    if c <= 0x39 then c - 0x30 else if c <= 0x46 then c - 0x41 + 10 else c - 0x61 + 10
  }

  predicate IsUnit(digits: Text) {
    |digits| == 4 && forall i :: 0 <= i < 4 ==> IsHex(digits[i])
  }

  function UnitOf(digits: Text): (n: nat)
    requires IsUnit(digits)
    ensures n < 0x10000
  {
    4096 * HexOf(digits[0]) + 256 * HexOf(digits[1]) + 16 * HexOf(digits[2]) + HexOf(digits[3])
  }

  predicate IsPiece(p: Piece) {
    match p
    case Plain(cp) => Utf8.IsScalar(cp) && 0x20 <= cp && cp != 0x22 && cp != 0x5C
    case Short(letter) => letter in {0x22, 0x5C, 0x2F, 0x62, 0x66, 0x6E, 0x72, 0x74}
    case Unit(digits) => IsUnit(digits) && !(0xD800 <= UnitOf(digits) <= 0xDFFF)
    case Pair(high, low) => IsUnit(high) && IsUnit(low) && 0xD800 <= UnitOf(high) <= 0xDBFF && 0xDC00 <= UnitOf(low) <= 0xDFFF
  }

  function PieceText(p: Piece): Text
    requires IsPiece(p)
  {
    match p
    case Plain(cp) => Utf8.Encode(cp)
    case Short(letter) => [0x5C, letter]
    case Unit(digits) => [0x5C, 0x75] + digits
    case Pair(high, low) => [0x5C, 0x75] + high + [0x5C, 0x75] + low
  }

  /** The character that a piece stands for. */
  function PieceValue(p: Piece): (cp: int)
    requires IsPiece(p)
    ensures Utf8.IsScalar(cp)
  {
    match p
    case Plain(cp) => cp
    case Short(letter) =>
      if letter == 0x62 then 8 else if letter == 0x66 then 12 else if letter == 0x6E then 10
      else if letter == 0x72 then 13 else if letter == 0x74 then 9 else letter
    case Unit(digits) => UnitOf(digits)
    case Pair(high, low) => 0x10000 + 0x400 * (UnitOf(high) - 0xD800) + (UnitOf(low) - 0xDC00)
  }

  predicate ArePieces(ps: seq<Piece>) {
    forall i :: 0 <= i < |ps| ==> IsPiece(ps[i])
  }

  function PiecesText(ps: seq<Piece>): Text
    requires ArePieces(ps)
  {
    if ps == [] then [] else PieceText(ps[0]) + PiecesText(ps[1..])
  }

  function PiecesValue(ps: seq<Piece>): Text
    requires ArePieces(ps)
  {
    if ps == [] then [] else Utf8.Encode(PieceValue(ps[0])) + PiecesValue(ps[1..])
  }

  // ---- Numbers, section 6 ----

  predicate AreDigits(s: Text) {
    s != [] && forall i :: 0 <= i < |s| ==> 0x30 <= s[i] <= 0x39
  }

  /** Digits without a leading zero. */
  predicate IsWhole(s: Text) {
    AreDigits(s) && (s[0] == 0x30 ==> |s| == 1)
  }

  predicate IsFractionText(s: Text) {
    s == [] || (s[0] == 0x2E && AreDigits(s[1..]))
  }

  predicate IsExponentText(s: Text) {
    s == [] || (s[0] in {0x65, 0x45} && |s| >= 2 && AreDigits(if s[1] in {0x2B, 0x2D} then s[2..] else s[1..]))
  }

  /** The number that decimal digits are. */
  function NumberOf(s: Text): nat
    requires forall i :: 0 <= i < |s| ==> 0x30 <= s[i] <= 0x39
  {
    if s == [] then 0 else 10 * NumberOf(s[..|s| - 1]) + (s[|s| - 1] - 0x30)
  }

  // ---- Documents, sections 3 to 5 ----

  datatype Doc =
    | NullDoc
    | TrueDoc
    | FalseDoc
    | IntegerDoc(minus: bool, whole: Text)
    | RealDoc(minus: bool, whole: Text, fraction: Text, exponent: Text)
    | StringDoc(pieces: seq<Piece>)
    | ArrayDoc(inner: Text, items: seq<Item>)
    | ObjectDoc(inner: Text, members: seq<Member>)

  /** A value with the white space around it. */
  datatype Item = Item(before: Text, doc: Doc, after: Text)

  datatype Member = Member(before: Text, key: seq<Piece>, colon: Text, value: Item)

  /** Without elements an array or object has only white space inside. */
  predicate IsDoc(d: Doc) {
    match d
    case IntegerDoc(_, whole) => IsWhole(whole)
    case RealDoc(_, whole, fraction, exponent) =>
      IsWhole(whole) && IsFractionText(fraction) && IsExponentText(exponent) && (fraction != [] || exponent != [])
    case StringDoc(pieces) => ArePieces(pieces)
    case ArrayDoc(inner, items) => Blank(inner) && AreItems(items)
    case ObjectDoc(inner, members) => Blank(inner) && AreMembers(members)
    case _ => true
  }

  predicate AreItems(items: seq<Item>) {
    items == [] || (Blank(items[0].before) && IsDoc(items[0].doc) && Blank(items[0].after) && AreItems(items[1..]))
  }

  predicate AreMembers(members: seq<Member>) {
    members == [] ||
    (IsMember(members[0]) && IsDoc(members[0].value.doc) && AreMembers(members[1..]))
  }

  predicate IsMember(m: Member) {
    Blank(m.before) && ArePieces(m.key) && Blank(m.colon) && Blank(m.value.before) && Blank(m.value.after)
  }

  function DocText(d: Doc): Text
    requires IsDoc(d)
  {
    match d
    case NullDoc => [0x6E, 0x75, 0x6C, 0x6C]
    case TrueDoc => [0x74, 0x72, 0x75, 0x65]
    case FalseDoc => [0x66, 0x61, 0x6C, 0x73, 0x65]
    case IntegerDoc(minus, whole) => Sign(minus) + whole
    case RealDoc(minus, whole, fraction, exponent) => Sign(minus) + whole + fraction + exponent
    case StringDoc(pieces) => Quoted(pieces)
    case ArrayDoc(inner, items) => [0x5B] + (if items == [] then inner else ItemsText(items)) + [0x5D]
    case ObjectDoc(inner, members) => [0x7B] + (if members == [] then inner else MembersText(members)) + [0x7D]
  }

  function Sign(minus: bool): Text {
    if minus then [0x2D] else []
  }

  function Quoted(pieces: seq<Piece>): Text
    requires ArePieces(pieces)
  {
    [0x22] + PiecesText(pieces) + [0x22]
  }

  /** What stands behind an element: a comma, unless it is the last. */
  function Comma(last: bool): Text {
    if last then [] else [0x2C]
  }

  function ItemsText(items: seq<Item>): Text
    requires AreItems(items)
  {
    if items == [] then []
    else items[0].before + DocText(items[0].doc) + items[0].after + Comma(|items| == 1) + ItemsText(items[1..])
  }

  function MembersText(members: seq<Member>): Text
    requires AreMembers(members)
  {
    if members == [] then []
    else
      var m := members[0];
      m.before + Quoted(m.key) + m.colon + [0x3A] + m.value.before + DocText(m.value.doc) + m.value.after +
        Comma(|members| == 1) + MembersText(members[1..])
  }

  // ---- Values ----

  /** The value of a document; integers are reals if they are asked for as such. */
  function DocValue(d: Doc, asReals: bool): Json
    requires IsDoc(d)
  {
    match d
    case NullDoc => Null
    case TrueDoc => True
    case FalseDoc => False
    case IntegerDoc(minus, whole) => if asReals then Real(Sign(minus) + whole) else Integer(IntegerOf(minus, whole))
    case RealDoc(minus, whole, fraction, exponent) => Real(Sign(minus) + whole + fraction + exponent)
    case StringDoc(pieces) => String(PiecesValue(pieces))
    case ArrayDoc(_, items) => Array(ItemsValue(items, asReals))
    case ObjectDoc(_, members) => Object(MembersValue([], members, asReals))
  }

  function IntegerOf(minus: bool, whole: Text): int
    requires IsWhole(whole)
  {
    if minus then -(NumberOf(whole) as int) else NumberOf(whole)
  }

  function ItemsValue(items: seq<Item>, asReals: bool): seq<Json>
    requires AreItems(items)
  {
    if items == [] then [] else [DocValue(items[0].doc, asReals)] + ItemsValue(items[1..], asReals)
  }

  /** The fields of an object, one after the other: the last of equal keys counts. */
  function MembersValue(fields: seq<Assoc.Pair<Json>>, members: seq<Member>, asReals: bool): seq<Assoc.Pair<Json>>
    requires AreMembers(members)
    decreases members
  {
    if members == [] then fields
    else
      MembersValue(Assoc.Put(fields, PiecesValue(members[0].key), DocValue(members[0].value.doc, asReals)), members[1..], asReals)
  }

  predicate IsContainer(d: Doc) {
    d.ArrayDoc? || d.ObjectDoc?
  }

  // ---- What a loader may refuse ----

  /** How deeply values are nested. */
  function Levels(d: Doc): (n: nat)
    ensures n >= 1
  {
    match d
    case ArrayDoc(_, items) => 1 + ItemsLevels(items)
    case ObjectDoc(_, members) => 1 + MembersLevels(members)
    case _ => 1
  }

  function ItemsLevels(items: seq<Item>): nat {
    if items == [] then 0 else Max(Levels(items[0].doc), ItemsLevels(items[1..]))
  }

  function MembersLevels(members: seq<Member>): nat {
    if members == [] then 0 else Max(Levels(members[0].value.doc), MembersLevels(members[1..]))
  }

  /**
   Whether a document is within the limits of jansson: integers have 64 bits, keys have no NUL, string values
   have none unless they may, and with the flag for it keys are distinct.
   */
  predicate Within(d: Doc, asReals: bool, allowNul: bool, distinct: bool)
    requires IsDoc(d)
  {
    match d
    case IntegerDoc(minus, whole) => asReals || -0x8000_0000_0000_0000 <= IntegerOf(minus, whole) <= 0x7FFF_FFFF_FFFF_FFFF
    case StringDoc(pieces) => allowNul || 0 !in PiecesValue(pieces)
    case ArrayDoc(_, items) => ItemsWithin(items, asReals, allowNul, distinct)
    case ObjectDoc(_, members) => MembersWithin({}, members, asReals, allowNul, distinct)
    case _ => true
  }

  predicate ItemsWithin(items: seq<Item>, asReals: bool, allowNul: bool, distinct: bool)
    requires AreItems(items)
  {
    items == [] || (Within(items[0].doc, asReals, allowNul, distinct) && ItemsWithin(items[1..], asReals, allowNul, distinct))
  }

  predicate MembersWithin(keys: set<Text>, members: seq<Member>, asReals: bool, allowNul: bool, distinct: bool)
    requires AreMembers(members)
    decreases members
  {
    members == [] ||
    (var key := PiecesValue(members[0].key);
     && 0 !in key && (distinct ==> key !in keys)
     && Within(members[0].value.doc, asReals, allowNul, distinct)
     && MembersWithin(keys + {key}, members[1..], asReals, allowNul, distinct))
  }
}
