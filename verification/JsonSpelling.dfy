/**
 The loader against the grammar: every text of a document, whatever its white space, escapes, cases of
 hexadecimal digits and repeated keys, loads to the value that it spells, or is refused for its limits.
 */
module JsonSpelling {
  import opened Bytes
  import Assoc
  import opened JsonValue
  import opened JsonGrammar
  import opened JsonLoad
  import L = JsonLiterals
  import D = JsonDump
  import R = JsonReload
  import Utf8

  const NO_FLAGS := D.DumpFlags(0, false, false, false, false, false, false)

  // ---- Strings ----

  lemma UnitTaken(digits: Text, x: Text)
    requires IsUnit(digits)
    ensures TakeLiteral(Src(0, [0x5C, 0x75] + digits + x)) == Prepend([0x5C, 0x75] + digits, TakeLiteral(Src(0, x)))
  {
    hide Get, TakeHex, TakeLiteral, Prepend;
    var s := [0x5C, 0x75] + digits + x;
    L.GetAscii(s);
    assert s[1..] == [0x75] + (digits + x);
    L.GetAscii(s[1..]);
    assert s[1..][1..] == digits + x;
    L.TakeHexFour(digits, x);
    L.TakeUnicode(Src(0, s));
  }

  lemma UnitIsHexValue(digits: Text)
    requires IsUnit(digits)
    ensures HexValue(digits[0], digits[1], digits[2], digits[3]) == UnitOf(digits)
  {
    forall i | 0 <= i < 4 ensures IsHexDigit(digits[i]) && HexDigitValue(digits[i]) == HexOf(digits[i]) {
      HexIsHexDigit(digits[i]);
    }
  }

  lemma HexIsHexDigit(c: Byte)
    ensures IsHexDigit(c) <==> IsHex(c)
    ensures IsHex(c) ==> HexDigitValue(c) == HexOf(c)
  {
  }

  lemma UnitEscape(digits: Text, p: Text)
    requires IsUnit(digits) && WellEscaped(p)
    ensures var s := [0x5C, 0x75] + digits + p;
      WellEscaped(s) && EscapeValue(s) == UnitOf(digits) && s[6..] == p
  {
    UnitIsHexValue(digits);
    var s := [0x5C, 0x75] + digits + p;
    assert s[6..] == p;
    forall i | 2 <= i < 6 ensures s[i] == digits[i - 2] && IsHexDigit(s[i]) {
      HexIsHexDigit(s[i]);
    }
  }

  /** The first pass takes a piece whole. */
  lemma PieceTaken(p: Piece, x: Text)
    requires IsPiece(p)
    ensures TakeLiteral(Src(0, PieceText(p) + x)) == Prepend(PieceText(p), TakeLiteral(Src(0, x)))
  {
    hide TakeLiteral, Prepend;
    match p
    case Plain(cp) => L.LiteralOfChar(cp, x, NO_FLAGS);
    case Short(letter) => L.LiteralOfShort(letter, x);
    case Unit(digits) => UnitTaken(digits, x);
    case Pair(high, low) =>
      var a, b: Text := [0x5C, 0x75] + high, [0x5C, 0x75] + low;
      assert PieceText(p) == a + b && a + b + x == a + (b + x);
      UnitTaken(high, b + x);
      UnitTaken(low, x);
      L.PrependTwice(a, b, TakeLiteral(Src(0, x)));
  }

  /** The second pass makes of a piece the character that it stands for. */
  lemma PieceDecoded(p: Piece, q: Text)
    requires IsPiece(p) && WellEscaped(q)
    ensures WellEscaped(PieceText(p) + q)
    ensures Decode(PieceText(p) + q) == Cons(Utf8.Encode(PieceValue(p)), Decode(q))
  {
    match p
    case Plain(cp) => L.DecodeChar(cp, q, NO_FLAGS);
    case Short(letter) => ShortDecoded(letter, q);
    case Unit(digits) => UnitDecoded(digits, q);
    case Pair(high, low) => PairDecoded(high, low, q);
  }

  lemma ShortDecoded(letter: Byte, q: Text)
    requires IsPiece(Short(letter)) && WellEscaped(q)
    ensures var s := [0x5C, letter] + q;
      WellEscaped(s) && Decode(s) == Cons(Utf8.Encode(PieceValue(Short(letter))), Decode(q))
  {
    var s := [0x5C, letter] + q;
    assert s[2..] == q;
  }

  lemma UnitDecoded(digits: Text, q: Text)
    requires IsPiece(Unit(digits)) && WellEscaped(q)
    ensures var s := [0x5C, 0x75] + digits + q;
      WellEscaped(s) && Decode(s) == Cons(Utf8.Encode(UnitOf(digits)), Decode(q))
  {
    UnitEscape(digits, q);
    hide EscapeValue, Utf8.Encode, UnitOf;
  }

  lemma PairDecoded(high: Text, low: Text, q: Text)
    requires IsPiece(Pair(high, low)) && WellEscaped(q)
    ensures var s := PieceText(Pair(high, low)) + q;
      WellEscaped(s) && Decode(s) == Cons(Utf8.Encode(PieceValue(Pair(high, low))), Decode(q))
  {
    var b := [0x5C, 0x75] + low + q;
    UnitEscape(low, q);
    UnitEscape(high, b);
    assert PieceText(Pair(high, low)) + q == [0x5C, 0x75] + high + b;
    hide EscapeValue, Utf8.Encode, UnitOf;
  }

  lemma {:induction false} PiecesScan(ps: seq<Piece>, tail: Text)
    requires ArePieces(ps)
    ensures var body := PiecesText(ps) + [0x22];
      && TakeLiteral(Src(0, body + tail)) == Some(Taken(body, Src(0, tail)))
      && WellEscaped(body) && Decode(body) == Some(PiecesValue(ps))
  {
    hide TakeLiteral, WellEscaped, Decode, PieceText, PieceValue, Utf8.Encode;
    if ps == [] {
      QuoteScans(tail);
      assert [] + [0x22] == [0x22];
    } else {
      PiecesScan(ps[1..], tail);
      PieceThen(ps[0], PiecesText(ps[1..]) + [0x22], PiecesValue(ps[1..]), tail);
      assert PieceText(ps[0]) + PiecesText(ps[1..]) + [0x22] == PieceText(ps[0]) + (PiecesText(ps[1..]) + [0x22]);
    }
  }

  lemma QuoteScans(tail: Text)
    ensures TakeLiteral(Src(0, [0x22] + tail)) == Some(Taken([0x22], Src(0, tail)))
    ensures WellEscaped([0x22]) && Decode([0x22]) == Some([])
  {
    L.GetAscii([0x22] + tail);
    assert ([0x22] + tail)[1..] == tail;
  }

  lemma PieceThen(p: Piece, body: Text, text: Text, tail: Text)
    requires IsPiece(p) && TakeLiteral(Src(0, body + tail)) == Some(Taken(body, Src(0, tail)))
    requires WellEscaped(body) && Decode(body) == Some(text)
    ensures var more := PieceText(p) + body;
      && TakeLiteral(Src(0, more + tail)) == Some(Taken(more, Src(0, tail)))
      && WellEscaped(more) && Decode(more) == Some(Utf8.Encode(PieceValue(p)) + text)
  {
    hide TakeLiteral, WellEscaped, Decode, PieceText, PieceValue, Utf8.Encode;
    assert PieceText(p) + body + tail == PieceText(p) + (body + tail);
    PieceTaken(p, body + tail);
    PieceDecoded(p, body);
  }

  lemma QuotedScans(ps: seq<Piece>, tail: Text, f: LoadFlags)
    requires ArePieces(ps)
    ensures Scan(Src(0, Quoted(ps) + tail), f) == Scanned(TString(PiecesValue(ps)), Src(0, tail))
  {
    hide TakeLiteral, WellEscaped, Decode, Scan, PiecesText, PiecesValue;
    PiecesScan(ps, tail);
    L.ScanQuoted(PiecesText(ps) + [0x22], PiecesValue(ps), tail, f);
    assert [0x22] + (PiecesText(ps) + [0x22]) == Quoted(ps);
  }

  // ---- Numbers ----

  lemma {:induction false} NumberIsDigitsValue(s: Text)
    requires forall i :: 0 <= i < |s| ==> 0x30 <= s[i] <= 0x39
    ensures AllDigits(s) && DigitsValue(s) == NumberOf(s)
  {
    if s != [] {
      NumberIsDigitsValue(s[..|s| - 1]);
    }
  }

  lemma WholeIsDigits(whole: Text)
    requires IsWhole(whole)
    ensures Digits(NumberOf(whole)) == whole
  {
    NumberIsDigitsValue(whole);
    R.DigitsOfValue(whole);
  }

  /** A whole number is an integer token, or none if it has more than 64 bits. */
  lemma IntegerScans(minus: bool, whole: Text, tail: Text, f: LoadFlags)
    requires IsWhole(whole) && L.IsDelimited(tail) && !f.intAsReal
    ensures var i, t := IntegerOf(minus, whole), Scan(Src(0, Sign(minus) + whole + tail), f);
      if -0x8000_0000_0000_0000 <= i <= 0x7FFF_FFFF_FFFF_FFFF then t == Scanned(TInteger(i), Src(0, tail)) else t.token == TInvalid
  {
    hide Digits, DigitsValue, TakeInteger, Get, Unread, Scan, NumberOf;
    WholeIsDigits(whole);
    var n := NumberOf(whole);
    L.DelimitedNumber(tail);
    L.SignedDigits(minus, n, tail, f);
    L.TakeWhole(n, tail);
    DigitsValueOfDigits(n);
  }

  lemma RealScans(minus: bool, whole: Text, fraction: Text, exponent: Text, tail: Text, f: LoadFlags)
    requires IsWhole(whole) && IsFractionText(fraction) && IsExponentText(exponent) && L.IsDelimited(tail)
    requires fraction != [] || exponent != [] || f.intAsReal
    ensures var s := Sign(minus) + whole + fraction + exponent;
      Scan(Src(0, s + tail), f) == Scanned(TReal(s), Src(0, tail))
  {
    hide Digits, Scan, NumberOf;
    WholeIsDigits(whole);
    L.ScanRealParts(minus, NumberOf(whole), fraction, exponent, tail, f);
  }

  // ---- Documents ----

  predicate Admitted(d: Doc, f: LoadFlags)
    requires IsDoc(d)
  {
    Within(d, f.intAsReal, f.allowNul, f.rejectDuplicates)
  }

  /** The flags with NUL allowed in strings, which tokens may have. */
  function WithNul(f: LoadFlags): LoadFlags {
    f.(allowNul := true)
  }

  predicate ItemsAdmitted(items: seq<Item>, f: LoadFlags)
    requires AreItems(items)
  {
    ItemsWithin(items, f.intAsReal, f.allowNul, f.rejectDuplicates)
  }

  predicate MembersAdmitted(keys: set<Text>, members: seq<Member>, f: LoadFlags)
    requires AreMembers(members)
  {
    MembersWithin(keys, members, f.intAsReal, f.allowNul, f.rejectDuplicates)
  }

  /** What parsing something gives. */
  function Outcome(admitted: bool, levels: int, v: Json, tail: Text): Parsed {
    if levels <= 2048 && admitted then Done(v, Src(0, tail)) else Fail
  }

  function DocAnd(d: Doc, tail: Text): Text
    requires IsDoc(d)
  {
    DocText(d) + tail
  }

  function ItemsAnd(items: seq<Item>, tail: Text): Text
    requires AreItems(items)
  {
    ItemsText(items) + [0x5D] + tail
  }

  function MembersAnd(members: seq<Member>, tail: Text): Text
    requires AreMembers(members)
  {
    MembersText(members) + [0x7D] + tail
  }

  /** What stands behind the first of some elements. */
  function BehindItem(items: seq<Item>, tail: Text): Text
    requires AreItems(items) && items != []
  {
    items[0].after + (Comma(|items| == 1) + ItemsAnd(items[1..], tail))
  }

  function BehindMember(members: seq<Member>, tail: Text): Text
    requires AreMembers(members) && members != []
  {
    members[0].value.after + (Comma(|members| == 1) + MembersAnd(members[1..], tail))
  }

  /** What stands behind a key. */
  function BehindKey(m: Member, behind: Text): Text
    requires IsMember(m) && IsDoc(m.value.doc)
  {
    m.colon + ([0x3A] + (m.value.before + DocAnd(m.value.doc, behind)))
  }

  /** The text of a document, in front of something that ends it, parses to its value or is refused. */
  ghost predicate DocParses(d: Doc, tail: Text, depth: nat, f: LoadFlags)
    requires IsDoc(d)
  {
    var t := Scan(Src(0, DocAnd(d, tail)), f);
    && t.token != TEof && (t.token.TPunct? <==> IsContainer(d)) && (t.token.TPunct? ==> t.token.c == 0x5B || t.token.c == 0x7B)
    && ParseValue(t.token, t.src, depth, f) == Outcome(Admitted(d, f), depth + Levels(d), DocValue(d, f.intAsReal), tail)
  }

  ghost predicate ItemsParse(items: seq<Item>, acc: seq<Json>, tail: Text, depth: nat, f: LoadFlags)
    requires AreItems(items)
  {
    var t := Scan(Src(0, ItemsAnd(items, tail)), f);
    && t.token != TEof && t.token != TPunct(0x5D)
    && ParseElements(t.token, t.src, acc, depth, f) ==
      Outcome(ItemsAdmitted(items, f), depth + ItemsLevels(items), Array(acc + ItemsValue(items, f.intAsReal)), tail)
  }

  ghost function KeysOf(fields: seq<Assoc.Pair<Json>>): set<Text> {
    set i | 0 <= i < |fields| :: fields[i].key
  }

  ghost predicate MembersParse(members: seq<Member>, acc: seq<Assoc.Pair<Json>>, tail: Text, depth: nat, f: LoadFlags)
    requires AreMembers(members) && members != []
  {
    var t := Scan(Src(0, MembersAnd(members, tail)), f);
    && t.token == TString(PiecesValue(members[0].key))
    && ParseMembers(PiecesValue(members[0].key), t.src, acc, depth, f) ==
      Outcome(MembersAdmitted(KeysOf(acc), members, f), depth + MembersLevels(members),
              Object(MembersValue(acc, members, f.intAsReal)), tail)
  }

  lemma BlankIsSpace(s: Text)
    requires Blank(s)
    ensures L.AllSpace(s)
  {
  }

  lemma ScanBehindBlank(space: Text, s: Text, f: LoadFlags)
    requires Blank(space)
    ensures Scan(Src(0, space + s), f) == Scan(Src(0, s), f)
  {
    BlankIsSpace(space);
    L.ScanAfterSpace(space, s, f);
  }

  /** What stands behind an element ends it. */
  lemma BehindElement(after: Text, s: Text)
    requires Blank(after) && s != [] && s[0] in {0x2C, 0x5D, 0x7D}
    ensures L.IsDelimited(after + s)
  {
    if after != [] {
      assert (after + s)[0] == after[0];
    }
  }

  lemma {:induction false} LeafParses(d: Doc, tail: Text, depth: nat, f: LoadFlags)
    requires IsDoc(d) && !IsContainer(d) && L.IsDelimited(tail)
    ensures DocParses(d, tail, depth, f)
  {
    hide Scan, NumberOf, PiecesValue, PiecesText;
    match d
    case NullDoc => L.ScanWord(NULL_TEXT, tail, f);
    case TrueDoc => L.ScanWord(TRUE_TEXT, tail, f);
    case FalseDoc => L.ScanWord(FALSE_TEXT, tail, f);
    case IntegerDoc(minus, whole) =>
      if f.intAsReal {
        RealScans(minus, whole, [], [], tail, f);
        assert Sign(minus) + whole + [] + [] == Sign(minus) + whole;
      } else {
        IntegerScans(minus, whole, tail, f);
      }
    case RealDoc(minus, whole, fraction, exponent) => RealScans(minus, whole, fraction, exponent, tail, f);
    case StringDoc(pieces) => QuotedScans(pieces, tail, f);
  }

  lemma {:induction false} DocLoads(d: Doc, tail: Text, depth: nat, f: LoadFlags)
    requires IsDoc(d) && L.IsDelimited(tail)
    ensures DocParses(d, tail, depth, f)
    decreases d, 0
  {
    hide DocParses, ItemsParse, MembersParse;
    match d
    case ArrayDoc(inner, items) =>
      if items == [] {
        EmptyArrayLoads(inner, tail, depth, f);
      } else {
        ItemsLoad(items, [], tail, depth + 1, f);
        ArrayLoads(inner, items, tail, depth, f);
      }
    case ObjectDoc(inner, members) =>
      if members == [] {
        EmptyObjectLoads(inner, tail, depth, f);
      } else {
        MembersLoad(members, [], tail, depth + 1, f);
        ObjectLoads(inner, members, tail, depth, f);
      }
    case _ => LeafParses(d, tail, depth, f);
  }

  lemma EmptyArrayLoads(inner: Text, tail: Text, depth: nat, f: LoadFlags)
    requires Blank(inner)
    ensures DocParses(ArrayDoc(inner, []), tail, depth, f)
  {
    hide Scan;
    assert DocText(ArrayDoc(inner, [])) + tail == [0x5B] + (inner + ([0x5D] + tail));
    L.ScanPunct(0x5B, inner + ([0x5D] + tail), f);
    ScanBehindBlank(inner, [0x5D] + tail, f);
    L.ScanPunct(0x5D, tail, f);
    var items: seq<Item> := [];
    assert ItemsLevels(items) == 0 && ItemsAdmitted(items, f) && ItemsValue(items, f.intAsReal) == [];
    assert ParseArray(Src(0, inner + ([0x5D] + tail)), depth + 1, f) == Done(Array([]), Src(0, tail));
  }

  lemma EmptyObjectLoads(inner: Text, tail: Text, depth: nat, f: LoadFlags)
    requires Blank(inner)
    ensures DocParses(ObjectDoc(inner, []), tail, depth, f)
  {
    hide Scan;
    assert DocText(ObjectDoc(inner, [])) + tail == [0x7B] + (inner + ([0x7D] + tail));
    L.ScanPunct(0x7B, inner + ([0x7D] + tail), f);
    ScanBehindBlank(inner, [0x7D] + tail, f);
    L.ScanPunct(0x7D, tail, f);
    var members: seq<Member> := [];
    assert MembersLevels(members) == 0 && MembersAdmitted({}, members, f) && MembersValue([], members, f.intAsReal) == [];
    assert ParseObject(Src(0, inner + ([0x7D] + tail)), depth + 1, f) == Done(Object([]), Src(0, tail));
  }

  lemma {:induction false} ArrayLoads(inner: Text, items: seq<Item>, tail: Text, depth: nat, f: LoadFlags)
    requires IsDoc(ArrayDoc(inner, items)) && items != [] && ItemsParse(items, [], tail, depth + 1, f)
    ensures DocParses(ArrayDoc(inner, items), tail, depth, f)
  {
    hide Scan, ItemsText, ItemsValue, ItemsLevels, ItemsWithin, ParseElements;
    var s := ItemsText(items) + [0x5D] + tail;
    assert DocText(ArrayDoc(inner, items)) + tail == [0x5B] + s;
    L.ScanPunct(0x5B, s, f);
    assert [] + ItemsValue(items, f.intAsReal) == ItemsValue(items, f.intAsReal);
    InvalidElements(Scan(Src(0, s), f).src, [], depth + 1, f);
    assert ParseArray(Src(0, s), depth + 1, f) ==
      Outcome(ItemsAdmitted(items, f), depth + 1 + ItemsLevels(items), Array(ItemsValue(items, f.intAsReal)), tail);
  }

  lemma InvalidElements(s: Src, acc: seq<Json>, depth: nat, f: LoadFlags)
    ensures ParseElements(TInvalid, s, acc, depth, f) == Fail
  {
    hide Scan, ParseArray, ParseObject;
  }

  lemma {:induction false} ObjectLoads(inner: Text, members: seq<Member>, tail: Text, depth: nat, f: LoadFlags)
    requires IsDoc(ObjectDoc(inner, members)) && members != [] && MembersParse(members, [], tail, depth + 1, f)
    ensures DocParses(ObjectDoc(inner, members), tail, depth, f)
  {
    hide Scan, MembersText, MembersValue, MembersLevels, MembersWithin, ParseMembers, PiecesValue;
    var s := MembersText(members) + [0x7D] + tail;
    assert DocText(ObjectDoc(inner, members)) + tail == [0x7B] + s;
    L.ScanPunct(0x7B, s, f);
    assert KeysOf([]) == {};
    assert ParseObject(Src(0, s), depth + 1, f) ==
      Outcome(MembersAdmitted({}, members, f), depth + 1 + MembersLevels(members), Object(MembersValue([], members, f.intAsReal)), tail);
  }

  lemma {:induction false} ItemsLoad(items: seq<Item>, acc: seq<Json>, tail: Text, depth: nat, f: LoadFlags)
    requires AreItems(items) && items != []
    ensures ItemsParse(items, acc, tail, depth, f)
    decreases items, 1
  {
    hide DocParses, ItemsParse, BehindItem;
    var item, rest := items[0], items[1..];
    BehindItemEnds(items, tail);
    DocLoads(item.doc, BehindItem(items, tail), depth, f);
    if rest != [] {
      ItemsLoad(rest, acc + [DocValue(item.doc, f.intAsReal)], tail, depth, f);
    }
    ItemThen(items, acc, tail, depth, f);
  }

  lemma BehindItemEnds(items: seq<Item>, tail: Text)
    requires AreItems(items) && items != []
    ensures L.IsDelimited(BehindItem(items, tail))
  {
    hide DocText;
    BehindElement(items[0].after, Comma(|items| == 1) + ItemsAnd(items[1..], tail));
  }

  /** What some elements are, by the first of them. */
  lemma {:induction false} ItemsSplit(items: seq<Item>, f: LoadFlags)
    requires AreItems(items) && items != []
    ensures var item, rest := items[0], items[1..];
      && ItemsValue(items, f.intAsReal) == [DocValue(item.doc, f.intAsReal)] + ItemsValue(rest, f.intAsReal)
      && ItemsLevels(items) == Max(Levels(item.doc), ItemsLevels(rest))
      && (ItemsAdmitted(items, f) <==> Admitted(item.doc, f) && ItemsAdmitted(rest, f))
    ensures |items| == 1 ==>
      ItemsValue(items[1..], f.intAsReal) == [] && ItemsLevels(items[1..]) == 0 && ItemsAdmitted(items[1..], f)
  {
    hide DocText, DocValue, Levels, Within;
  }

  /** One turn of the loop of parse_array. */
  lemma ElementsTurn(token: Token, s: Src, acc: seq<Json>, depth: nat, f: LoadFlags)
    ensures ParseElements(token, s, acc, depth, f) ==
      var p := ParseValue(token, s, depth, f);
      if p.Fail? then Fail
      else
        var t := Scan(p.src, f);
        if t.token == TPunct(0x5D) then Done(Array(acc + [p.value]), t.src)
        else if t.token != TPunct(0x2C) then Fail
        else
          var u := Scan(t.src, f);
          if u.token == TEof then Fail else ParseElements(u.token, u.src, acc + [p.value], depth, f)
  {
    hide Scan, ParseValue;
    var p := ParseValue(token, s, depth, f);
    if p.Done? {
      InvalidElements(Scan(Scan(p.src, f).src, f).src, acc + [p.value], depth, f);
    }
  }

  /** What a turn of the loop makes of an element and of what the rest parses to. */
  lemma TurnOfItem(t: Scanned, acc: seq<Json>, depth: nat, f: LoadFlags, admitted: bool, levels: nat, v: Json, behind: Text,
                   more: Option<Text>, moreAdmitted: bool, moreLevels: nat, values: seq<Json>, tail: Text)
    requires ParseValue(t.token, t.src, depth, f) == Outcome(admitted, depth + levels, v, behind)
    requires more == None ==> Scan(Src(0, behind), f) == Scanned(TPunct(0x5D), Src(0, tail)) && moreAdmitted && moreLevels == 0 && values == []
    requires more.Some? ==>
      && Scan(Src(0, behind), f) == Scanned(TPunct(0x2C), Src(0, more.value))
      && Scan(Src(0, more.value), f).token != TEof
      && ParseElements(Scan(Src(0, more.value), f).token, Scan(Src(0, more.value), f).src, acc + [v], depth, f) ==
        Outcome(moreAdmitted, depth + moreLevels, Array(acc + [v] + values), tail)
    ensures ParseElements(t.token, t.src, acc, depth, f) ==
      Outcome(admitted && moreAdmitted, depth + Max(levels, moreLevels), Array(acc + ([v] + values)), tail)
  {
    hide Scan, ParseValue, ParseElements;
    ElementsTurn(t.token, t.src, acc, depth, f);
    assert acc + [v] + values == acc + ([v] + values);
    assert [v] + [] == [v];
  }

  lemma {:induction false} ItemScans(items: seq<Item>, tail: Text, f: LoadFlags)
    requires AreItems(items) && items != []
    ensures Scan(Src(0, ItemsAnd(items, tail)), f) == Scan(Src(0, DocAnd(items[0].doc, BehindItem(items, tail))), f)
  {
    hide Scan, DocText, Comma;
    var item := items[0];
    assert ItemsText(items) == item.before + DocText(item.doc) + item.after + Comma(|items| == 1) + ItemsText(items[1..]);
    hide ItemsText;
    Associate(item.before, DocText(item.doc), item.after, Comma(|items| == 1), ItemsText(items[1..]), [0x5D], tail);
    ScanBehindBlank(item.before, DocAnd(item.doc, BehindItem(items, tail)), f);
  }

  lemma BehindItemScans(items: seq<Item>, tail: Text, f: LoadFlags)
    requires AreItems(items) && items != []
    ensures Scan(Src(0, BehindItem(items, tail)), f) ==
      if |items| == 1 then Scanned(TPunct(0x5D), Src(0, tail)) else Scanned(TPunct(0x2C), Src(0, ItemsAnd(items[1..], tail)))
  {
    hide Scan;
    var more := ItemsAnd(items[1..], tail);
    ScanBehindBlank(items[0].after, Comma(|items| == 1) + more, f);
    if |items| == 1 {
      assert ItemsText(items[1..]) == [];
      assert Comma(true) + more == [0x5D] + tail;
      L.ScanPunct(0x5D, tail, f);
    } else {
      hide ItemsAnd;
      L.ScanPunct(0x2C, more, f);
    }
  }

  /** One element, and those after it. */
  lemma {:induction false} ItemThen(items: seq<Item>, acc: seq<Json>, tail: Text, depth: nat, f: LoadFlags)
    requires AreItems(items) && items != [] && DocParses(items[0].doc, BehindItem(items, tail), depth, f)
    requires |items| > 1 ==> ItemsParse(items[1..], acc + [DocValue(items[0].doc, f.intAsReal)], tail, depth, f)
    ensures ItemsParse(items, acc, tail, depth, f)
  {
    hide Scan, DocText, DocValue, Admitted, Levels, ParseValue, ParseElements, ItemsText, ItemsValue, ItemsLevels, ItemsAdmitted, Outcome;
    hide DocAnd, ItemsAnd, BehindItem;
    assert IsDoc(items[0].doc) && AreItems(items[1..]);
    hide IsDoc, AreItems;
    ItemsSplit(items, f);
    ItemScans(items, tail, f);
    BehindItemScans(items, tail, f);
    var item, rest := items[0], items[1..];
    TurnOfItem(Scan(Src(0, DocAnd(item.doc, BehindItem(items, tail))), f), acc, depth, f, Admitted(item.doc, f), Levels(item.doc),
      DocValue(item.doc, f.intAsReal), BehindItem(items, tail), if |items| == 1 then None else Some(ItemsAnd(rest, tail)),
      ItemsAdmitted(rest, f), ItemsLevels(rest), ItemsValue(rest, f.intAsReal), tail);
  }

  lemma Associate(a: Text, b: Text, c: Text, d: Text, e: Text, x: Text, y: Text)
    ensures a + b + c + d + e + x + y == a + (b + (c + (d + (e + x + y))))
  {
  }

  lemma {:induction false} MembersLoad(members: seq<Member>, acc: seq<Assoc.Pair<Json>>, tail: Text, depth: nat, f: LoadFlags)
    requires AreMembers(members) && members != []
    ensures MembersParse(members, acc, tail, depth, f)
    decreases members, 1
  {
    hide DocParses, MembersParse, BehindMember;
    var m, rest := members[0], members[1..];
    BehindMemberEnds(members, tail);
    DocLoads(m.value.doc, BehindMember(members, tail), depth, f);
    if rest != [] {
      MembersLoad(rest, Assoc.Put(acc, PiecesValue(m.key), DocValue(m.value.doc, f.intAsReal)), tail, depth, f);
    }
    MemberThen(members, acc, tail, depth, f);
  }

  lemma BehindMemberEnds(members: seq<Member>, tail: Text)
    requires AreMembers(members) && members != []
    ensures L.IsDelimited(BehindMember(members, tail))
  {
    hide DocText, Quoted;
    BehindElement(members[0].value.after, Comma(|members| == 1) + MembersAnd(members[1..], tail));
  }

  lemma KeysAfterPut(fields: seq<Assoc.Pair<Json>>, key: Text, v: Json)
    ensures KeysOf(Assoc.Put(fields, key, v)) == KeysOf(fields) + {key}
    ensures Assoc.Get(fields, key).Some? <==> key in KeysOf(fields)
  {
    var at, put := Assoc.Find(fields, key), Assoc.Put(fields, key, v);
    assert put[at].key == key;
    forall i | 0 <= i < |fields| ensures put[i].key == fields[i].key {
    }
    forall k | k in KeysOf(put) ensures k in KeysOf(fields) + {key} {
      var i :| 0 <= i < |put| && put[i].key == k;
      if i < |fields| {
        assert fields[i].key == k;
      }
    }
    forall k | k in KeysOf(fields) ensures k in KeysOf(put) {
      var i :| 0 <= i < |fields| && fields[i].key == k;
      assert put[i].key == k;
    }
  }

  /** The colon and the value behind a key. */
  lemma {:induction false} ColonThen(m: Member, behind: Text, depth: nat, f: LoadFlags)
    requires IsMember(m) && IsDoc(m.value.doc) && DocParses(m.value.doc, behind, depth, f)
    ensures ParseMember(Src(0, BehindKey(m, behind)), depth, f) ==
      Outcome(Admitted(m.value.doc, f), depth + Levels(m.value.doc), DocValue(m.value.doc, f.intAsReal), behind)
  {
    hide Scan, DocAnd, DocValue, Admitted, Levels, ParseValue;
    var value := DocAnd(m.value.doc, behind);
    ScanBehindBlank(m.colon, [0x3A] + (m.value.before + value), f);
    L.ScanPunct(0x3A, m.value.before + value, f);
    ScanBehindBlank(m.value.before, value, f);
  }

  /** What some members are, by the first of them. */
  lemma {:induction false} MembersSplit(members: seq<Member>, acc: seq<Assoc.Pair<Json>>, keys: set<Text>, f: LoadFlags)
    requires AreMembers(members) && members != []
    ensures var m, rest, key := members[0], members[1..], PiecesValue(members[0].key);
      var v := DocValue(m.value.doc, f.intAsReal);
      && MembersValue(acc, members, f.intAsReal) == MembersValue(Assoc.Put(acc, key, v), rest, f.intAsReal)
      && MembersLevels(members) == Max(Levels(m.value.doc), MembersLevels(rest))
      && (MembersAdmitted(keys, members, f) <==>
          NulFree(key) && (f.rejectDuplicates ==> key !in keys) && Admitted(m.value.doc, f) && MembersAdmitted(keys + {key}, rest, f))
    ensures |members| == 1 ==> forall fields, ks :: MembersEnd(fields, ks, members[1..], f)
  {
    hide DocText, DocValue, Levels, Within, PiecesValue, Quoted, Assoc.Put;
  }

  ghost predicate MembersEnd(fields: seq<Assoc.Pair<Json>>, keys: set<Text>, members: seq<Member>, f: LoadFlags)
    requires AreMembers(members)
  {
    MembersValue(fields, members, f.intAsReal) == fields && MembersLevels(members) == 0 && MembersAdmitted(keys, members, f)
  }

  lemma Behind(a: Text, b: Text, c: Text, d: Text, e: Text, x: Text)
    ensures a + b + c + d + e + x == a + (b + (c + (d + (e + x))))
  {
  }

  lemma {:induction false} MemberText(members: seq<Member>, tail: Text, f: LoadFlags)
    requires AreMembers(members) && members != []
    ensures var m := members[0];
      MembersAnd(members, tail) == m.before + (Quoted(m.key) + BehindKey(m, BehindMember(members, tail)))
  {
    hide DocText, Quoted, Comma;
    var m, rest := members[0], members[1..];
    assert MembersText(members) == m.before + Quoted(m.key) + m.colon + [0x3A] + m.value.before + DocText(m.value.doc) +
      m.value.after + Comma(|members| == 1) + MembersText(rest);
    hide MembersText;
    Associate(m.before + Quoted(m.key) + m.colon + [0x3A] + m.value.before, DocText(m.value.doc), m.value.after,
      Comma(|members| == 1), MembersText(rest), [0x7D], tail);
    Behind(m.before, Quoted(m.key), m.colon, [0x3A], m.value.before, DocAnd(m.value.doc, BehindMember(members, tail)));
  }

  lemma {:induction false} KeyScans(members: seq<Member>, tail: Text, f: LoadFlags)
    requires AreMembers(members) && members != []
    ensures Scan(Src(0, MembersAnd(members, tail)), f) ==
      Scanned(TString(PiecesValue(members[0].key)), Src(0, BehindKey(members[0], BehindMember(members, tail))))
  {
    hide Scan, Quoted, PiecesValue, MembersAnd, BehindKey, BehindMember;
    var m := members[0];
    var behind := BehindKey(m, BehindMember(members, tail));
    MemberText(members, tail, f);
    ScanBehindBlank(m.before, Quoted(m.key) + behind, f);
    QuotedScans(m.key, behind, f);
  }

  lemma BehindMemberScans(members: seq<Member>, tail: Text, f: LoadFlags)
    requires AreMembers(members) && members != []
    ensures Scan(Src(0, BehindMember(members, tail)), f) ==
      if |members| == 1 then Scanned(TPunct(0x7D), Src(0, tail)) else Scanned(TPunct(0x2C), Src(0, MembersAnd(members[1..], tail)))
  {
    hide Scan;
    var more := MembersAnd(members[1..], tail);
    ScanBehindBlank(members[0].value.after, Comma(|members| == 1) + more, f);
    if |members| == 1 {
      assert MembersText(members[1..]) == [];
      assert Comma(true) + more == [0x7D] + tail;
      L.ScanPunct(0x7D, tail, f);
    } else {
      hide MembersAnd;
      L.ScanPunct(0x2C, more, f);
    }
  }

  /** One turn of the loop of parse_object. */
  lemma MembersTurn(key: Text, s: Src, acc: seq<Assoc.Pair<Json>>, depth: nat, f: LoadFlags)
    ensures ParseMembers(key, s, acc, depth, f) ==
      if !NulFree(key) || (f.rejectDuplicates && key in KeysOf(acc)) then Fail
      else
        var p := ParseMember(s, depth, f);
        if p.Fail? then Fail
        else
          var u := Scan(p.src, f);
          if u.token == TPunct(0x7D) then Done(Object(Assoc.Put(acc, key, p.value)), u.src)
          else if u.token != TPunct(0x2C) then Fail
          else
            var w := Scan(u.src, f);
            if !w.token.TString? then Fail else ParseMembers(w.token.text, w.src, Assoc.Put(acc, key, p.value), depth, f)
  {
    hide Scan, ParseMember, Assoc.Put, Assoc.Get, KeysOf, NulFree;
    KeysAfterPut(acc, key, Null);
  }

  /** What a turn of the loop makes of a member and of what the rest parses to. */
  lemma TurnOfMember(key: Text, s: Src, acc: seq<Assoc.Pair<Json>>, depth: nat, f: LoadFlags, admitted: bool, levels: nat, v: Json,
                     behind: Text, more: Option<Text>, next: Text, moreAdmitted: bool, moreLevels: nat, all: Json, tail: Text)
    requires ParseMember(s, depth, f) == Outcome(admitted, depth + levels, v, behind)
    requires more == None ==>
      && Scan(Src(0, behind), f) == Scanned(TPunct(0x7D), Src(0, tail)) && moreAdmitted && moreLevels == 0
      && all == Object(Assoc.Put(acc, key, v))
    requires more.Some? ==>
      && Scan(Src(0, behind), f) == Scanned(TPunct(0x2C), Src(0, more.value))
      && Scan(Src(0, more.value), f).token == TString(next)
      && ParseMembers(next, Scan(Src(0, more.value), f).src, Assoc.Put(acc, key, v), depth, f) ==
        Outcome(moreAdmitted, depth + moreLevels, all, tail)
    ensures ParseMembers(key, s, acc, depth, f) ==
      Outcome(NulFree(key) && (f.rejectDuplicates ==> key !in KeysOf(acc)) && admitted && moreAdmitted,
              depth + Max(levels, moreLevels), all, tail)
  {
    hide Scan, ParseMember, ParseMembers, KeysOf, NulFree, Assoc.Put;
    MembersTurn(key, s, acc, depth, f);
  }

  /** One member, and those after it. */
  lemma {:induction false} MemberThen(members: seq<Member>, acc: seq<Assoc.Pair<Json>>, tail: Text, depth: nat, f: LoadFlags)
    requires AreMembers(members) && members != [] && DocParses(members[0].value.doc, BehindMember(members, tail), depth, f)
    requires |members| > 1 ==>
      MembersParse(members[1..], Assoc.Put(acc, PiecesValue(members[0].key), DocValue(members[0].value.doc, f.intAsReal)), tail, depth, f)
    ensures MembersParse(members, acc, tail, depth, f)
  {
    hide Scan, DocValue, DocParses, Admitted, Levels, ParseMember, PiecesValue, Assoc.Get, Assoc.Put, KeysOf, NulFree;
    hide MembersText, MembersValue, MembersLevels, MembersAdmitted, ParseMembers, Outcome, MembersAnd, BehindMember, BehindKey;
    assert IsDoc(members[0].value.doc) && AreMembers(members[1..]) && IsMember(members[0]);
    assert |members| > 1 ==> IsMember(members[1..][0]);
    hide IsDoc, AreMembers;
    var m, rest := members[0], members[1..];
    var key, v, behind := PiecesValue(m.key), DocValue(m.value.doc, f.intAsReal), BehindMember(members, tail);
    MembersSplit(members, acc, KeysOf(acc), f);
    assert |members| == 1 ==> MembersEnd(Assoc.Put(acc, key, v), KeysOf(acc) + {key}, rest, f);
    KeyScans(members, tail, f);
    ColonThen(m, behind, depth, f);
    KeysAfterPut(acc, key, v);
    BehindMemberScans(members, tail, f);
    TurnOfMember(key, Src(0, BehindKey(m, behind)), acc, depth, f, Admitted(m.value.doc, f), Levels(m.value.doc), v, behind,
      if |members| == 1 then None else Some(MembersAnd(rest, tail)), if |members| == 1 then [] else PiecesValue(rest[0].key),
      MembersAdmitted(KeysOf(acc) + {key}, rest, f), MembersLevels(rest),
      Object(MembersValue(Assoc.Put(acc, key, v), rest, f.intAsReal)), tail);
  }

  // ---- Whole texts ----

  /**
   Every text of a document, with any white space around it, loads to the value that it spells, if and only if
   it is within the limits and, unless any value may be decoded, is an array or an object.
   */
  lemma {:induction false} SpellingLoads(before: Text, d: Doc, after: Text, f: LoadFlags)
    requires Blank(before) && IsDoc(d) && Blank(after)
    ensures ParseJson(before + DocText(d) + after, f) ==
      if Within(d, f.intAsReal, f.allowNul, f.rejectDuplicates) && Levels(d) <= 2048 && (IsContainer(d) || f.decodeAny)
      then Some(DocValue(d, f.intAsReal)) else None
  {
    hide Scan, DocText, DocValue, Within, Levels, ParseValue;
    assert before + DocText(d) + after == before + (DocText(d) + after);
    ScanBehindBlank(before, DocText(d) + after, f);
    DocLoads(d, after, 0, f);
    assert DocAnd(d, after) == DocText(d) + after;
    EndBehindBlank(after, f);
  }

  lemma EndBehindBlank(after: Text, f: LoadFlags)
    requires Blank(after)
    ensures Scan(Src(0, after), f).token == TEof && L.IsDelimited(after)
  {
    ScanBehindBlank(after, [], f);
    assert after + [] == after;
  }
}
