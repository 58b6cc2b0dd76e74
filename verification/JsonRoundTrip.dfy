/**
 Loading a dumped value gives the value back, whatever the flags: the law that jansson's
 printer and parser are there for (sections 2 to 7 of RFC 8259).
 */
module JsonRoundTrip {
  import opened Bytes
  import opened Assoc
  import opened JsonValue
  import opened JsonDump
  import opened JsonLoad
  import opened JsonLiterals
  import Utf8

  /** What the loader makes of a value that it does not refuse: with the flag, integers are read as reals. */
  function AsRead(v: Json, f: LoadFlags): Json {
    match v
    case Integer(i) => if f.intAsReal then Real(Decimal(i)) else v
    case Array(items) => Array(ItemsAsRead(items, f))
    case Object(fields) => Object(FieldsAsRead(fields, f))
    case _ => v
  }

  function ItemsAsRead(items: seq<Json>, f: LoadFlags): seq<Json> {
    if items == [] then [] else [AsRead(items[0], f)] + ItemsAsRead(items[1..], f)
  }

  function FieldsAsRead(fields: seq<Pair<Json>>, f: LoadFlags): (r: seq<Pair<Json>>)
    ensures |r| == |fields| && forall i :: 0 <= i < |r| ==> r[i].key == fields[i].key
  {
    if fields == [] then [] else [FieldAsRead(fields[0], f)] + FieldsAsRead(fields[1..], f)
  }

  function FieldAsRead(field: Pair<Json>, f: LoadFlags): Pair<Json> {
    Pair(field.key, AsRead(field.value, f))
  }

  /** Without integers, or without the flag, a value is read as it is, and not otherwise. */
  lemma {:induction false} AsReadIsSame(v: Json, f: LoadFlags)
    ensures AsRead(v, f) == v <==> (f.intAsReal ==> !HasInteger(v))
    decreases v, 0
  {
    match v
    case Array(items) => ItemsAreSame(items, f);
    case Object(fields) => FieldsAreSame(fields, f);
    case _ =>
  }

  lemma {:induction false} ItemsAreSame(items: seq<Json>, f: LoadFlags)
    ensures ItemsAsRead(items, f) == items <==> (f.intAsReal ==> !ItemsHaveInteger(items))
    decreases items, 1
  {
    if items != [] {
      AsReadIsSame(items[0], f);
      ItemsAreSame(items[1..], f);
      assert items == [items[0]] + items[1..];
      var r := ItemsAsRead(items, f);
      assert r[0] == AsRead(items[0], f) && r[1..] == ItemsAsRead(items[1..], f);
    }
  }

  lemma {:induction false} FieldsAreSame(fields: seq<Pair<Json>>, f: LoadFlags)
    ensures FieldsAsRead(fields, f) == fields <==> (f.intAsReal ==> !FieldsHaveInteger(fields))
    decreases fields, 1
  {
    if fields != [] {
      AsReadIsSame(fields[0].value, f);
      FieldsAreSame(fields[1..], f);
      assert fields == [fields[0]] + fields[1..];
      var r := FieldsAsRead(fields, f);
      assert r[0] == FieldAsRead(fields[0], f) && r[1..] == FieldsAsRead(fields[1..], f);
    }
  }

  /** Whether the loader lets a value's strings pass: NUL only with its flag. */
  predicate Admitted(v: Json, f: LoadFlags) {
    f.allowNul || StringsNulFree(v)
  }

  lemma IndentIsSpace(f: DumpFlags, depth: nat, space: bool)
    ensures AllSpace(IndentText(f, depth, space))
  {
  }

  /** What follows an element starts with a delimiter, or is followed by one. */
  lemma AfterDelimited(f: DumpFlags, depth: nat, last: bool, s: Text)
    requires last ==> s != [] && IsDelimited(s)
    ensures IsDelimited(AfterElement(f, depth, last) + s)
  {
  }

  /** What parsing a value gives at some nesting depth, if its strings may pass. */
  function Outcome(v: Json, src: Src, depth: nat, height: nat, admitted: bool): Parsed {
    if depth + height <= MAX_DEPTH && admitted then Done(v, src) else Fail
  }

  /** A token that starts a value, a container or not. */
  predicate Starts(token: Token, container: bool) {
    token != TInvalid && token != TEof &&
    (container <==> token.TPunct?) && (container ==> token.c == LBRACE || token.c == LBRACKET)
  }

  /** The text of a value, in front of a delimiter, scans and parses back to the value as it is read. */
  ghost predicate ParsesBack(v: Json, text: Text, tail: Text, depth: nat, f: LoadFlags) {
    var t := Scan(Src(0, text + tail), f);
    Starts(t.token, v.IsContainer()) &&
    ParseValue(t.token, t.src, depth, f) == Outcome(AsRead(v, f), Src(0, tail), depth, Height(v), Admitted(v, f))
  }

  lemma ScalarRoundTrip(v: Json, df: DumpFlags, dumpDepth: nat, depth: nat, f: LoadFlags, tail: Text)
    requires !v.IsContainer() && WellFormed(v) && IsDelimited(tail)
    ensures DumpTree(v, df, dumpDepth, false).Some?
    ensures ParsesBack(v, DumpTree(v, df, dumpDepth, false).value, tail, depth, f)
  {
    hide Scan, StringText, Decimal, IsRealNumeral;
    match v
    case Null => ScanWord(NULL_TEXT, tail, f);
    case True => ScanWord(TRUE_TEXT, tail, f);
    case False => ScanWord(FALSE_TEXT, tail, f);
    case Integer(i) =>
      if f.intAsReal {
        ScanDecimalAsReal(i, tail, f);
      } else {
        ScanDecimal(i, tail, f);
      }
    case Real(s) => ScanRealNumeral(s, tail, f);
    case String(s) => ScanStringText(s, df, tail, f);
  }

  lemma {:induction false} ValueRoundTrip(v: Json, df: DumpFlags, dumpDepth: nat, depth: nat, f: LoadFlags, tail: Text)
    requires WellFormed(v) && IsDelimited(tail)
    ensures DumpTree(v, df, dumpDepth, false).Some?
    ensures ParsesBack(v, DumpTree(v, df, dumpDepth, false).value, tail, depth, f)
    decreases v, 0
  {
    hide ParsesBack, ElementsParseBack, MembersParseBack, FieldsAsRead, Unique;
    match v
    case Array(items) =>
      if items == [] {
        EmptyContainer(LBRACKET, RBRACKET, depth, f, tail);
      } else {
        ElementsRoundTrip(items, [], df, dumpDepth, depth + 1, f, tail);
        ArrayRoundTrip(items, df, dumpDepth, depth, f, tail);
      }
    case Object(fields) =>
      if fields == [] {
        EmptyContainer(LBRACE, RBRACE, depth, f, tail);
      } else {
        KeysStayUnique(fields, f);
        MembersRoundTrip(fields, [], df, dumpDepth, depth + 1, f, tail);
        ObjectRoundTrip(fields, df, dumpDepth, depth, f, tail);
      }
    case _ => ScalarRoundTrip(v, df, dumpDepth, depth, f, tail);
  }

  lemma KeysStayUnique(fields: seq<Pair<Json>>, f: LoadFlags)
    requires Unique(fields)
    ensures Unique([] + FieldsAsRead(fields, f))
  {
    assert [] + FieldsAsRead(fields, f) == FieldsAsRead(fields, f);
  }

  lemma EmptyContainer(open: Byte, close: Byte, depth: nat, f: LoadFlags, tail: Text)
    requires (open == LBRACKET && close == RBRACKET) || (open == LBRACE && close == RBRACE)
    ensures ParsesBack(if open == LBRACKET then Array([]) else Object([]), [open] + [close], tail, depth, f)
  {
    hide Scan;
    assert [open] + [close] + tail == [open] + ([close] + tail);
    ScanPunct(open, [close] + tail, f);
    ScanPunct(close, tail, f);
    var v := if open == LBRACKET then Array([]) else Object([]);
    assert Height(v) == 1 && AsRead(v, f) == v && StringsNulFree(v);
    assert (if open == LBRACKET then ParseArray(Src(0, [close] + tail), depth + 1, f)
            else ParseObject(Src(0, [close] + tail), depth + 1, f)) == Done(v, Src(0, tail));
  }

  // ---- Arrays ----

  /** The text of the elements of an array, up to the closing bracket, parses back to them. */
  ghost predicate ElementsParseBack(items: seq<Json>, text: Text, acc: seq<Json>, tail: Text, depth: nat, f: LoadFlags) {
    var t := Scan(Src(0, text + [RBRACKET] + tail), f);
    t.token != TInvalid && t.token != TEof && t.token != TPunct(RBRACKET) &&
    ParseElements(t.token, t.src, acc, depth, f) ==
      Outcome(Array(acc + ItemsAsRead(items, f)), Src(0, tail), depth, HeightItems(items), f.allowNul || ItemsNulFree(items))
  }

  lemma ArrayRoundTrip(items: seq<Json>, df: DumpFlags, dumpDepth: nat, depth: nat, f: LoadFlags, tail: Text)
    requires items != []
    requires DumpItems(items, df, dumpDepth).Some?
    requires ElementsParseBack(items, DumpItems(items, df, dumpDepth).value, [], tail, depth + 1, f)
    ensures ParsesBack(Array(items), DumpTree(Array(items), df, dumpDepth, false).value, tail, depth, f)
  {
    hide Scan, DumpItems, IndentText, ParseElements;
    var inner := DumpItems(items, df, dumpDepth).value;
    var indent := IndentText(df, dumpDepth + 1, false);
    var s := inner + [RBRACKET] + tail;
    assert DumpTree(Array(items), df, dumpDepth, false).value + tail == [LBRACKET] + (indent + s);
    ScanPunct(LBRACKET, indent + s, f);
    IndentIsSpace(df, dumpDepth + 1, false);
    ScanAfterSpace(indent, s, f);
    assert [] + ItemsAsRead(items, f) == ItemsAsRead(items, f);
    assert ParseArray(Src(0, indent + s), depth + 1, f) ==
      Outcome(Array(ItemsAsRead(items, f)), Src(0, tail), depth + 1, HeightItems(items), f.allowNul || ItemsNulFree(items));
  }

  lemma {:induction false} ElementsRoundTrip(items: seq<Json>, acc: seq<Json>, df: DumpFlags, dumpDepth: nat, depth: nat, f: LoadFlags, tail: Text)
    requires items != [] && WellFormedItems(items)
    ensures DumpItems(items, df, dumpDepth).Some?
    ensures ElementsParseBack(items, DumpItems(items, df, dumpDepth).value, acc, tail, depth, f)
    decreases items, 1
  {
    var last := |items| == 1;
    var rest := items[1..];
    if !last {
      ElementsRoundTrip(rest, acc + [AsRead(items[0], f)], df, dumpDepth, depth, f, tail);
    }
    var left := DumpItems(rest, df, dumpDepth).value + [RBRACKET] + tail;
    AfterDelimited(df, dumpDepth, last, left);
    ValueRoundTrip(items[0], df, dumpDepth + 1, depth, f, AfterElement(df, dumpDepth, last) + left);
    ElementsStep(items, acc, df, dumpDepth, depth, f, tail);
  }

  /** What the elements of an array are read as, by the first of them. */
  lemma FirstItem(items: seq<Json>, f: LoadFlags)
    requires items != []
    ensures ItemsAsRead(items, f) == [AsRead(items[0], f)] + ItemsAsRead(items[1..], f)
    ensures HeightItems(items) == Max(Height(items[0]), HeightItems(items[1..]))
    ensures ItemsNulFree(items) <==> StringsNulFree(items[0]) && ItemsNulFree(items[1..])
    ensures ItemsAsRead([], f) == [] && HeightItems([]) == 0 && ItemsNulFree([])
  {
  }

  /** One element parsed, and those after it. */
  lemma ElementsStep(items: seq<Json>, acc: seq<Json>, df: DumpFlags, dumpDepth: nat, depth: nat, f: LoadFlags, tail: Text)
    requires items != []
    requires DumpItems(items[1..], df, dumpDepth).Some? && DumpTree(items[0], df, dumpDepth + 1, false).Some?
    requires var left := DumpItems(items[1..], df, dumpDepth).value + [RBRACKET] + tail;
      ParsesBack(items[0], DumpTree(items[0], df, dumpDepth + 1, false).value,
                 AfterElement(df, dumpDepth, |items| == 1) + left, depth, f)
    requires |items| > 1 ==>
      ElementsParseBack(items[1..], DumpItems(items[1..], df, dumpDepth).value, acc + [AsRead(items[0], f)], tail, depth, f)
    ensures ElementsParseBack(items, DumpItems(items, df, dumpDepth).value, acc, tail, depth, f)
  {
    hide Scan, DumpTree, IndentText, ParseValue, AfterElement, Height, AsRead, ItemsAsRead, HeightItems, ItemsNulFree, StringsNulFree;
    FirstItem(items, f);
    var t0 := DumpTree(items[0], df, dumpDepth + 1, false).value;
    var rest := DumpItems(items[1..], df, dumpDepth).value;
    var after := AfterElement(df, dumpDepth, |items| == 1);
    var left := rest + [RBRACKET] + tail;
    assert DumpItems(items, df, dumpDepth).value + [RBRACKET] + tail == t0 + (after + left);
    AfterScans(df, dumpDepth, |items| == 1, left, f);
    if |items| == 1 {
      assert left == [RBRACKET] + tail;
      ScanPunct(RBRACKET, tail, f);
      assert items[1..] == [] && ItemsAsRead(items, f) == [AsRead(items[0], f)];
    } else {
      assert acc + [AsRead(items[0], f)] + ItemsAsRead(items[1..], f) == acc + ItemsAsRead(items, f);
    }
  }

  /** Scanning on from the end of an element: a comma and the next token, or the closing token. */
  lemma AfterScans(df: DumpFlags, dumpDepth: nat, last: bool, left: Text, f: LoadFlags)
    ensures var s := Scan(Src(0, AfterElement(df, dumpDepth, last) + left), f);
      if last then s == Scan(Src(0, left), f)
      else s.token == TPunct(COMMA) && Scan(s.src, f) == Scan(Src(0, left), f)
  {
    hide Scan, IndentText;
    if last {
      var indent := IndentText(df, dumpDepth, false);
      IndentIsSpace(df, dumpDepth, false);
      ScanAfterSpace(indent, left, f);
    } else {
      var indent := IndentText(df, dumpDepth + 1, true);
      IndentIsSpace(df, dumpDepth + 1, true);
      ScanAfterSpace(indent, left, f);
      assert AfterElement(df, dumpDepth, last) + left == [COMMA] + (indent + left);
      ScanPunct(COMMA, indent + left, f);
    }
  }

  // ---- Objects ----

  /** The text of the fields of an object, up to the closing brace, parses back to them. */
  ghost predicate MembersParseBack(fields: seq<Pair<Json>>, text: Text, acc: seq<Pair<Json>>, tail: Text, depth: nat, f: LoadFlags)
    requires fields != []
  {
    var t := Scan(Src(0, text + [RBRACE] + tail), f);
    t.token == TString(fields[0].key) &&
    ParseMembers(fields[0].key, t.src, acc, depth, f) ==
      Outcome(Object(acc + FieldsAsRead(fields, f)), Src(0, tail), depth, HeightFields(fields), f.allowNul || FieldsNulFree(fields))
  }

  lemma ObjectRoundTrip(fields: seq<Pair<Json>>, df: DumpFlags, dumpDepth: nat, depth: nat, f: LoadFlags, tail: Text)
    requires fields != []
    requires DumpFields(fields, df, dumpDepth).Some?
    requires MembersParseBack(fields, DumpFields(fields, df, dumpDepth).value, [], tail, depth + 1, f)
    ensures ParsesBack(Object(fields), DumpTree(Object(fields), df, dumpDepth, false).value, tail, depth, f)
  {
    hide Scan, DumpFields, IndentText, ParseMembers;
    var inner := DumpFields(fields, df, dumpDepth).value;
    var indent := IndentText(df, dumpDepth + 1, false);
    var s := inner + [RBRACE] + tail;
    assert DumpTree(Object(fields), df, dumpDepth, false).value + tail == [LBRACE] + (indent + s);
    ScanPunct(LBRACE, indent + s, f);
    IndentIsSpace(df, dumpDepth + 1, false);
    ScanAfterSpace(indent, s, f);
    assert [] + FieldsAsRead(fields, f) == FieldsAsRead(fields, f);
    assert ParseObject(Src(0, indent + s), depth + 1, f) ==
      Outcome(Object(FieldsAsRead(fields, f)), Src(0, tail), depth + 1, HeightFields(fields), f.allowNul || FieldsNulFree(fields));
  }

  lemma {:induction false} MembersRoundTrip(fields: seq<Pair<Json>>, acc: seq<Pair<Json>>, df: DumpFlags, dumpDepth: nat, depth: nat, f: LoadFlags, tail: Text)
    requires fields != [] && WellFormedFields(fields) && Unique(acc + FieldsAsRead(fields, f))
    ensures DumpFields(fields, df, dumpDepth).Some?
    ensures MembersParseBack(fields, DumpFields(fields, df, dumpDepth).value, acc, tail, depth, f)
    decreases fields, 1
  {
    var last := |fields| == 1;
    var rest := fields[1..];
    if !last {
      assert acc + [FieldAsRead(fields[0], f)] + FieldsAsRead(rest, f) == acc + FieldsAsRead(fields, f);
      MembersRoundTrip(rest, acc + [FieldAsRead(fields[0], f)], df, dumpDepth, depth, f, tail);
    }
    var left := DumpFields(rest, df, dumpDepth).value + [RBRACE] + tail;
    AfterDelimited(df, dumpDepth, last, left);
    ValueRoundTrip(fields[0].value, df, dumpDepth + 1, depth, f, AfterElement(df, dumpDepth, last) + left);
    MembersStep(fields, acc, df, dumpDepth, depth, f, tail);
  }

  /** What the fields of an object are read as, by the first of them. */
  lemma FirstField(fields: seq<Pair<Json>>, f: LoadFlags)
    requires fields != []
    ensures FieldsAsRead(fields, f) == [FieldAsRead(fields[0], f)] + FieldsAsRead(fields[1..], f)
    ensures HeightFields(fields) == Max(Height(fields[0].value), HeightFields(fields[1..]))
    ensures FieldsNulFree(fields) <==> StringsNulFree(fields[0].value) && FieldsNulFree(fields[1..])
    ensures FieldsAsRead([], f) == [] && HeightFields([]) == 0 && FieldsNulFree([])
  {
  }

  /** The value of a field, behind its key. */
  lemma MemberParses(value: Json, text: Text, df: DumpFlags, depth: nat, f: LoadFlags, tail: Text)
    requires ParsesBack(value, text, tail, depth, f)
    ensures ParseMember(Src(0, SeparatorText(df) + (text + tail)), depth, f) ==
      Outcome(AsRead(value, f), Src(0, tail), depth, Height(value), Admitted(value, f))
  {
    hide Scan, SeparatorText, ParseValue, AsRead, Height, StringsNulFree;
    SeparatorScans(df, text + tail, f);
  }

  /** One field parsed, and those after it. */
  lemma MembersStep(fields: seq<Pair<Json>>, acc: seq<Pair<Json>>, df: DumpFlags, dumpDepth: nat, depth: nat, f: LoadFlags, tail: Text)
    requires fields != [] && Utf8.Valid(fields[0].key) && NulFree(fields[0].key) && Unique(acc + FieldsAsRead(fields, f))
    requires DumpFields(fields[1..], df, dumpDepth).Some? && DumpTree(fields[0].value, df, dumpDepth + 1, false).Some?
    requires var left := DumpFields(fields[1..], df, dumpDepth).value + [RBRACE] + tail;
      ParsesBack(fields[0].value, DumpTree(fields[0].value, df, dumpDepth + 1, false).value,
                 AfterElement(df, dumpDepth, |fields| == 1) + left, depth, f)
    requires |fields| > 1 ==>
      MembersParseBack(fields[1..], DumpFields(fields[1..], df, dumpDepth).value, acc + [FieldAsRead(fields[0], f)], tail, depth, f)
    ensures MembersParseBack(fields, DumpFields(fields, df, dumpDepth).value, acc, tail, depth, f)
  {
    hide Scan, DumpTree, IndentText, ParseValue, AfterElement, StringText, SeparatorText, Height, Put, Assoc.Get;
    hide AsRead, FieldsAsRead, HeightFields, FieldsNulFree, StringsNulFree, ParsesBack, ParseMember;
    FirstField(fields, f);
    var key, value := fields[0].key, fields[0].value;
    var t0 := DumpTree(value, df, dumpDepth + 1, false).value;
    var rest := DumpFields(fields[1..], df, dumpDepth).value;
    var after := AfterElement(df, dumpDepth, |fields| == 1);
    var left := rest + [RBRACE] + tail;
    var afterKey := SeparatorText(df) + (t0 + (after + left));
    Associate(StringText(key, df).text, SeparatorText(df), t0, after, rest, [RBRACE], tail);
    ScanStringText(key, df, afterKey, f);
    MemberParses(value, t0, df, depth, f, after + left);
    NewKey(acc, FieldsAsRead(fields, f));
    AfterScans(df, dumpDepth, |fields| == 1, left, f);
    if |fields| == 1 {
      assert left == [RBRACE] + tail;
      ScanPunct(RBRACE, tail, f);
      assert fields[1..] == [] && FieldsAsRead(fields, f) == [FieldAsRead(fields[0], f)];
    } else {
      assert acc + [FieldAsRead(fields[0], f)] + FieldsAsRead(fields[1..], f) == acc + FieldsAsRead(fields, f);
    }
  }

  lemma Associate(a: Text, b: Text, c: Text, d: Text, e: Text, x: Text, y: Text)
    ensures a + b + c + d + e + x + y == a + (b + (c + (d + (e + x + y))))
  {
  }

  lemma SeparatorScans(df: DumpFlags, s: Text, f: LoadFlags)
    ensures var t := Scan(Src(0, SeparatorText(df) + s), f);
      t.token == TPunct(COLON) && Scan(t.src, f) == Scan(Src(0, s), f)
  {
    hide Scan;
    var space: Text := if df.compact then [] else [SPACE];
    assert SeparatorText(df) + s == [COLON] + (space + s);
    ScanPunct(COLON, space + s, f);
    ScanAfterSpace(space, s, f);
  }

  lemma NewKey(acc: seq<Pair<Json>>, fields: seq<Pair<Json>>)
    requires fields != [] && Unique(acc + fields)
    ensures Assoc.Get(acc, fields[0].key).None?
    ensures Put(acc, fields[0].key, fields[0].value) == acc + [fields[0]]
  {
    assert (acc + fields)[|acc|] == fields[0];
    forall i | 0 <= i < |acc| ensures acc[i].key != fields[0].key {
      assert (acc + fields)[i] == acc[i];
    }
  }

  // ---- Whole texts ----

  /**
   Loading the text of a tree gives back the tree, fields in the order in which they were
   written, if and only if it is not nested too deeply for the parser, is a container unless any
   value may be decoded, and has no NUL in its strings unless they may have it. With the flag
   for it, integers come back as reals.
   */
  lemma TreeRoundTrip(v: Json, df: DumpFlags, f: LoadFlags)
    requires WellFormed(v)
    ensures DumpTree(v, df, 0, false).Some?
    ensures ParseJson(DumpTree(v, df, 0, false).value, f) ==
      if Height(v) <= MAX_DEPTH && (v.IsContainer() || f.decodeAny) && (f.allowNul || StringsNulFree(v)) then Some(AsRead(v, f))
      else None
  {
    hide Scan, ParseValue, DumpTree;
    ValueRoundTrip(v, df, 0, 0, f, []);
    var text := DumpTree(v, df, 0, false).value;
    assert text + [] == text;
    ScanEnd(f);
  }

  lemma ScanEnd(f: LoadFlags)
    ensures Scan(Src(0, []), f).token == TEof
  {
  }
}
