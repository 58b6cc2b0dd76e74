/**
 The printer of jansson/dump.c.

 Values being dumped are nodes of a graph in memory: containers may be shared and may even
 contain themselves. `Unfold` gives the tree a node stands for, if there is one, and
 `DumpTree` gives the text of a tree. The class `Dumper` is the printer itself.
 */
module JsonDump {
  import opened Bytes
  import opened Assoc
  import opened JsonValue
  import Utf8

  /** The JSON_* encoding flags. */
  datatype DumpFlags = DumpFlags(
    indent: nat, compact: bool, ensureAscii: bool, sortKeys: bool,
    encodeAny: bool, escapeSlash: bool, embed: bool)

  // ---- Strings ----

  /** One digit of "%04X". */
  function HexDigit(n: nat): (c: Byte)
    requires n < 16
  {
    if n < 10 then '0' as int + n else 'A' as int + (n - 10)
  }

  /** "\\u%04X" */
  function UnicodeEscape(n: nat): (s: Text)
    requires n < 0x10000
    ensures |s| == 6
  {
    [BACKSLASH, 'u' as int, HexDigit(n / 4096), HexDigit(n / 256 % 16), HexDigit(n / 16 % 16), HexDigit(n % 16)]
  }

  predicate NeedsEscape(cp: int, f: DumpFlags) {
    cp == BACKSLASH || cp == QUOTE || cp < 0x20 || (f.escapeSlash && cp == SLASH) || (f.ensureAscii && cp > 0x7F)
  }

  /** The escape sequence of a code point. */
  function EscapeText(cp: int): (s: Text)
    requires 0 <= cp <= 0x10FFFF
    ensures |s| >= 2
  {
    if cp == BACKSLASH then [BACKSLASH, BACKSLASH]
    else if cp == QUOTE then [BACKSLASH, QUOTE]
    else if cp == 8 then [BACKSLASH, 'b' as int]
    else if cp == 12 then [BACKSLASH, 'f' as int]
    else if cp == 10 then [BACKSLASH, 'n' as int]
    else if cp == 13 then [BACKSLASH, 'r' as int]
    else if cp == 9 then [BACKSLASH, 't' as int]
    else if cp == SLASH then [BACKSLASH, SLASH]
    else if cp < 0x10000 then UnicodeEscape(cp)
    else UnicodeEscape(0xD800 + (cp - 0x10000) / 1024) + UnicodeEscape(0xDC00 + (cp - 0x10000) % 1024)
  }

  /** What a print function wrote, and whether it succeeded. */
  datatype Written = Written(ok: bool, text: Text)

  /**
   The rest of a string literal, closing quote included. `run` holds the characters that were
   read and need no escape but are not written yet: they are lost when the text turns out to be
   invalid further on.
   */
  function StringBody(s: Text, run: Text, f: DumpFlags): (w: Written)
    decreases |s|
  {
    if s == [] then Written(true, run + [QUOTE])
    else match Utf8.Front(s)
      case None => Written(false, [])
      case Some(c) =>
        Utf8.EncodeOfFront(s);
        if NeedsEscape(c.codepoint, f) then
          var w := StringBody(s[c.size..], [], f);
          Written(w.ok, run + EscapeText(c.codepoint) + w.text)
        else StringBody(s[c.size..], run + s[..c.size], f)
  }

  lemma StringBodyStep(s: Text, run: Text, f: DumpFlags)
    ensures StringBody([], run, f) == Written(true, run + [QUOTE])
    ensures s != [] && Utf8.Front(s).None? ==> StringBody(s, run, f) == Written(false, [])
    ensures s != [] && Utf8.Front(s).Some? ==>
      var c := Utf8.Front(s).value;
      0 <= c.codepoint <= 0x10FFFF &&
      StringBody(s, run, f) ==
        if NeedsEscape(c.codepoint, f) then
          var w := StringBody(s[c.size..], [], f);
          Written(w.ok, run + EscapeText(c.codepoint) + w.text)
        else StringBody(s[c.size..], run + s[..c.size], f)
  {
    if s != [] && Utf8.Front(s).Some? {
      Utf8.EncodeOfFront(s);
    }
  }

  /** dump_string */
  function StringText(s: Text, f: DumpFlags): Written {
    var w := StringBody(s, [], f);
    Written(w.ok, [QUOTE] + w.text)
  }

  // ---- Trees ----

  function Spaces(n: nat): (s: Text)
    ensures |s| == n
    ensures forall i :: 0 <= i < n ==> s[i] == SPACE
  {
    seq(n, _ => SPACE)
  }

  /** dump_indent */
  function IndentText(f: DumpFlags, depth: nat, space: bool): Text {
    if f.indent > 0 then [NEWLINE] + Spaces(depth * f.indent)
    else if space && !f.compact then [SPACE]
    else []
  }

  function SeparatorText(f: DumpFlags): Text {
    if f.compact then [COLON] else [COLON, SPACE]
  }

  function Bracket(c: Byte, embed: bool): Text {
    if embed then [] else [c]
  }

  /** What follows an element: the next element's indentation, or the closing one's. */
  function AfterElement(f: DumpFlags, depth: nat, last: bool): Text {
    if last then IndentText(f, depth, false) else [COMMA] + IndentText(f, depth + 1, true)
  }

  /** The text of a value, or None if some string in it is not valid UTF-8. Fields are written in order. */
  function DumpTree(v: Json, f: DumpFlags, depth: nat, embed: bool): Option<Text> {
    match v
    case Null => Some(NULL_TEXT)
    case True => Some(TRUE_TEXT)
    case False => Some(FALSE_TEXT)
    case Integer(i) => Some(Decimal(i))
    case Real(s) => Some(s)
    case String(s) => (var w := StringText(s, f); if w.ok then Some(w.text) else None)
    case Array(items) =>
      if items == [] then Some(Bracket(LBRACKET, embed) + Bracket(RBRACKET, embed))
      else (match DumpItems(items, f, depth)
            case None => None
            case Some(t) => Some(Bracket(LBRACKET, embed) + IndentText(f, depth + 1, false) + t + Bracket(RBRACKET, embed)))
    case Object(fields) =>
      if fields == [] then Some(Bracket(LBRACE, embed) + Bracket(RBRACE, embed))
      else (match DumpFields(fields, f, depth)
            case None => None
            case Some(t) => Some(Bracket(LBRACE, embed) + IndentText(f, depth + 1, false) + t + Bracket(RBRACE, embed)))
  }

  function DumpItems(items: seq<Json>, f: DumpFlags, depth: nat): Option<Text> {
    if items == [] then Some([])
    else match DumpTree(items[0], f, depth + 1, false)
      case None => None
      case Some(t) =>
        match DumpItems(items[1..], f, depth)
        case None => None
        case Some(rest) => Some(t + AfterElement(f, depth, |items| == 1) + rest)
  }

  function DumpFields(fields: seq<Pair<Json>>, f: DumpFlags, depth: nat): Option<Text> {
    if fields == [] then Some([])
    else match DumpTree(fields[0].value, f, depth + 1, false)
      case None => None
      case Some(t) =>
        match DumpFields(fields[1..], f, depth)
        case None => None
        case Some(rest) =>
          Some(StringText(fields[0].key, f).text + SeparatorText(f) + t + AfterElement(f, depth, |fields| == 1) + rest)
  }

  // ---- Graphs ----

  /** The address of a value. An address that is not in the heap is the null pointer. */
  type Ref = nat

  datatype Node =
    | Scalar(value: Json)
    | ArrayNode(items: seq<Ref>)
    | ObjectNode(fields: seq<Pair<Ref>>)

  /** A heap of JSON values: only scalars are stored whole, and object keys are unique. */
  type Heap = h: map<Ref, Node> |
      forall r :: r in h ==> (h[r].Scalar? ==> !h[r].value.IsContainer()) && (h[r].ObjectNode? ==> Unique(h[r].fields))
    witness map[]

  /** The fields of an object in the order in which they are dumped. */
  function Order<V>(fields: seq<Pair<V>>, sortKeys: bool): (r: seq<Pair<V>>)
    ensures |r| == |fields|
    ensures multiset(r) == multiset(fields)
  {
    if sortKeys then SortPairs(fields) else fields
  }

  /**
   The tree that a node stands for below the containers in `parents`, or None when it contains
   one of them, itself included, or a null pointer.
   */
  function Unfold(h: Heap, r: Ref, sortKeys: bool, parents: set<Ref>): (t: Option<Json>)
    ensures t.Some? ==> r in h && (h[r].Scalar? ==> t.value == h[r].value)
    decreases |h.Keys - parents|, 0, 0
  {
    if r !in h then None
    else match h[r]
      case Scalar(v) => Some(v)
      case ArrayNode(items) =>
        if r in parents then None else
          FewerLeft(h, r, parents);
          (match UnfoldItems(h, items, sortKeys, parents + {r})
           case None => None
           case Some(vs) => Some(Array(vs)))
      case ObjectNode(fields) =>
        if r in parents then None else
          FewerLeft(h, r, parents);
          (match UnfoldFields(h, Order(fields, sortKeys), sortKeys, parents + {r})
           case None => None
           case Some(vs) => Some(Object(vs)))
  }

  function UnfoldItems(h: Heap, items: seq<Ref>, sortKeys: bool, parents: set<Ref>): (t: Option<seq<Json>>)
    ensures t.Some? ==> |t.value| == |items|
    decreases |h.Keys - parents|, 1, |items|
  {
    if items == [] then Some([])
    else match Unfold(h, items[0], sortKeys, parents)
      case None => None
      case Some(v) =>
        match UnfoldItems(h, items[1..], sortKeys, parents)
        case None => None
        case Some(vs) => Some([v] + vs)
  }

  function UnfoldFields(h: Heap, fields: seq<Pair<Ref>>, sortKeys: bool, parents: set<Ref>): (t: Option<seq<Pair<Json>>>)
    ensures t.Some? ==> |t.value| == |fields|
    decreases |h.Keys - parents|, 1, |fields|
  {
    if fields == [] then Some([])
    else match Unfold(h, fields[0].value, sortKeys, parents)
      case None => None
      case Some(v) =>
        match UnfoldFields(h, fields[1..], sortKeys, parents)
        case None => None
        case Some(vs) => Some([Pair(fields[0].key, v)] + vs)
  }

  /** Entering a container leaves fewer containers to enter: why dumping terminates. */
  lemma FewerLeft(h: Heap, r: Ref, parents: set<Ref>)
    requires r in h && r !in parents
    ensures |h.Keys - (parents + {r})| < |h.Keys - parents|
  {
    assert h.Keys - (parents + {r}) == (h.Keys - parents) - {r};
  }

  /** The text of a node, or None if dumping it fails. */
  function NodeText(h: Heap, r: Ref, f: DumpFlags, depth: nat, embed: bool, parents: set<Ref>): Option<Text> {
    match Unfold(h, r, f.sortKeys, parents)
    case None => None
    case Some(v) => DumpTree(v, f, depth, embed)
  }

  function ItemsText(h: Heap, items: seq<Ref>, f: DumpFlags, depth: nat, parents: set<Ref>): Option<Text> {
    match UnfoldItems(h, items, f.sortKeys, parents)
    case None => None
    case Some(vs) => DumpItems(vs, f, depth)
  }

  function FieldsText(h: Heap, fields: seq<Pair<Ref>>, f: DumpFlags, depth: nat, parents: set<Ref>): Option<Text> {
    match UnfoldFields(h, fields, f.sortKeys, parents)
    case None => None
    case Some(vs) => DumpFields(vs, f, depth)
  }

  lemma NoText(h: Heap, f: DumpFlags, depth: nat, parents: set<Ref>)
    ensures ItemsText(h, [], f, depth, parents) == Some([])
    ensures FieldsText(h, [], f, depth, parents) == Some([])
  {
  }

  lemma ItemsTextStep(h: Heap, items: seq<Ref>, f: DumpFlags, depth: nat, parents: set<Ref>)
    requires items != []
    ensures var t := NodeText(h, items[0], f, depth + 1, false, parents);
      var rest := ItemsText(h, items[1..], f, depth, parents);
      ItemsText(h, items, f, depth, parents) ==
        if t.Some? && rest.Some? then Some(t.value + AfterElement(f, depth, |items| == 1) + rest.value) else None
  {
    var v := Unfold(h, items[0], f.sortKeys, parents);
    var vs := UnfoldItems(h, items[1..], f.sortKeys, parents);
    if v.Some? && vs.Some? {
      assert ([v.value] + vs.value)[1..] == vs.value;
    }
  }

  lemma FieldsTextStep(h: Heap, fields: seq<Pair<Ref>>, f: DumpFlags, depth: nat, parents: set<Ref>)
    requires fields != []
    ensures var t := NodeText(h, fields[0].value, f, depth + 1, false, parents);
      var rest := FieldsText(h, fields[1..], f, depth, parents);
      FieldsText(h, fields, f, depth, parents) ==
        if t.Some? && rest.Some? then
          Some(StringText(fields[0].key, f).text + SeparatorText(f) + t.value + AfterElement(f, depth, |fields| == 1) + rest.value)
        else None
  {
    var v := Unfold(h, fields[0].value, f.sortKeys, parents);
    var vs := UnfoldFields(h, fields[1..], f.sortKeys, parents);
    if v.Some? && vs.Some? {
      assert ([Pair(fields[0].key, v.value)] + vs.value)[1..] == vs.value;
    }
  }

  /** Looking a key up in the object gives the value that was sorted along with it. */
  lemma GetOfOrdered<V>(fields: seq<Pair<V>>, sortKeys: bool, i: nat)
    requires Unique(fields) && i < |fields|
    ensures Get(fields, Order(fields, sortKeys)[i].key) == Some(Order(fields, sortKeys)[i].value)
  {
    var p := Order(fields, sortKeys)[i];
    assert p in multiset(Order(fields, sortKeys));
    assert p in multiset(fields);
    var j :| 0 <= j < |fields| && fields[j] == p;
    FindAt(fields, j);
  }

  lemma Regroup(o: Text, a: Text, b: Text, c: Text, d: Text)
    ensures o + a + b + c + d == o + (a + b + c + d)
    ensures o + a + b + c == o + (a + b + c)
    ensures o + a + b == o + (a + b)
  {
  }

  /** What is written so far and the text still to come make up the goal, and fail when it fails. */
  ghost predicate Leads(out: Text, left: Option<Text>, start: Text, goal: Option<Text>) {
    left.Some? == goal.Some? && (goal.Some? ==> out + left.value == start + goal.value)
  }

  lemma LeadsOn(out: Text, piece: Text, rest: Option<Text>, left: Option<Text>, start: Text, goal: Option<Text>)
    requires Leads(out, left, start, goal)
    requires left == if rest.Some? then Some(piece + rest.value) else None
    ensures Leads(out + piece, rest, start, goal)
  {
    if rest.Some? {
      assert out + (piece + rest.value) == out + piece + rest.value;
    }
  }

  /** What writing one element does to the text still to come. */
  lemma ElementLeads(h: Heap, items: seq<Ref>, i: nat, f: DumpFlags, depth: nat, parents: set<Ref>,
                     out: Text, start: Text, goal: Option<Text>)
    requires i < |items|
    requires Leads(out, ItemsText(h, items[i..], f, depth, parents), start, goal)
    ensures var t := NodeText(h, items[i], f, depth + 1, false, parents);
      if t.None? then goal.None?
      else Leads(out + (t.value + AfterElement(f, depth, i == |items| - 1)),
                 ItemsText(h, items[i + 1..], f, depth, parents), start, goal)
  {
    ItemsTextStep(h, items[i..], f, depth, parents);
    assert items[i..][0] == items[i] && items[i..][1..] == items[i + 1..];
    hide ItemsText, NodeText, AfterElement;
    var t := NodeText(h, items[i], f, depth + 1, false, parents);
    if t.Some? {
      LeadsOn(out, t.value + AfterElement(f, depth, i == |items| - 1), ItemsText(h, items[i + 1..], f, depth, parents),
              ItemsText(h, items[i..], f, depth, parents), start, goal);
    }
  }

  lemma MemberLeads(h: Heap, fields: seq<Pair<Ref>>, i: nat, f: DumpFlags, depth: nat, parents: set<Ref>,
                    out: Text, start: Text, goal: Option<Text>)
    requires i < |fields|
    requires Leads(out, FieldsText(h, fields[i..], f, depth, parents), start, goal)
    ensures var t := NodeText(h, fields[i].value, f, depth + 1, false, parents);
      if t.None? then goal.None?
      else Leads(out + (StringText(fields[i].key, f).text + SeparatorText(f) + t.value + AfterElement(f, depth, i == |fields| - 1)),
                 FieldsText(h, fields[i + 1..], f, depth, parents), start, goal)
  {
    FieldsTextStep(h, fields[i..], f, depth, parents);
    assert fields[i..][0] == fields[i] && fields[i..][1..] == fields[i + 1..];
    hide FieldsText, NodeText, AfterElement, StringText, SeparatorText;
    var t := NodeText(h, fields[i].value, f, depth + 1, false, parents);
    if t.Some? {
      LeadsOn(out, StringText(fields[i].key, f).text + SeparatorText(f) + t.value + AfterElement(f, depth, i == |fields| - 1),
              FieldsText(h, fields[i + 1..], f, depth, parents), FieldsText(h, fields[i..], f, depth, parents), start, goal);
    }
  }

  /** A container's text: the brackets around the text of its contents. */
  function Bracketed(contents: Option<Text>, open: Byte, close: Byte, f: DumpFlags, depth: nat, embed: bool, empty: bool): Option<Text> {
    if empty then Some(Bracket(open, embed) + Bracket(close, embed))
    else match contents
      case None => None
      case Some(t) => Some(Bracket(open, embed) + IndentText(f, depth + 1, false) + t + Bracket(close, embed))
  }

  lemma ArrayText(h: Heap, r: Ref, f: DumpFlags, depth: nat, embed: bool, parents: set<Ref>)
    requires r in h && h[r].ArrayNode?
    ensures NodeText(h, r, f, depth, embed, parents) ==
      if r in parents then None
      else Bracketed(ItemsText(h, h[r].items, f, depth, parents + {r}), LBRACKET, RBRACKET, f, depth, embed, h[r].items == [])
  {
    hide IndentText, Bracket, DumpItems;
  }

  lemma ObjectText(h: Heap, r: Ref, f: DumpFlags, depth: nat, embed: bool, parents: set<Ref>)
    requires r in h && h[r].ObjectNode?
    ensures NodeText(h, r, f, depth, embed, parents) ==
      if r in parents then None
      else Bracketed(FieldsText(h, Order(h[r].fields, f.sortKeys), f, depth, parents + {r}), LBRACE, RBRACE, f, depth, embed, h[r].fields == [])
  {
    hide IndentText, Bracket, DumpFields, Order;
  }

  // ---- The printer ----

  /** The destination of json_dumpb: bytes that fit are stored, and all are counted. */
  class Sink {
    var data: array<Byte>
    var used: nat
    ghost var out: Text

    ghost predicate Valid()
      reads this, data
    {
      used == |out| && (used <= data.Length ==> data[..used] == out)
    }

    constructor (buffer: array<Byte>)
      ensures Valid() && data == buffer && out == []
    {
      data, used, out := buffer, 0, [];
    }

    /** dump_to_buffer */
    method Put(chunk: Text)
      requires Valid()
      modifies this`used, this`out, data
      ensures Valid() && out == old(out) + chunk
    {
      if used + |chunk| <= data.Length {
        ghost var before := data[..used];
        var i := 0;
        while i < |chunk|
          invariant 0 <= i <= |chunk|
          invariant data == old(data) && used == old(used) && out == old(out)
          invariant data[..used + i] == before + chunk[..i]
        {
          data[used + i] := chunk[i];
          assert data[..used + i + 1] == data[..used + i] + [chunk[i]];
          i := i + 1;
        }
        assert chunk[..|chunk|] == chunk;
      }
      used := used + |chunk|;
      out := out + chunk;
    }
  }

  class Dumper {
    const heap: Heap
    const flags: DumpFlags
    const sink: Sink
    var parents: set<Ref>

    ghost predicate Valid()
      reads this, sink, sink.data
    {
      sink.Valid()
    }

    constructor (h: Heap, f: DumpFlags, s: Sink)
      requires s.Valid()
      ensures Valid() && heap == h && flags == f && sink == s && parents == {}
    {
      heap, flags, sink, parents := h, f, s, {};
    }

    method DumpIndent(depth: nat, space: bool)
      requires Valid()
      modifies this`parents, sink, sink.data
      ensures Valid() && sink.data == old(sink.data) && parents == old(parents)
      ensures sink.out == old(sink.out) + IndentText(flags, depth, space)
    {
      if flags.indent > 0 {
        var left := depth * flags.indent;
        sink.Put([NEWLINE]);
        while left > 0
          invariant 0 <= left <= depth * flags.indent
          invariant Valid() && sink.data == old(sink.data) && parents == old(parents)
          invariant sink.out == old(sink.out) + [NEWLINE] + Spaces(depth * flags.indent - left)
        {
          var n := if left < 32 then left else 32;
          sink.Put(Spaces(n));
          left := left - n;
        }
      } else if space && !flags.compact {
        sink.Put([SPACE]);
      }
    }

    /**
     The inner loop of dump_string: str..pos is the longest run that needs no escape, and
     pos..end the character that ends it, if any.
     */
    method ScanRun(text: Text, str: nat) returns (ok: bool, pos: nat, end: nat, codepoint: int)
      requires str <= |text|
      ensures !ok ==> StringBody(text[str..], [], flags) == Written(false, [])
      ensures ok ==> str <= pos <= end <= |text|
      ensures ok ==> StringBody(text[str..], [], flags) == StringBody(text[pos..], text[str..pos], flags)
      ensures ok && pos == end ==> end == |text|
      ensures ok && pos < end ==> Utf8.Front(text[pos..]) == Some(Utf8.Char(codepoint, end - pos)) && NeedsEscape(codepoint, flags)
    {
      hide StringBody, NeedsEscape, Utf8.Front;
      pos, end, codepoint := str, str, 0;
      assert text[str..str] == [];
      while end < |text|
        invariant str <= pos == end <= |text|
        invariant StringBody(text[str..], [], flags) == StringBody(text[pos..], text[str..pos], flags)
      {
        var c := Utf8.Iterate(text[pos..]);
        StringBodyStep(text[pos..], text[str..pos], flags);
        if c.None? {
          ok := false;
          return;
        }
        end := pos + c.value.size;
        codepoint := c.value.codepoint;
        if NeedsEscape(codepoint, flags) {
          break;
        }
        assert text[pos..][c.value.size..] == text[end..];
        assert text[str..pos] + text[pos..][..c.value.size] == text[str..end];
        pos := end;
      }
      ok := true;
    }

    /** dump_string. The positions `str`, `pos` and `end` are those of the C code. */
    method DumpString(text: Text) returns (ok: bool)
      requires Valid()
      modifies this`parents, sink, sink.data
      ensures Valid() && sink.data == old(sink.data) && parents == old(parents)
      ensures ok == StringText(text, flags).ok
      ensures sink.out == old(sink.out) + StringText(text, flags).text
    {
      hide StringBody, EscapeText, NeedsEscape, Utf8.Front;
      sink.Put([QUOTE]);
      ghost var goal := old(sink.out) + StringText(text, flags).text;
      var str, pos, end, codepoint := 0, 0, 0, 0;
      assert text[0..] == text;
      while true
        invariant 0 <= str <= |text|
        invariant Valid() && sink.data == old(sink.data) && parents == old(parents)
        invariant StringBody(text[str..], [], flags).ok == StringText(text, flags).ok
        invariant goal == sink.out + StringBody(text[str..], [], flags).text
        decreases |text| - str
      {
        ghost var out := sink.out;
        ok, pos, end, codepoint := ScanRun(text, str);
        if !ok {
          return;
        }
        StringBodyStep(text[pos..], text[str..pos], flags);
        if pos != str {
          sink.Put(text[str..pos]);
        }
        assert sink.out == out + text[str..pos];
        if end == pos {
          assert text[pos..] == [];
          Regroup(out, text[str..pos], [QUOTE], [], []);
          break;
        }
        sink.Put(EscapeText(codepoint));
        assert text[pos..][end - pos..] == text[end..];
        Regroup(out, text[str..pos], EscapeText(codepoint), StringBody(text[end..], [], flags).text, []);
        str := end;
      }
      sink.Put([QUOTE]);
      ok := true;
    }

    /**
     do_dump. The set `parents` holds the containers being dumped; a container that is met again
     below itself makes the dump fail.
     */
    method DoDump(r: Ref, depth: nat, embed: bool) returns (ok: bool)
      requires Valid()
      modifies this`parents, sink, sink.data
      ensures Valid() && sink.data == old(sink.data)
      ensures ok == NodeText(heap, r, flags, depth, embed, old(parents)).Some?
      ensures ok ==> parents == old(parents)
      ensures ok ==> sink.out == old(sink.out) + NodeText(heap, r, flags, depth, embed, old(parents)).value
      decreases |heap.Keys - parents|, 0
    {
      if r !in heap {
        return false;
      }
      if heap[r].Scalar? {
        ok := DumpScalar(heap[r].value);
        return;
      }
      if r in parents {
        return false;
      }
      FewerLeft(heap, r, parents);
      if heap[r].ArrayNode? {
        ArrayText(heap, r, flags, depth, embed, parents);
        ok := DumpArray(r, depth, embed);
      } else {
        ObjectText(heap, r, flags, depth, embed, parents);
        ok := DumpObject(r, depth, embed);
      }
    }

    method DumpBracket(c: Byte, embed: bool)
      requires Valid()
      modifies this`parents, sink, sink.data
      ensures Valid() && sink.data == old(sink.data) && parents == old(parents)
      ensures sink.out == old(sink.out) + Bracket(c, embed)
    {
      if !embed {
        sink.Put([c]);
      }
    }

    /** The array case of do_dump. */
    method DumpArray(r: Ref, depth: nat, embed: bool) returns (ok: bool)
      requires Valid() && r in heap && heap[r].ArrayNode? && r !in parents
      modifies this`parents, sink, sink.data
      ensures Valid() && sink.data == old(sink.data)
      ensures ok ==> parents == old(parents)
      ensures var text := Bracketed(ItemsText(heap, heap[r].items, flags, depth, old(parents) + {r}),
                                    LBRACKET, RBRACKET, flags, depth, embed, heap[r].items == []);
        ok == text.Some? && (ok ==> sink.out == old(sink.out) + text.value)
      decreases |heap.Keys - (parents + {r})|, 3
    {
      hide ItemsText, IndentText, Bracket, Unfold, UnfoldItems, UnfoldFields;
      parents := parents + {r};
      DumpBracket(LBRACKET, embed);
      if heap[r].items != [] {
        DumpIndent(depth + 1, false);
        ok := DumpElements(heap[r].items, depth);
        if !ok {
          return;
        }
      }
      parents := parents - {r};
      DumpBracket(RBRACKET, embed);
      if heap[r].items == [] {
        Regroup(old(sink.out), Bracket(LBRACKET, embed), Bracket(RBRACKET, embed), [], []);
      } else {
        Regroup(old(sink.out), Bracket(LBRACKET, embed), IndentText(flags, depth + 1, false),
                ItemsText(heap, heap[r].items, flags, depth, old(parents) + {r}).value, Bracket(RBRACKET, embed));
      }
      ok := true;
    }

    /** The object case of do_dump. */
    method DumpObject(r: Ref, depth: nat, embed: bool) returns (ok: bool)
      requires Valid() && r in heap && heap[r].ObjectNode? && r !in parents
      modifies this`parents, sink, sink.data
      ensures Valid() && sink.data == old(sink.data)
      ensures ok ==> parents == old(parents)
      ensures var text := Bracketed(FieldsText(heap, Order(heap[r].fields, flags.sortKeys), flags, depth, old(parents) + {r}),
                                    LBRACE, RBRACE, flags, depth, embed, heap[r].fields == []);
        ok == text.Some? && (ok ==> sink.out == old(sink.out) + text.value)
      decreases |heap.Keys - (parents + {r})|, 3
    {
      hide FieldsText, IndentText, Bracket, Unfold, UnfoldItems, UnfoldFields, Order;
      parents := parents + {r};
      DumpBracket(LBRACE, embed);
      if heap[r].fields != [] {
        DumpIndent(depth + 1, false);
        ok := DumpMembers(heap[r].fields, depth);
        if !ok {
          return;
        }
      }
      parents := parents - {r};
      DumpBracket(RBRACE, embed);
      if heap[r].fields == [] {
        Regroup(old(sink.out), Bracket(LBRACE, embed), Bracket(RBRACE, embed), [], []);
      } else {
        Regroup(old(sink.out), Bracket(LBRACE, embed), IndentText(flags, depth + 1, false),
                FieldsText(heap, Order(heap[r].fields, flags.sortKeys), flags, depth, old(parents) + {r}).value,
                Bracket(RBRACE, embed));
      }
      ok := true;
    }

    method DumpScalar(v: Json) returns (ok: bool)
      requires Valid() && !v.IsContainer()
      modifies this`parents, sink, sink.data
      ensures Valid() && sink.data == old(sink.data) && parents == old(parents)
      ensures ok == DumpTree(v, flags, 0, false).Some?
      ensures ok ==> sink.out == old(sink.out) + DumpTree(v, flags, 0, false).value
    {
      ok := true;
      match v
      case Null => sink.Put(NULL_TEXT);
      case True => sink.Put(TRUE_TEXT);
      case False => sink.Put(FALSE_TEXT);
      case Integer(i) => sink.Put(Decimal(i));
      case Real(s) => sink.Put(s);
      case String(s) => ok := DumpString(s);
    }

    /** What do_dump writes after each element of a container. */
    method DumpAfter(depth: nat, last: bool)
      requires Valid()
      modifies this`parents, sink, sink.data
      ensures Valid() && sink.data == old(sink.data) && parents == old(parents)
      ensures sink.out == old(sink.out) + AfterElement(flags, depth, last)
    {
      if !last {
        sink.Put([COMMA]);
        DumpIndent(depth + 1, true);
      } else {
        DumpIndent(depth, false);
      }
    }

    /** One turn of the loop of do_dump over the elements of an array. */
    method DumpElement(r: Ref, depth: nat, last: bool) returns (ok: bool)
      requires Valid()
      modifies this`parents, sink, sink.data
      ensures Valid() && sink.data == old(sink.data)
      ensures var t := NodeText(heap, r, flags, depth + 1, false, old(parents));
        ok == t.Some? &&
        (ok ==> parents == old(parents) && sink.out == old(sink.out) + (t.value + AfterElement(flags, depth, last)))
      decreases |heap.Keys - parents|, 1
    {
      hide NodeText, AfterElement;
      ok := DoDump(r, depth + 1, false);
      if ok {
        DumpAfter(depth, last);
        Regroup(old(sink.out), NodeText(heap, r, flags, depth + 1, false, parents).value, AfterElement(flags, depth, last), [], []);
      }
    }

    /** One turn of the loops of do_dump over the members of an object. */
    method DumpMember(key: Text, r: Ref, depth: nat, last: bool) returns (ok: bool)
      requires Valid()
      modifies this`parents, sink, sink.data
      ensures Valid() && sink.data == old(sink.data)
      ensures var t := NodeText(heap, r, flags, depth + 1, false, old(parents));
        ok == t.Some? &&
        (ok ==>
           && parents == old(parents)
           && sink.out == old(sink.out) + (StringText(key, flags).text + SeparatorText(flags) + t.value + AfterElement(flags, depth, last)))
      decreases |heap.Keys - parents|, 1
    {
      hide NodeText, AfterElement, StringText, SeparatorText;
      var _ := DumpString(key);
      sink.Put(SeparatorText(flags));
      ok := DoDump(r, depth + 1, false);
      if ok {
        DumpAfter(depth, last);
        Regroup(old(sink.out), StringText(key, flags).text, SeparatorText(flags),
                NodeText(heap, r, flags, depth + 1, false, parents).value, AfterElement(flags, depth, last));
      }
    }

    /** The loop of do_dump over the elements of an array. */
    method DumpElements(items: seq<Ref>, depth: nat) returns (ok: bool)
      requires Valid() && items != []
      modifies this`parents, sink, sink.data
      ensures Valid() && sink.data == old(sink.data)
      ensures ok == ItemsText(heap, items, flags, depth, old(parents)).Some?
      ensures ok ==> parents == old(parents)
      ensures ok ==> sink.out == old(sink.out) + ItemsText(heap, items, flags, depth, old(parents)).value
      decreases |heap.Keys - parents|, 2
    {
      assert items[0..] == items;
      hide NodeText, ItemsText, Unfold, UnfoldItems, DumpTree, DumpItems, AfterElement;
      ghost var whole := ItemsText(heap, items, flags, depth, parents);
      var i := 0;
      while i < |items|
        invariant 0 <= i <= |items|
        invariant Valid() && sink.data == old(sink.data) && parents == old(parents)
        invariant Leads(sink.out, ItemsText(heap, items[i..], flags, depth, parents), old(sink.out), whole)
      {
        ElementLeads(heap, items, i, flags, depth, parents, sink.out, old(sink.out), whole);
        ok := DumpElement(items[i], depth, i == |items| - 1);
        if !ok {
          return;
        }
        i := i + 1;
      }
      NoText(heap, flags, depth, parents);
      assert items[i..] == [];
      ok := true;
    }

    /** The loops of do_dump over the members of an object, in insertion order or sorted. */
    method DumpMembers(fields: seq<Pair<Ref>>, depth: nat) returns (ok: bool)
      requires Valid() && fields != [] && Unique(fields)
      modifies this`parents, sink, sink.data
      ensures Valid() && sink.data == old(sink.data)
      ensures ok == FieldsText(heap, Order(fields, flags.sortKeys), flags, depth, old(parents)).Some?
      ensures ok ==> parents == old(parents)
      ensures ok ==> sink.out == old(sink.out) + FieldsText(heap, Order(fields, flags.sortKeys), flags, depth, old(parents)).value
      decreases |heap.Keys - parents|, 2
    {
      var ordered := Order(fields, flags.sortKeys);
      assert ordered[0..] == ordered;
      hide NodeText, FieldsText, Unfold, UnfoldFields, DumpTree, DumpFields, StringText, StringBody, AfterElement, SeparatorText;
      ghost var whole := FieldsText(heap, ordered, flags, depth, parents);
      var i := 0;
      while i < |ordered|
        invariant 0 <= i <= |ordered|
        invariant Valid() && sink.data == old(sink.data) && parents == old(parents)
        invariant Leads(sink.out, FieldsText(heap, ordered[i..], flags, depth, parents), old(sink.out), whole)
      {
        MemberLeads(heap, ordered, i, flags, depth, parents, sink.out, old(sink.out), whole);
        GetOfOrdered(fields, flags.sortKeys, i);
        var key := ordered[i].key;
        ok := DumpMember(key, Get(fields, key).value, depth, i == |ordered| - 1);
        if !ok {
          return;
        }
        i := i + 1;
      }
      NoText(heap, flags, depth, parents);
      assert ordered[i..] == [];
      ok := true;
    }
  }

  /** json_is_array(json) || json_is_object(json) */
  predicate IsContainerNode(h: Heap, r: Ref) {
    r in h && !h[r].Scalar?
  }

  /** The text that json_dump_callback hands to its callback, or None if it fails. */
  function DumpText(h: Heap, r: Ref, f: DumpFlags): Option<Text> {
    if !f.encodeAny && !IsContainerNode(h, r) then None else NodeText(h, r, f, 0, f.embed, {})
  }

  /** json_dumpb: the length of the text, of which as much as fits the buffer is stored. */
  method DumpToBuffer(h: Heap, r: Ref, f: DumpFlags, buffer: array<Byte>) returns (n: nat)
    modifies buffer
    ensures DumpText(h, r, f).None? ==> n == 0
    ensures DumpText(h, r, f).Some? ==> n == |DumpText(h, r, f).value|
    ensures DumpText(h, r, f).Some? && n <= buffer.Length ==> buffer[..n] == DumpText(h, r, f).value
  {
    var sink := new Sink(buffer);
    if !f.encodeAny && !IsContainerNode(h, r) {
      return 0;
    }
    var dumper := new Dumper(h, f, sink);
    var ok := dumper.DoDump(r, 0, f.embed);
    if !ok {
      return 0;
    }
    return sink.used;
  }
}
