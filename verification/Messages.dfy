/**
 JSON documents as packets, packet.c: a document that is packed, framed, cut into any reads and
 received is the document that was sent.
 */
module Messages {
  import opened Bytes
  import opened Assoc
  import opened JsonValue
  import opened JsonDump
  import opened JsonLoad
  import JsonRoundTrip
  import JsonSorting
  import opened Framing
  import C = Connection
  import Crc32

  /** The flags of json_to_raw_packet and dispatch_packet: none. */
  const DUMP_FLAGS := DumpFlags(0, false, false, false, false, false, false)
  const LOAD_FLAGS := LoadFlags(false, false, false, false, false)

  const PACKET_TYPE_UNENCRY := 1

  /** The packet of a document. One that cannot be dumped makes a packet without payload. */
  ghost function PacketOf(h: Heap, r: Ref, kind: nat): Packet {
    Packet(kind, match DumpText(h, r, DUMP_FLAGS) case Some(t) => t case None => [])
  }

  /** The document's text fits the packet. */
  predicate Fits(h: Heap, r: Ref) {
    DumpText(h, r, DUMP_FLAGS).Some? ==> |DumpText(h, r, DUMP_FLAGS).value| <= RAW_PACKET_BUFFER_MAX
  }

  /** struct raw_packet, and the memory behind it, which the code reads for a text that does not fit. */
  class RawPacket {
    var crc32: bv32
    var packetLen: nat
    var kind: nat
    const buffer: array<Byte>
    const past: Text

    /** alloc_raw_packet: the packet is the response buffer of the client, whatever it holds. */
    constructor (past: Text)
      requires |past| >= 0x10000
      ensures Valid() && fresh(buffer)
    {
      crc32, packetLen, kind := 0, 0, 0;
      buffer := new Byte[RAW_PACKET_BUFFER_MAX](_ => 0);
      this.past := past;
    }

    ghost predicate Valid()
      reads this
    {
      buffer.Length == RAW_PACKET_BUFFER_MAX && |past| >= 0x10000 && packetLen < 0x10000 && kind < 0x10000
    }

    /** The payload that the length field says. */
    function Payload(): (p: Text)
      requires Valid()
      reads this, buffer
      ensures |p| == packetLen
    {
      (buffer[..] + past)[..packetLen]
    }

    /** The bytes that respond_raw_packet writes to the socket. */
    function Wire(): Text
      requires Valid()
      reads this, buffer
    {
      Le32(crc32) + Le16(packetLen) + Le16(kind) + Payload()
    }

    /**
     json_to_raw_packet: always one checked frame, and the document's if its text fits. The length field
     has 16 bits.
     */
    method FromJson(h: Heap, r: Ref, kind: nat)
      requires Valid() && kind < 0x10000
      modifies this, buffer
      ensures Valid() && this.kind == kind
      ensures packetLen == match DumpText(h, r, DUMP_FLAGS) case Some(t) => |t| % 0x10000 case None => 0
      ensures Wire() == Frame(Packet(kind, Payload()))
      ensures Fits(h, r) ==> Wire() == Frame(PacketOf(h, r, kind))
    {
      hide DumpText, Crc32.Crc, Le32;
      this.kind := kind;
      var n := DumpToBuffer(h, r, DUMP_FLAGS, buffer);
      packetLen := n % 0x10000;
      var payload := Payload();
      crc32 := Crc32.Classic(Le16(packetLen) + Le16(kind) + payload);
      assert Le32(crc32) + Le16(packetLen) + Le16(kind) + payload == Le32(crc32) + (Le16(packetLen) + Le16(kind) + payload);
      if n <= RAW_PACKET_BUFFER_MAX {
        assert payload == buffer[..n];
      }
    }
  }

  /** Packs a document and gives the bytes to send; `past` is the memory behind the packet. */
  method Pack(h: Heap, r: Ref, kind: nat, past: Text) returns (wire: Text)
    requires kind < 0x10000 && |past| >= 0x10000
    ensures exists p: Packet :: p.kind == kind && |p.payload| < 0x10000 && wire == Frame(p)
    ensures Fits(h, r) ==> wire == Frame(PacketOf(h, r, kind))
  {
    hide DumpText, Frame;
    var packet := new RawPacket(past);
    packet.FromJson(h, r, kind);
    wire := packet.Wire();
  }

  /** The document that dispatch_packet loads from a packet. */
  function Document(p: Packet): Option<Json> {
    ParseJson(p.payload, LOAD_FLAGS)
  }

  // ---- Nesting ----

  /** Every level of nesting costs two bytes of text. */
  lemma {:induction false} NestingCosts(v: Json, f: DumpFlags, depth: nat)
    requires DumpTree(v, f, depth, false).Some?
    ensures 2 * Height(v) <= |DumpTree(v, f, depth, false).value| + 2
    decreases v, 1
  {
    match v
    case Array(items) =>
      if items != [] {
        ItemsCost(v, items, f, depth);
      }
    case Object(fields) =>
      if fields != [] {
        FieldsCost(v, fields, f, depth);
      }
    case _ =>
  }

  lemma {:induction false} ItemsCost(whole: Json, items: seq<Json>, f: DumpFlags, depth: nat)
    requires DumpItems(items, f, depth).Some? && forall i :: 0 <= i < |items| ==> items[i] < whole
    ensures 2 * HeightItems(items) <= |DumpItems(items, f, depth).value| + 2
    decreases whole, 0, |items|
  {
    if items != [] {
      NestingCosts(items[0], f, depth + 1);
      ItemsCost(whole, items[1..], f, depth);
    }
  }

  lemma {:induction false} FieldsCost(whole: Json, fields: seq<Pair<Json>>, f: DumpFlags, depth: nat)
    requires DumpFields(fields, f, depth).Some? && forall i :: 0 <= i < |fields| ==> fields[i].value < whole
    ensures 2 * HeightFields(fields) <= |DumpFields(fields, f, depth).value| + 2
    decreases whole, 0, |fields|
  {
    if fields != [] {
      NestingCosts(fields[0].value, f, depth + 1);
      FieldsCost(whole, fields[1..], f, depth);
    }
  }

  // ---- From one end to the other ----

  /** A document in memory that can be sent: it is acyclic, its strings are valid, and its text fits a frame. */
  ghost predicate Message(h: Heap, r: Ref) {
    && DumpText(h, r, DUMP_FLAGS).Some?
    && |DumpText(h, r, DUMP_FLAGS).value| <= RAW_PACKET_BUFFER_MAX - HEAD
  }

  /** What the server makes of a message: the document, unless there is a NUL in one of its strings. */
  ghost function Delivered(h: Heap, r: Ref): Option<Json> {
    match Unfold(h, r, false, {})
    case Some(v) => if StringsNulFree(v) then Some(v) else None
    case None => None
  }

  /** A message that arrives is the document that was sent, or has a NUL: its text is too short for the parser's depth limit. */
  lemma MessageLoads(h: Heap, r: Ref)
    requires JsonSorting.HeapWellFormed(h) && Message(h, r)
    ensures Document(PacketOf(h, r, PACKET_TYPE_UNENCRY)) == Delivered(h, r)
  {
    hide ParseJson, DumpTree, Unfold, Height, StringsNulFree, JsonRoundTrip.AsRead;
    var v := Unfold(h, r, false, {}).value;
    JsonRoundTrip.AsReadIsSame(v, LOAD_FLAGS);
    JsonSorting.GraphRoundTrip(h, r, DUMP_FLAGS, LOAD_FLAGS);
    NestingCosts(v, DUMP_FLAGS, 0);
    RootIsContainer(h, r);
  }

  lemma RootIsContainer(h: Heap, r: Ref)
    requires DumpText(h, r, DUMP_FLAGS).Some?
    ensures Unfold(h, r, false, {}).Some? && Unfold(h, r, false, {}).value.IsContainer()
    ensures DumpText(h, r, DUMP_FLAGS) == DumpTree(Unfold(h, r, false, {}).value, DUMP_FLAGS, 0, false)
  {
  }

  /** The packets of some documents, as they are sent. */
  ghost function Packed(h: Heap, rs: seq<Ref>): (ps: seq<Packet>)
    ensures |ps| == |rs|
    ensures forall i :: 0 <= i < |rs| ==> ps[i] == PacketOf(h, rs[i], PACKET_TYPE_UNENCRY)
  {
    seq(|rs|, i requires 0 <= i < |rs| => PacketOf(h, rs[i], PACKET_TYPE_UNENCRY))
  }

  lemma MessageFits(h: Heap, r: Ref)
    requires Message(h, r)
    ensures |PacketOf(h, r, PACKET_TYPE_UNENCRY).payload| <= RAW_PACKET_BUFFER_MAX - HEAD
  {
    hide DumpText, Unfold;
  }

  /**
   Documents sent one after the other over a connection, cut into any reads: the server dispatches
   one packet for each, in order, and loads from it the document that was sent, unless that has a
   NUL in its strings.
   */
  lemma DocumentsArrive(h: Heap, rs: seq<Ref>, chunks: seq<Text>)
    requires JsonSorting.HeapWellFormed(h) && forall i :: 0 <= i < |rs| ==> Message(h, rs[i])
    requires Sendable(Packed(h, rs))
    requires C.Legal(C.NEW_CONN, chunks) && C.Concat(chunks) == Stream(Packed(h, rs))
    ensures var end := C.Run(C.NEW_CONN, chunks);
      && end.open && end.rest == [] && |end.dispatched| == |rs|
      && forall i :: 0 <= i < |rs| ==> Document(end.dispatched[i]) == Delivered(h, rs[i])
  {
    hide Document, PacketOf, Message, Delivered, JsonSorting.HeapWellFormed, Packed;
    var ps := Packed(h, rs);
    forall i | 0 <= i < |rs| ensures |ps[i].payload| <= RAW_PACKET_BUFFER_MAX - HEAD {
      MessageFits(h, rs[i]);
    }
    assert ps[..|ps|] == ps;
    C.ShortFramesArrive(ps, chunks);
    forall i | 0 <= i < |rs| ensures Document(ps[i]) == Delivered(h, rs[i]) {
      MessageLoads(h, rs[i]);
    }
  }

  // ---- A response, byte by byte ----

  /** Characters that are written as they are. */
  predicate Plain(s: Text) {
    forall i :: 0 <= i < |s| ==> 0x20 <= s[i] < 0x7F && s[i] != 0x22 && s[i] != 0x5C
  }

  lemma {:induction false} PlainBody(s: Text, run: Text)
    requires Plain(s)
    ensures StringBody(s, run, DUMP_FLAGS) == Written(true, run + s + [0x22])
    decreases |s|
  {
    StringBodyStep(s, run, DUMP_FLAGS);
    if s == [] {
      assert run + s == run;
    } else {
      PlainBody(s[1..], run + s[..1]);
      assert run + s[..1] + s[1..] == run + s;
    }
  }

  lemma PlainText(s: Text)
    requires Plain(s)
    ensures StringText(s, DUMP_FLAGS) == Written(true, [0x22] + s + [0x22])
  {
    PlainBody(s, []);
    assert [] + s + [0x22] == s + [0x22];
  }

  const METHOD: Text := [0x6D, 0x65, 0x74, 0x68, 0x6F, 0x64]
  const NULL: Text := [0x6E, 0x75, 0x6C, 0x6C]
  const ERRNO: Text := [0x65, 0x72, 0x72, 0x6E, 0x6F]

  /** The answer to a request with a method that there is not. */
  function NotFound(err: int): Json {
    Object([Pair(METHOD, String(NULL)), Pair(ERRNO, Integer(err))])
  }

  lemma LastField(key: Text, v: Json, t: Text)
    requires Plain(key) && DumpTree(v, DUMP_FLAGS, 1, false) == Some(t)
    ensures DumpFields([Pair(key, v)], DUMP_FLAGS, 0) == Some([0x22] + key + [0x22, 0x3A, 0x20] + t)
  {
    hide StringText, DumpTree;
    PlainText(key);
    var fields := [Pair(key, v)];
    assert fields[1..] == [] && DumpFields(fields[1..], DUMP_FLAGS, 0) == Some([]);
    var text := [0x22] + key + [0x22] + [0x3A, 0x20] + t + [] + [];
    assert DumpFields(fields, DUMP_FLAGS, 0) == Some(text);
    assert text == [0x22] + key + [0x22, 0x3A, 0x20] + t;
  }

  lemma FirstField(key: Text, v: Json, t: Text, rest: seq<Pair<Json>>, u: Text)
    requires Plain(key) && DumpTree(v, DUMP_FLAGS, 1, false) == Some(t)
    requires rest != [] && DumpFields(rest, DUMP_FLAGS, 0) == Some(u)
    ensures DumpFields([Pair(key, v)] + rest, DUMP_FLAGS, 0) == Some([0x22] + key + [0x22, 0x3A, 0x20] + t + [0x2C, 0x20] + u)
  {
    hide StringText, DumpTree;
    PlainText(key);
    var fields := [Pair(key, v)] + rest;
    assert fields[1..] == rest;
    var text := [0x22] + key + [0x22] + [0x3A, 0x20] + t + ([0x2C] + [0x20]) + u;
    assert DumpFields(fields, DUMP_FLAGS, 0) == Some(text);
    assert text == [0x22] + key + [0x22, 0x3A, 0x20] + t + [0x2C, 0x20] + u;
  }

  lemma Regroup(a: Text, b: Text, c: Text, d: Text)
    ensures [0x7B] + [] + ([0x22] + a + [0x22, 0x3A, 0x20] + ([0x22] + b + [0x22]) + [0x2C, 0x20] + ([0x22] + c + [0x22, 0x3A, 0x20] + d)) + [0x7D] ==
      [0x7B, 0x22] + a + [0x22, 0x3A, 0x20, 0x22] + b + [0x22, 0x2C, 0x20, 0x22] + c + [0x22, 0x3A, 0x20] + d + [0x7D]
  {
  }

  /** {"method": "null", "errno": and the number */
  lemma NotFoundIs(err: int)
    ensures DumpTree(NotFound(err), DUMP_FLAGS, 0, false) ==
      Some([0x7B, 0x22] + METHOD + [0x22, 0x3A, 0x20, 0x22] + NULL + [0x22, 0x2C, 0x20, 0x22] + ERRNO + [0x22, 0x3A, 0x20] + Decimal(err) + [0x7D])
  {
    hide StringText, DumpFields, Decimal;
    PlainText(NULL);
    LastField(ERRNO, Integer(err), Decimal(err));
    var u := [0x22] + ERRNO + [0x22, 0x3A, 0x20] + Decimal(err);
    FirstField(METHOD, String(NULL), [0x22] + NULL + [0x22], [Pair(ERRNO, Integer(err))], u);
    var fields := [Pair(METHOD, String(NULL)), Pair(ERRNO, Integer(err))];
    assert [Pair(METHOD, String(NULL))] + [Pair(ERRNO, Integer(err))] == fields;
    var inner := [0x22] + METHOD + [0x22, 0x3A, 0x20] + ([0x22] + NULL + [0x22]) + [0x2C, 0x20] + u;
    var text := [0x7B] + [] + inner + [0x7D];
    assert DumpTree(NotFound(err), DUMP_FLAGS, 0, false) == Some(text);
    hide DumpTree;
    Regroup(METHOD, NULL, ERRNO, Decimal(err));
  }
}
