/**
 A client connection of server.c: a bounded buffer that is filled by reads of any size and
 emptied packet by packet. What gets dispatched is decided by the bytes alone, not by the reads.
 */
module Connection {
  import opened Bytes
  import opened Framing
  import Crc32

  // ---- The connection as a state machine over its reads ----

  /** The bytes not yet dispatched, the calls of dispatch_packet, and whether the client is still connected. */
  datatype Conn = Conn(rest: Text, dispatched: seq<Packet>, open: bool)

  const NEW_CONN := Conn([], [], true)

  /** The size that client_socket asks read() for. */
  function Capacity(c: Conn): int {
    SERVER_MAX_PACKETS - |c.rest| - HEAD
  }

  /** client_socket, when read() has delivered `chunk`: nothing delivered, or a bad packet, ends the connection. */
  function Receive(c: Conn, chunk: Text): Conn {
    if chunk == [] then c.(open := false)
    else
      var r := Parse(c.rest + chunk);
      Conn(r.rest, c.dispatched + r.packets, !r.bad)
  }

  /** A run over some reads. Nothing is read from a connection that has ended. */
  function Run(c: Conn, chunks: seq<Text>): Conn
    decreases |chunks|
  {
    if chunks == [] || !c.open then c else Run(Receive(c, chunks[0]), chunks[1..])
  }

  /** Every read delivers something, and no more than was asked for. */
  predicate Legal(c: Conn, chunks: seq<Text>)
    decreases |chunks|
  {
    chunks == [] || !c.open ||
    (0 < |chunks[0]| <= Capacity(c) && Legal(Receive(c, chunks[0]), chunks[1..]))
  }

  function Concat(chunks: seq<Text>): Text {
    if chunks == [] then [] else chunks[0] + Concat(chunks[1..])
  }

  ghost predicate Sound(c: Conn) {
    c.open ==> !Complete(c.rest) && Capacity(c) >= 0
  }

  lemma ParseIncomplete(s: Text)
    requires !Complete(s)
    ensures Parse(s) == Split([], s, false)
  {
  }

  /** What the fields of the first packet decide. */
  lemma ParseComplete(s: Text)
    requires Complete(s)
    ensures Parse(s) ==
      if Crc32.Crc(s[CRC_FIELD..SizeOf(s)]) != Crc32.Word(s[..CRC_FIELD]) then Split([], s, true)
      else Before([Packet(FromLe16(s[6], s[7]), s[HEAD..SizeOf(s)])], Parse(s[SizeOf(s)..]))
  {
    hide Crc32.Crc, Crc32.Word;
  }

  lemma Within(s: Text, n: nat, i: nat, j: nat)
    requires i <= j <= n <= |s|
    ensures s[..n][i..j] == s[i..j]
  {
  }

  /** After any run the connection has dispatched the packets of all bytes read, in order, up to the first bad one. */
  lemma {:induction false} RunParses(c: Conn, chunks: seq<Text>)
    requires Sound(c) && c.open && Legal(c, chunks)
    ensures var r, end := Parse(c.rest + Concat(chunks)), Run(c, chunks);
      && end.dispatched == c.dispatched + r.packets
      && end.open == !r.bad
      && (end.open ==> end.rest == r.rest)
      && Sound(end)
    decreases |chunks|
  {
    hide Complete, Checked, First, SizeOf, Parse;
    if chunks == [] {
      assert c.rest + Concat(chunks) == c.rest;
      ParseIncomplete(c.rest);
    } else {
      var s, more := c.rest + chunks[0], Concat(chunks[1..]);
      assert c.rest + Concat(chunks) == s + more;
      ParseAppend(s, more);
      var next := Receive(c, chunks[0]);
      if next.open {
        RunParses(next, chunks[1..]);
        assert c.dispatched + Parse(s).packets + Parse(next.rest + more).packets
            == c.dispatched + (Parse(s).packets + Parse(next.rest + more).packets);
      }
    }
  }

  /** How the bytes were cut into reads makes no difference. */
  lemma ChunkingDoesNotMatter(chunks: seq<Text>, others: seq<Text>)
    requires Legal(NEW_CONN, chunks) && Legal(NEW_CONN, others) && Concat(chunks) == Concat(others)
    ensures Run(NEW_CONN, chunks).dispatched == Run(NEW_CONN, others).dispatched == Parse(Concat(chunks)).packets
    ensures Run(NEW_CONN, chunks).open == Run(NEW_CONN, others).open == !Parse(Concat(chunks)).bad
  {
    hide Parse;
    assert [] + Concat(chunks) == Concat(chunks);
    RunParses(NEW_CONN, chunks);
    RunParses(NEW_CONN, others);
    assert forall ps: seq<Packet> :: [] + ps == ps;
  }

  // ---- When the buffer is full ----

  /** A packet that no buffer holds. */
  predicate TooLong(s: Text) {
    |s| >= HEAD && SizeOf(s) > RAW_PACKET_BUFFER_MAX
  }

  /** Only a packet that is too long fills the buffer, so that nothing can be asked for any more. */
  lemma FullOnlyWhenTooLong(c: Conn)
    requires Sound(c) && c.open && Capacity(c) == 0
    ensures TooLong(c.rest)
  {
  }

  /** A packet that is too long never completes: nothing is dispatched after it, and the buffer fills up. */
  lemma {:induction false} TooLongIsStuck(c: Conn, chunks: seq<Text>)
    requires Sound(c) && c.open && TooLong(c.rest) && Legal(c, chunks)
    ensures Run(c, chunks) == Conn(c.rest + Concat(chunks), c.dispatched, true)
    ensures |c.rest| + |Concat(chunks)| <= RAW_PACKET_BUFFER_MAX
    decreases |chunks|
  {
    if chunks == [] {
      assert c.rest + Concat(chunks) == c.rest;
    } else {
      var s := c.rest + chunks[0];
      assert SizeOf(s) == SizeOf(c.rest);
      ParseIncomplete(s);
      TooLongIsStuck(Receive(c, chunks[0]), chunks[1..]);
      assert s + Concat(chunks[1..]) == c.rest + Concat(chunks);
    }
  }

  // ---- Streams of frames ----

  /** Frames that fit the buffer. */
  ghost predicate Short(ps: seq<Packet>) {
    Sendable(ps) && forall i :: 0 <= i < |ps| ==> |ps[i].payload| <= RAW_PACKET_BUFFER_MAX - HEAD
  }

  /** What is left of a part of a stream of frames is the beginning of one of the frames. */
  lemma {:induction false} LeftOfStream(ps: seq<Packet>, s: Text)
    requires Sendable(ps) && s <= Stream(ps)
    ensures !Parse(s).bad && Parse(s).packets <= ps
    ensures Parse(s).rest != [] ==> |Parse(s).packets| < |ps| && Parse(s).rest < Frame(ps[|Parse(s).packets|])
    decreases |ps|
  {
    hide Checked, First, Frame;
    if ps != [] {
      var f := Frame(ps[0]);
      FrameIsPacket(ps[0], []);
      assert f + [] == f;
      if |s| < |f| {
        assert s < f;
        if |s| >= HEAD {
          assert SizeOf(s) == SizeOf(f);
        }
      } else {
        var t := s[|f|..];
        assert s == f + t && Stream(ps)[|f|..] == Stream(ps[1..]);
        assert t <= Stream(ps[1..]);
        FrameIsPacket(ps[0], t);
        LeftOfStream(ps[1..], t);
        assert ps == [ps[0]] + ps[1..];
      }
    }
  }

  /**
   Frames that fit the buffer are dispatched one by one and in order, however they are cut into
   reads, and on the way there is always room to read more.
   */
  lemma ShortFramesArrive(ps: seq<Packet>, chunks: seq<Text>)
    requires Short(ps) && Legal(NEW_CONN, chunks) && Concat(chunks) <= Stream(ps)
    ensures var end := Run(NEW_CONN, chunks);
      end.open && end.dispatched <= ps && Capacity(end) > 0
    ensures Concat(chunks) == Stream(ps) ==> Run(NEW_CONN, chunks) == Conn([], ps, true)
  {
    hide Frame, First, Checked, Parse;
    var s := Concat(chunks);
    assert [] + s == s && forall qs: seq<Packet> :: [] + qs == qs;
    RunParses(NEW_CONN, chunks);
    LeftOfStream(ps, s);
    var end := Run(NEW_CONN, chunks);
    assert end.rest != [] ==> |end.rest| < |Frame(ps[|end.dispatched|])|;
    StreamParses(ps, []);
    assert Stream(ps) + [] == Stream(ps) && ps + [] == ps;
    ParseIncomplete([]);
  }

  /** A text that fits the buffer can be read at once. */
  lemma OneRead(s: Text) returns (chunks: seq<Text>)
    requires 0 < |s| <= RAW_PACKET_BUFFER_MAX
    ensures Legal(NEW_CONN, chunks) && Concat(chunks) == s
  {
    chunks := [s];
    assert chunks[0] == s && chunks[1..] == [];
    assert Concat(chunks) == s + Concat([]) == s;
    assert Legal(Receive(NEW_CONN, s), []);
  }

  /**
   The sender may fill RAW_PACKET_BUFFER_MAX bytes with one payload, but the receiver takes a frame
   only if its header fits that limit too: some reads deliver the frame exactly in that case.
   */
  lemma FrameArrivesIffShort(p: Packet)
    requires p.kind < 0x10000 && |p.payload| < 0x10000
    ensures (exists chunks :: Legal(NEW_CONN, chunks) && Concat(chunks) == Frame(p)) <==> |p.payload| <= 4080
  {
    hide Frame;
    if |p.payload| <= RAW_PACKET_BUFFER_MAX - HEAD {
      var chunks := OneRead(Frame(p));
    } else {
      forall chunks | Legal(NEW_CONN, chunks) ensures Concat(chunks) != Frame(p) {
        LongFrameHasNoRun(p, NEW_CONN, chunks, Frame(p));
      }
    }
  }

  /** No reads deliver the whole of a frame that is too long, from any point inside it on. */
  lemma {:induction false} LongFrameHasNoRun(p: Packet, c: Conn, chunks: seq<Text>, left: Text)
    requires p.kind < 0x10000 && RAW_PACKET_BUFFER_MAX - HEAD < |p.payload| < 0x10000
    requires c.open && c.rest + left == Frame(p) && Capacity(c) >= 0
    requires Legal(c, chunks)
    ensures Concat(chunks) != left
    decreases |chunks|
  {
    hide Frame, Checked, First;
    if chunks != [] && Concat(chunks) == left {
      var s := c.rest + chunks[0];
      assert s + Concat(chunks[1..]) == Frame(p);
      assert s <= Frame(p);
      FrameIsPacket(p, []);
      assert Frame(p) + [] == Frame(p);
      if |s| >= HEAD {
        assert SizeOf(s) == SizeOf(Frame(p));
      }
      ParseIncomplete(s);
      LongFrameHasNoRun(p, Receive(c, chunks[0]), chunks[1..], Concat(chunks[1..]));
    }
  }

  // ---- The connection itself ----

  /** struct client, as far as its socket goes. */
  class Client {
    const buffer: array<Byte>
    var bufferOffset: nat
    /** The calls of dispatch_packet, in order. */
    var dispatched: seq<Packet>
    var connected: bool

    ghost predicate Valid()
      reads this, buffer
    {
      && buffer.Length == SERVER_MAX_PACKETS
      && bufferOffset <= RAW_PACKET_BUFFER_MAX
    }

    ghost function State(): Conn
      reads this, buffer
      requires Valid()
    {
      Conn(buffer[..bufferOffset], dispatched, connected)
    }

    /** The part of accept_new_client that sets up the buffer. */
    constructor ()
      ensures Valid() && State() == NEW_CONN && fresh(buffer)
    {
      buffer := new Byte[SERVER_MAX_PACKETS](_ => 0);
      bufferOffset, dispatched, connected := 0, [], true;
    }

    /** memcpy of the bytes behind the first packet to the front of the buffer. */
    method Shift(size: nat)
      requires Valid() && size <= bufferOffset
      modifies buffer, this`bufferOffset
      ensures Valid() && buffer[..bufferOffset] == old(buffer[size..bufferOffset])
    {
      bufferOffset := bufferOffset - size;
      for i := 0 to bufferOffset
        modifies buffer
        invariant forall k :: 0 <= k < i ==> buffer[k] == old(buffer[k + size])
        invariant forall k :: i <= k < buffer.Length ==> buffer[k] == old(buffer[k])
      {
        buffer[i] := buffer[i + size];
      }
    }

    /** try_make_net_packet */
    method TryMakeNetPacket() returns (ret: int)
      requires Valid()
      modifies this`bufferOffset, this`dispatched, buffer
      ensures Valid() && bufferOffset <= old(bufferOffset)
      ensures var r := Parse(old(buffer[..bufferOffset]));
        && buffer[..bufferOffset] == r.rest
        && dispatched == old(dispatched) + r.packets
        && ret == if r.bad then -1 else 0
      decreases bufferOffset
    {
      hide Crc32.Crc, Crc32.Word, Parse, Checked, First;
      ghost var s, was := buffer[..bufferOffset], dispatched;
      if bufferOffset < HEAD {
        ParseIncomplete(s);
        return 0;
      }
      var size := HEAD + FromLe16(buffer[4], buffer[5]);
      assert size == SizeOf(s);
      if bufferOffset < size {
        ParseIncomplete(s);
        return 0;
      }
      ParseComplete(s);
      Within(buffer[..], bufferOffset, 0, CRC_FIELD);
      Within(buffer[..], bufferOffset, CRC_FIELD, size);
      Within(buffer[..], bufferOffset, HEAD, size);
      Within(buffer[..], bufferOffset, size, bufferOffset);
      var crc := Crc32.Classic(buffer[CRC_FIELD..size]);
      if crc != Crc32.Word(buffer[..CRC_FIELD]) {
        return -1;
      }
      var packet := Packet(FromLe16(buffer[6], buffer[7]), buffer[HEAD..size]);
      dispatched := dispatched + [packet];
      ghost var r := Parse(s[size..]);
      assert was + [packet] + r.packets == was + ([packet] + r.packets);
      Shift(size);
      if bufferOffset > 0 {
        ret := TryMakeNetPacket();
      } else {
        ParseIncomplete([]);
        ret := 0;
      }
    }

    /** client_socket on EPOLLIN, when read() puts `chunk` behind the bytes in the buffer; no bytes stand for a result of 0 or less. */
    method ClientSocket(chunk: Text)
      requires Valid() && connected && |chunk| <= buffer.Length - bufferOffset - HEAD
      modifies this, buffer
      ensures Valid() && State() == Receive(old(State()), chunk)
    {
      hide Parse;
      if |chunk| == 0 {
        connected := false;
        return;
      }
      Read(chunk);
      var ret := TryMakeNetPacket();
      if ret < 0 {
        connected := false;
      }
    }

    /** What read() does to the buffer. */
    method Read(chunk: Text)
      requires Valid() && |chunk| <= buffer.Length - bufferOffset - HEAD
      modifies this`bufferOffset, buffer
      ensures Valid() && buffer[..bufferOffset] == old(buffer[..bufferOffset]) + chunk
    {
      for i := 0 to |chunk|
        modifies buffer
        invariant buffer[..bufferOffset + i] == old(buffer[..bufferOffset]) + chunk[..i]
      {
        buffer[bufferOffset + i] := chunk[i];
        assert buffer[..bufferOffset + i + 1] == buffer[..bufferOffset + i] + [chunk[i]];
      }
      bufferOffset := bufferOffset + |chunk|;
      assert chunk[..|chunk|] == chunk;
    }
  }

  /** Serves a connection until its reads are over or it ends. */
  method Serve(chunks: seq<Text>) returns (dispatched: seq<Packet>, open: bool)
    requires Legal(NEW_CONN, chunks)
    ensures dispatched == Parse(Concat(chunks)).packets && open == !Parse(Concat(chunks)).bad
  {
    hide Parse, Receive;
    var client := new Client();
    ghost var end := Run(NEW_CONN, chunks);
    var i := 0;
    while i < |chunks| && client.connected
      invariant i <= |chunks| && client.Valid() && fresh(client) && fresh(client.buffer)
      invariant Legal(client.State(), chunks[i..]) && Run(client.State(), chunks[i..]) == end
    {
      assert chunks[i..][0] == chunks[i] && chunks[i..][1..] == chunks[i + 1..];
      client.ClientSocket(chunks[i]);
      i := i + 1;
    }
    ChunkingDoesNotMatter(chunks, chunks);
    return client.dispatched, client.connected;
  }
}
