/**
 The packet format of packet.h, as a stream of bytes: what a receiver with an unlimited buffer
 would make of a stream, and that a stream of frames is read back as the packets it was made of.
 The header fields are little-endian, as on the hosts the server is built for.
 */
module Framing {
  import opened Bytes
  import opened Words
  import Crc32

  const SERVER_MAX_PACKETS := 4096

  /** sizeof(struct raw_packet_head) */
  const HEAD := 8

  const RAW_PACKET_BUFFER_MAX := SERVER_MAX_PACKETS - HEAD

  /** sizeof(struct crc32_raw_packet): the part of a frame that the checksum leaves out. */
  const CRC_FIELD := 4

  datatype Packet = Packet(kind: nat, payload: Text)

  // ---- Header fields ----

  function Le16(n: nat): (s: Text)
    requires n < 0x10000
    ensures |s| == 2
  {
    [n % 256, n / 256]
  }

  function FromLe16(low: Byte, high: Byte): (n: nat)
    ensures n < 0x10000
  {
    low + 256 * high
  }

  function Le32(w: bv32): (s: Text)
    ensures |s| == 4
  {
    [Crc32.Value(Crc32.Low(w)), Crc32.Value(Crc32.Low(Crc32.High(w))),
     Crc32.Value(Crc32.Low(Crc32.High(Crc32.High(w)))), Crc32.Value(Crc32.Low(Crc32.High(Crc32.High(Crc32.High(w)))))]
  }

  /** What the checksum of a frame covers. */
  function Body(kind: nat, payload: Text): (s: Text)
    requires kind < 0x10000 && |payload| < 0x10000
    ensures |s| == 4 + |payload|
  {
    Le16(|payload|) + Le16(kind) + payload
  }

  /** A frame on the wire. */
  function Frame(p: Packet): (s: Text)
    requires p.kind < 0x10000 && |p.payload| < 0x10000
    ensures |s| == HEAD + |p.payload|
  {
    Le32(Crc32.Crc(Body(p.kind, p.payload))) + Body(p.kind, p.payload)
  }

  /** sizeof_raw_packet, of the packet at the front. */
  function SizeOf(s: Text): (n: nat)
    requires |s| >= HEAD
    ensures HEAD <= n < HEAD + 0x10000
  {
    HEAD + FromLe16(s[4], s[5])
  }

  predicate Complete(s: Text) {
    |s| >= HEAD && |s| >= SizeOf(s)
  }

  /** Whether the checksum of the packet at the front is right. */
  predicate Checked(s: Text)
    requires Complete(s)
  {
    Crc32.Crc(s[CRC_FIELD..SizeOf(s)]) == Crc32.Word(s[..CRC_FIELD])
  }

  function First(s: Text): Packet
    requires Complete(s)
  {
    Packet(FromLe16(s[6], s[7]), s[HEAD..SizeOf(s)])
  }

  // ---- The stream ----

  /** The packets of a stream up to the first with a wrong checksum, and what is left. */
  datatype Split = Split(packets: seq<Packet>, rest: Text, bad: bool)

  function Parse(s: Text): (r: Split)
    ensures |r.rest| <= |s|
    ensures !r.bad ==> !Complete(r.rest)
    ensures r.bad ==> Complete(r.rest) && !Checked(r.rest)
    decreases |s|
  {
    if !Complete(s) then Split([], s, false)
    else if !Checked(s) then Split([], s, true)
    else Before([First(s)], Parse(s[SizeOf(s)..]))
  }

  function Before(packets: seq<Packet>, r: Split): Split {
    r.(packets := packets + r.packets)
  }

  /** Whether a packet is complete, its size, checksum and contents do not depend on what follows it. */
  lemma Extend(a: Text, b: Text)
    requires Complete(a)
    ensures Complete(a + b) && SizeOf(a + b) == SizeOf(a) && Checked(a + b) == Checked(a) && First(a + b) == First(a)
    ensures (a + b)[SizeOf(a)..] == a[SizeOf(a)..] + b
  {
    var n := SizeOf(a);
    assert (a + b)[CRC_FIELD..n] == a[CRC_FIELD..n];
    assert (a + b)[..CRC_FIELD] == a[..CRC_FIELD];
    assert (a + b)[HEAD..n] == a[HEAD..n];
  }

  lemma BeforeBefore(a: seq<Packet>, b: seq<Packet>, r: Split)
    ensures Before(a, Before(b, r)) == Before(a + b, r)
    ensures Before([], r) == r
  {
    assert a + (b + r.packets) == a + b + r.packets;
  }

  /** Parsing a stream in two goes: the second starts from what the first has left. */
  lemma {:induction false} ParseAppend(a: Text, b: Text)
    ensures var r := Parse(a);
      if r.bad then Parse(a + b).bad && Parse(a + b).packets == r.packets
      else Parse(a + b) == Before(r.packets, Parse(r.rest + b))
    decreases |a|
  {
    if !Complete(a) {
      BeforeBefore([], [], Parse(a + b));
    } else {
      hide Complete, Checked, SizeOf, First;
      Extend(a, b);
      if Checked(a) {
        var t := a[SizeOf(a)..];
        ParseAppend(t, b);
        BeforeBefore([First(a)], Parse(t).packets, Parse(Parse(t).rest + b));
      }
    }
  }

  // ---- Reading frames back ----

  lemma Le16Back(n: nat)
    requires n < 0x10000
    ensures FromLe16(Le16(n)[0], Le16(n)[1]) == n
  {
  }

  lemma SplitBits(w: bv32)
    ensures w == Crc32.Xor(Crc32.Wide(Crc32.Low(w)), Crc32.Up(Crc32.High(w)))
  {
  }

  lemma BitsBack(b: bv8)
    ensures Crc32.Bits(Crc32.Value(b)) == b
  {
  }

  /** Where the fields of a frame stand: the checksum of all behind it, the length and the kind, each with its lowest byte first. */
  lemma Layout(p: Packet, s: Text)
    requires p.kind < 0x10000 && |p.payload| < 0x10000 && s == Frame(p)
    ensures |s| == 8 + |p.payload|
    ensures WordOf(s[3] as bv8, s[2] as bv8, s[1] as bv8, s[0] as bv8) == Crc32.Crc(s[4..])
    ensures s[4] as int + 256 * s[5] as int == |p.payload|
    ensures s[6] as int + 256 * s[7] as int == p.kind
    ensures s[8..] == p.payload
  {
    var body := Body(p.kind, p.payload);
    var w := Crc32.Crc(body);
    LowestFirst(w);
    hide Crc32.Crc, Le32, WordOf;
    assert s[..4] == Le32(w) && s[4..] == body;
    assert body[..2] == Le16(|p.payload|) && body[2..4] == Le16(p.kind) && body[4..] == p.payload;
  }

  lemma LowestFirst(w: bv32)
    ensures var s := Le32(w); WordOf(s[3] as bv8, s[2] as bv8, s[1] as bv8, s[0] as bv8) == w
  {
    WordOfLows(w);
    BitsBack(Crc32.Low(w));
    BitsBack(Crc32.Low(Crc32.High(w)));
    BitsBack(Crc32.Low(Crc32.High(Crc32.High(w))));
    BitsBack(Crc32.Low(Crc32.High(Crc32.High(Crc32.High(w)))));
    hide Crc32.Low, Crc32.High, WordOf;
  }

  lemma WordOfLows(w: bv32)
    ensures WordOf(Crc32.Low(Crc32.High(Crc32.High(Crc32.High(w)))), Crc32.Low(Crc32.High(Crc32.High(w))),
      Crc32.Low(Crc32.High(w)), Crc32.Low(w)) == w
  {
  }

  lemma NothingLeft(w: bv32)
    ensures Crc32.High(Crc32.High(Crc32.High(Crc32.High(w)))) == 0
  {
  }

  lemma Le32Back(w: bv32)
    ensures Crc32.Word(Le32(w)) == w
  {
    hide Crc32.Low, Crc32.High, Crc32.Up, Crc32.Xor, Crc32.Wide, Crc32.Bits, Crc32.Value, Crc32.Word;
    var w1, w2, w3 := Crc32.High(w), Crc32.High(Crc32.High(w)), Crc32.High(Crc32.High(Crc32.High(w)));
    var s := Le32(w);
    SplitBits(w);
    SplitBits(w1);
    SplitBits(w2);
    SplitBits(w3);
    BitsBack(Crc32.Low(w));
    BitsBack(Crc32.Low(w1));
    BitsBack(Crc32.Low(w2));
    BitsBack(Crc32.Low(w3));
    NothingLeft(w);
    Crc32.EmptyWord();
    Crc32.WordStep(s);
    Crc32.WordStep(s[1..]);
    Crc32.WordStep(s[2..]);
    Crc32.WordStep(s[3..]);
    assert s[1..][1..] == s[2..] && s[2..][1..] == s[3..] && s[3..][1..] == [];
  }

  /** A frame is complete, passes its check and holds its packet, whatever follows. */
  lemma FrameIsPacket(p: Packet, rest: Text)
    requires p.kind < 0x10000 && |p.payload| < 0x10000
    ensures var s := Frame(p) + rest;
      Complete(s) && SizeOf(s) == HEAD + |p.payload| && Checked(s) && First(s) == p && s[SizeOf(s)..] == rest
  {
    hide Crc32.Crc, Crc32.Word, Le32, Le16, Body;
    var s, body := Frame(p) + rest, Body(p.kind, p.payload);
    FrameParts(p, rest);
    Le16Back(|p.payload|);
    Le16Back(p.kind);
    Le32Back(Crc32.Crc(body));
  }

  /** Where the parts of a frame are. */
  lemma FrameParts(p: Packet, rest: Text)
    requires p.kind < 0x10000 && |p.payload| < 0x10000
    ensures var s, body, n := Frame(p) + rest, Body(p.kind, p.payload), HEAD + |p.payload|;
      && |s| >= n && s[..CRC_FIELD] == Le32(Crc32.Crc(body)) && s[CRC_FIELD..n] == body && s[n..] == rest
      && [s[4], s[5]] == Le16(|p.payload|) && [s[6], s[7]] == Le16(p.kind) && s[HEAD..n] == p.payload
  {
    hide Crc32.Crc, Le32, Le16;
    var body := Body(p.kind, p.payload);
    var s := Frame(p) + rest;
    assert s == Le32(Crc32.Crc(body)) + (body + rest);
    assert s[4] == body[0] && s[5] == body[1] && s[6] == body[2] && s[7] == body[3];
  }

  /** Packets whose fields fit the header. */
  ghost predicate Sendable(ps: seq<Packet>) {
    forall i :: 0 <= i < |ps| ==> ps[i].kind < 0x10000 && |ps[i].payload| < 0x10000
  }

  /** The stream of some packets. */
  ghost function Stream(ps: seq<Packet>): Text
    requires Sendable(ps)
  {
    if ps == [] then [] else Frame(ps[0]) + Stream(ps[1..])
  }

  /** A stream of frames is parsed to its packets, with nothing left; so is one with anything behind it. */
  lemma {:induction false} StreamParses(ps: seq<Packet>, tail: Text)
    requires Sendable(ps)
    ensures Parse(Stream(ps) + tail) == Before(ps, Parse(tail))
  {
    hide Frame, Complete, Checked, First, SizeOf;
    if ps == [] {
      assert Stream(ps) + tail == tail;
      BeforeBefore([], [], Parse(tail));
    } else {
      var more := Stream(ps[1..]) + tail;
      assert Stream(ps) + tail == Frame(ps[0]) + more;
      FrameIsPacket(ps[0], more);
      StreamParses(ps[1..], tail);
      assert [ps[0]] + ps[1..] == ps;
      BeforeBefore([ps[0]], ps[1..], Parse(tail));
    }
  }

  lemma Parted(s: Text, k: nat)
    requires k <= |s|
    ensures s == s[..k] + s[k..|s|]
  {
  }

  /** Damage to a frame within four consecutive bytes is noticed, unless it may reach the length. */
  lemma DamageNoticed(p: Packet, damaged: Text, i: nat)
    requires p.kind < 0x10000 && |p.payload| < 0x10000
    requires |damaged| == |Frame(p)| && damaged != Frame(p) && (i == 0 || i >= 6)
    requires forall j :: 0 <= j < |damaged| && !(i <= j < i + 4) ==> damaged[j] == Frame(p)[j]
    ensures Parse(damaged) == Split([], damaged, true)
  {
    hide Crc32.Crc, Crc32.Word, Frame;
    var s := Frame(p);
    FrameIsPacket(p, []);
    assert s + [] == s;
    assert SizeOf(damaged) == SizeOf(s) == |s|;
    Parted(s, CRC_FIELD);
    Parted(damaged, CRC_FIELD);
    var field, body, field', body' := s[..CRC_FIELD], s[CRC_FIELD..|s|], damaged[..CRC_FIELD], damaged[CRC_FIELD..|s|];
    if i == 0 {
      assert body == body';
      if Crc32.Word(field) == Crc32.Word(field') {
        Crc32.WordInjective(field, field');
      }
    } else {
      assert field == field';
      Crc32.DetectsWindow(body', body, i - CRC_FIELD);
    }
    assert !Checked(damaged);
  }
}
