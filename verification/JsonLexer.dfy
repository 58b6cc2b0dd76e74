/**
 The stream, scanner and parser of jansson/load.c as they run: a buffer of one character with
 one-level unget, the saved source text of the token, and a parser that mutates the scanner
 throughout. Each method is proved against its function in JsonLoad.

 A byte is a number from 0 to 255 here also where the C code has a signed char: the two agree
 on every test that the code makes.
 */
module JsonLexer {
  import opened Bytes
  import opened Assoc
  import opened JsonValue
  import opened JsonLoad
  import L = JsonLoad
  import Utf8

  const OK := 0

  /** stream_t over the buffer of json_loadb */
  class Stream {
    const data: Text
    var pos: nat
    const buffer: array<Byte>
    var bufferPos: nat
    var state: int
    var line: int
    var column: int
    var lastColumn: int
    var position: int
    /** The end of the character in the buffer. */
    ghost var cachedEnd: nat
    ghost var src: Src

    ghost predicate Valid()
      reads this, buffer
    {
      && buffer.Length == 5 && pos <= |data|
      && (state == OK || state == EOF || state == ERROR)
      && (state == EOF ==> src == Src(0, []))
      && (state == ERROR ==> L.Get(src).c == ERROR)
      && (state == OK ==> Cached())
    }

    /** The unread input is the rest of the buffered character and the rest of the data. */
    ghost predicate Cached()
      reads this, buffer
      requires buffer.Length == 5 && pos <= |data|
    {
      && bufferPos <= cachedEnd <= 4
      && buffer[cachedEnd] == 0 && (forall i :: bufferPos <= i < cachedEnd ==> buffer[i] != 0)
      && src.rest == buffer[bufferPos..cachedEnd] + data[pos..]
      && src.mid == (if bufferPos == 0 then 0 else cachedEnd - bufferPos)
      && (cachedEnd > 0 ==> Utf8.Front(buffer[..cachedEnd]).Some? && Utf8.Front(buffer[..cachedEnd]).value.size == cachedEnd)
    }

    /** stream_init */
    constructor (input: Text)
      ensures Valid() && src == Src(0, input) && data == input && fresh(buffer)
      ensures line == 1 && column == 0 && position == 0
    {
      data := input;
      pos, bufferPos, state := 0, 0, OK;
      line, column, lastColumn, position := 1, 0, 0, 0;
      buffer := new Byte[5](_ => 0);
      cachedEnd := 0;
      src := Src(0, input);
      new;
      assert buffer[0..0] + data[0..] == input;
    }

    /** buffer_get */
    method ReadByte() returns (c: int)
      requires pos <= |data|
      modifies this`pos
      ensures if old(pos) == |data| then c == EOF && pos == old(pos)
              else c == data[old(pos)] && pos == old(pos) + 1
    {
      if pos >= |data| {
        return EOF;
      }
      c := data[pos];
      pos := pos + 1;
    }

    /** A whole character is in the buffer, of which the first `bufferPos` bytes are read. */
    ghost predicate Loaded()
      reads this, buffer
    {
      && buffer.Length == 5 && pos <= |data| && state == OK
      && bufferPos < cachedEnd <= 4 && buffer[cachedEnd] == 0
      && src.rest == buffer[bufferPos..cachedEnd] + data[pos..]
      && src.mid == (if bufferPos == 0 then 0 else cachedEnd - bufferPos)
      && Utf8.Front(buffer[..cachedEnd]).Some? && Utf8.Front(buffer[..cachedEnd]).value.size == cachedEnd
    }

    /** The part of stream_get that reads a whole character and checks it: its size, EOF or ERROR. */
    method ReadChar() returns (count: int)
      requires buffer.Length == 5 && pos <= |data|
      modifies this`pos, buffer
      ensures pos <= |data|
      ensures count == EOF <==> old(pos) == |data|
      ensures count == EOF || count == ERROR || (count == pos - old(pos) && 1 <= count <= 4)
      ensures count > 0 <==> old(pos) < |data| && Utf8.Front(data[old(pos)..]).Some?
      ensures count > 0 ==> count == Utf8.Front(data[old(pos)..]).value.size && buffer[..count] == data[old(pos)..pos]
    {
      hide Utf8.Front, Utf8.CheckFirst, Utf8.FullValue;
      ghost var start := pos;
      var c := ReadByte();
      if c == EOF {
        return EOF;
      }
      FrontSize(data[start..]);
      buffer[0] := c;
      count := Utf8.CheckFirst(c);
      if 0x80 <= c {
        if count == 0 {
          return ERROR;
        }
        var full := ReadRest(count, start);
        if !full {
          return ERROR;
        }
      }
    }

    /** The part of stream_get that fills the empty buffer. */
    method Fill() returns (ok: bool)
      requires Valid() && state == OK && bufferPos == cachedEnd
      modifies this`pos, this`bufferPos, this`state, this`cachedEnd, buffer
      ensures ok <==> L.Get(src).c >= 0
      ensures !ok ==> Valid() && state == L.Get(src).c
      ensures ok ==> Loaded() && bufferPos == 0
    {
      hide Utf8.Front;
      assert src.rest == data[pos..];
      ghost var start := pos;
      var count := ReadChar();
      if count < 0 {
        state := count;
        return false;
      }
      bufferPos := 0;
      buffer[count] := 0;
      cachedEnd := count;
      ok := true;
      assert buffer[..cachedEnd] == data[start..pos];
      assert data[start..pos] + data[pos..] == data[start..];
      assert buffer[0..cachedEnd] == buffer[..cachedEnd];
      FrontOfChar(src.rest, buffer[..cachedEnd]);
    }

    static lemma FrontSize(s: Text)
      requires s != []
      ensures Utf8.Front(s).Some? ==> Utf8.Front(s).value.size == Utf8.CheckFirst(s[0])
      ensures Utf8.CheckFirst(s[0]) == 0 ==> Utf8.Front(s).None?
      ensures Utf8.CheckFirst(s[0]) == 1 ==> Utf8.Front(s).Some?
      ensures Utf8.CheckFirst(s[0]) > 1 ==>
        (Utf8.Front(s).Some? <==> Utf8.CheckFirst(s[0]) <= |s| && Utf8.FullValue(s, Utf8.CheckFirst(s[0])).Some?)
    {
    }

    /** Reads the continuation bytes of a character and checks the whole. */
    method ReadRest(count: nat, ghost start: nat) returns (full: bool)
      requires buffer.Length == 5 && start < |data| && pos == start + 1
      requires buffer[0] == data[start] && count == Utf8.CheckFirst(data[start]) && 2 <= count <= 4
      modifies this`pos, buffer
      ensures full <==> Utf8.Front(data[start..]).Some?
      ensures full ==> pos == start + count <= |data| && buffer[..count] == data[start..pos]
      ensures pos <= |data| && Utf8.CheckFirst(data[start]) == count
    {
      hide Utf8.Front, Utf8.CheckFirst, Utf8.FullValue;
      var i := 1;
      while i < count
        invariant 1 <= i <= count
        invariant pos == if start + i <= |data| then start + i else |data|
        invariant forall k :: 0 <= k < i ==> buffer[k] == if start + k < |data| then data[start + k] else 255
      {
        var b := ReadByte();
        buffer[i] := if b == EOF then 255 else b;
        i := i + 1;
      }
      FullOfPrefix(buffer[..], data[start..], count);
      FrontSize(data[start..]);
      var value := Utf8.CheckFull(buffer[..], count);
      full := value.Some?;
    }

    /** Past the end of the data the buffer holds a byte that continues nothing. */
    static lemma FullOfPrefix(b: Text, s: Text, count: nat)
      requires s != [] && 2 <= count <= 4 <= |b|
      requires forall k :: 0 <= k < count ==> b[k] == if k < |s| then s[k] else 255
      ensures Utf8.FullValue(b, count).Some? <==> count <= |s| && Utf8.FullValue(s, count).Some?
    {
      if count <= |s| {
        SameFold(b, s, count, count);
        assert forall i :: 1 <= i < count ==> Utf8.IsContinuation(b[i]) == Utf8.IsContinuation(s[i]);
      } else {
        assert !Utf8.IsContinuation(b[count - 1]);
      }
    }

    static lemma {:induction false} SameFold(b: Text, s: Text, count: nat, n: nat)
      requires 2 <= count <= 4 && 1 <= n <= count <= |s| && count <= |b|
      requires forall k :: 0 <= k < count ==> b[k] == s[k]
      ensures Utf8.FoldBits(b, count, n) == Utf8.FoldBits(s, count, n)
    {
      if n > 1 {
        SameFold(b, s, count, n - 1);
      }
    }

    /** Every byte of a character but a one-byte one is at least 0x80. */
    static lemma CharBytes(s: Text)
      requires s != [] && Utf8.Front(s).Some?
      ensures var n := Utf8.Front(s).value.size;
        n == 1 || forall i :: 0 <= i < n ==> s[i] >= 0x80
    {
      var n := Utf8.CheckFirst(s[0]);
      if n >= 2 {
        assert forall i :: 1 <= i < n ==> Utf8.IsContinuation(s[i]);
      }
    }

    /** The part of stream_get that delivers the next byte of the buffered character. */
    method Advance() returns (c: Byte)
      requires Loaded()
      modifies this`bufferPos, this`src, this`position, this`line, this`column, this`lastColumn
      ensures Valid() && state == OK
      ensures L.Get(old(src)) == Got(c, src)
      ensures bufferPos == old(bufferPos) + 1 && buffer[bufferPos - 1] == c
      ensures c < 0x80 ==> old(bufferPos) == 0 && cachedEnd == 1
      ensures position == old(position) + 1
      ensures line == old(line) + (if c == NEWLINE then 1 else 0)
      ensures c == NEWLINE ==> column == 0 && lastColumn == old(column)
      ensures c != NEWLINE ==> column == old(column) + (if Utf8.CheckFirst(c) > 0 then 1 else 0)
    {
      hide L.Get, Utf8.Front, Utf8.CheckFirst;
      LoadedGet(src, buffer[..cachedEnd], bufferPos, data[pos..]);
      assert buffer[..cachedEnd][bufferPos..] == buffer[bufferPos..cachedEnd];
      assert buffer[bufferPos..cachedEnd][1..] == buffer[bufferPos + 1..cachedEnd];
      assert forall i :: 0 <= i < cachedEnd ==> buffer[i] == buffer[..cachedEnd][i];
      c := buffer[bufferPos];
      bufferPos := bufferPos + 1;
      src := L.Get(src).src;
      Count(c);
    }

    /** The counting of stream_get. */
    method Count(c: Byte)
      modifies this`position, this`line, this`column, this`lastColumn
      ensures position == old(position) + 1
      ensures line == old(line) + (if c == NEWLINE then 1 else 0)
      ensures c == NEWLINE ==> column == 0 && lastColumn == old(column)
      ensures c != NEWLINE ==> column == old(column) + (if Utf8.CheckFirst(c) > 0 then 1 else 0)
    {
      hide Utf8.CheckFirst;
      position := position + 1;
      if c == NEWLINE {
        line := line + 1;
        lastColumn := column;
        column := 0;
      } else if Utf8.CheckFirst(c) > 0 {
        column := column + 1;
      }
    }

    /** Reading the byte at position `at` of a character, in front of the rest of the data. */
    static lemma LoadedGet(s: Src, ch: Text, at: nat, rest: Text)
      requires at < |ch| && Utf8.Front(ch).Some? && Utf8.Front(ch).value.size == |ch|
      requires s == Src(if at == 0 then 0 else |ch| - at, ch[at..] + rest)
      ensures L.Get(s) == Got(ch[at], Src(|ch| - at - 1, ch[at..][1..] + rest))
      ensures |ch| == 1 || forall i :: 0 <= i < |ch| ==> ch[i] >= 0x80
    {
      CharBytes(ch);
      assert (ch[at..] + rest)[1..] == ch[at..][1..] + rest;
      if at == 0 {
        Utf8.FrontPrefix(ch, rest);
        assert ch[0..] == ch;
      }
    }

    /** stream_get */
    method Get() returns (c: int)
      requires Valid()
      modifies this, buffer
      ensures Valid()
      ensures L.Get(old(src)) == Got(c, src)
      ensures c >= 0 ==> state == OK && bufferPos >= 1 && buffer[bufferPos - 1] == c
      ensures c >= 0 && old(src.mid) == 0 ==> bufferPos == 1
      ensures 0 <= c < 0x80 ==> old(src.mid) == 0 && src.mid == 0
      ensures c < 0 ==> position == old(position) && line == old(line) && column == old(column)
      ensures c >= 0 ==> position == old(position) + 1
      ensures c >= 0 ==> line == old(line) + (if c == NEWLINE then 1 else 0)
      ensures c == NEWLINE ==> column == 0 && lastColumn == old(column)
      ensures c >= 0 && c != NEWLINE ==> column == old(column) + (if Utf8.CheckFirst(c) > 0 then 1 else 0)
    {
      hide L.Get, Utf8.Front, Utf8.CheckFirst;
      if state != OK {
        GetAgain(src);
        return state;
      }
      if buffer[bufferPos] == 0 {
        var ok := Fill();
        if !ok {
          return state;
        }
      }
      c := Advance();
    }

    /** A stream that is at its end or in error stays there. */
    static lemma GetAgain(s: Src)
      ensures L.Get(Src(0, [])) == Got(EOF, Src(0, []))
      ensures L.Get(s).c < 0 ==> L.Get(s).src == s
    {
    }

    static lemma FrontOfChar(s: Text, ch: Text)
      requires s != [] && Utf8.Front(s).Some? && |ch| == Utf8.Front(s).value.size && ch <= s
      ensures Utf8.Front(ch) == Utf8.Front(s)
    {
      Utf8.EncodeOfFront(s);
      assert ch == s[..|ch|];
      Utf8.FrontOfEncode(Utf8.Front(s).value.codepoint, []);
      assert ch + [] == ch;
    }

    /** What a byte that is read from the start of a character leaves. */
    static lemma GotByte(before: Src, c: int, after: Src)
      requires L.Get(before) == Got(c, after) && before.mid == 0
      ensures c >= 0 ==> before.rest == [c] + after.rest
      ensures c == 0 ==> after.mid == 0
      ensures L.Unread(before) == if c == 0 then after else before
      ensures c < 0 ==> before == after
    {
    }

    /** stream_unget, which only ever takes back the first byte of a character */
    method Unget(c: int, ghost before: Src)
      requires Valid()
      requires L.Get(before) == Got(c, src) && before.mid == 0
      requires c >= 0 ==> state == OK && bufferPos == 1 && buffer[0] == c
      modifies this
      ensures Valid() && src == L.Unread(before) && src.mid == 0
      ensures c < 0 ==> position == old(position) && line == old(line) && column == old(column)
      ensures c >= 0 ==> position == old(position) - 1
      ensures c >= 0 ==> line == old(line) - (if c == NEWLINE then 1 else 0)
      ensures c == NEWLINE ==> column == old(lastColumn)
      ensures c >= 0 && c != NEWLINE ==> column == old(column) - (if Utf8.CheckFirst(c) > 0 then 1 else 0)
    {
      hide L.Get, L.Unread, Utf8.Front, Utf8.CheckFirst;
      GotByte(before, c, src);
      if c == EOF || c == ERROR {
        return;
      }
      position := position - 1;
      if c == NEWLINE {
        line := line - 1;
        column := lastColumn;
      } else if Utf8.CheckFirst(c) > 0 {
        column := column - 1;
      }
      bufferPos := bufferPos - 1;
      if c == 0 {
        assert src.rest == [] + data[pos..];
        cachedEnd := 0;
      } else {
        src := before;
        assert buffer[0..cachedEnd] == [c] + buffer[1..cachedEnd];
      }
    }
  }

  /** The byte that lex_get_save saved, if it read one. */
  ghost function Kept(c: int): Text
    requires c == EOF || c == ERROR || 0 <= c < 256
  {
    if c >= 0 then [c] else []
  }

  /** lex_t */
  class Lexer {
    const stream: Stream
    const flags: LoadFlags
    var saved: Text
    var token: Token
    var depth: nat

    ghost predicate Valid()
      reads this, stream, stream.buffer
    {
      stream.Valid()
    }

    /** A token is scanned, and so is the character that ends it. */
    ghost predicate Ready()
      reads this, stream, stream.buffer
    {
      Valid() && (token != TInvalid ==> stream.src.mid == 0)
    }

    /** The token and the stream are those of the specification; after an invalid token the stream is not used. */
    ghost predicate Agrees(s: Scanned)
      reads this, stream
    {
      token == s.token && (token != TInvalid ==> stream.src == s.src)
    }

    /** lex_init */
    constructor (input: Text, f: LoadFlags)
      ensures Ready() && fresh(stream) && fresh(stream.buffer)
      ensures stream.src == Src(0, input) && flags == f && depth == 0
    {
      stream := new Stream(input);
      flags, saved, token, depth := f, [], TInvalid, 0;
    }

    /** lex_get_save */
    method GetSave() returns (c: int)
      requires Valid()
      modifies this`saved, stream, stream.buffer
      ensures Valid() && L.Get(old(stream.src)) == Got(c, stream.src)
      ensures saved == old(saved) + Kept(c)
      ensures c >= 0 && old(stream.src.mid) == 0 ==> stream.state == OK && stream.bufferPos == 1 && stream.buffer[0] == c
      ensures 0 <= c < 0x80 ==> old(stream.src.mid) == 0 && stream.src.mid == 0
    {
      hide L.Get, Stream.Cached, Utf8.Front, Utf8.CheckFirst;
      c := stream.Get();
      if c >= 0 {
        saved := saved + [c];
      }
    }

    /** lex_unget_unsave */
    method UngetUnsave(c: int, ghost before: Src)
      requires Valid() && L.Get(before) == Got(c, stream.src) && before.mid == 0
      requires c >= 0 ==> stream.state == OK && stream.bufferPos == 1 && stream.buffer[0] == c && saved != []
      modifies this`saved, stream
      ensures Valid() && stream.src == L.Unread(before) && stream.src.mid == 0
      ensures saved == if c >= 0 then old(saved)[..|old(saved)| - 1] else old(saved)
    {
      stream.Unget(c, before);
      if c >= 0 {
        saved := saved[..|saved| - 1];
      }
    }

    // ---- Strings ----

    /** What follows the backslash of an escape. */
    static ghost function EscapeTail(s: Src): Option<Taken> {
      var e := L.Get(s);
      if e.c == 'u' as int then L.Prepend(['u' as int], L.TakeHex(e.src, 4))
      else if L.IsShortEscape(e.c) then Some(Taken([e.c], e.src))
      else None
    }

    /** The part of the first pass after a backslash. */
    method TakeEscape() returns (ok: bool)
      requires Valid()
      modifies this`saved, stream, stream.buffer
      ensures Valid() && ok == EscapeTail(old(stream.src)).Some?
      ensures ok ==> stream.src == EscapeTail(old(stream.src)).value.src
      ensures ok ==> saved == old(saved) + EscapeTail(old(stream.src)).value.text
    {
      hide L.Get, L.TakeHex;
      var c := GetSave();
      if c == 'u' as int {
        ok := SkipHex();
      } else {
        ok := c == QUOTE || c == BACKSLASH || c == SLASH || c == 'b' as int ||
              c == 'f' as int || c == 'n' as int || c == 'r' as int || c == 't' as int;
      }
    }

    /** The first pass of lex_scan_string. */
    method TakeLiteral() returns (ok: bool)
      requires Valid()
      modifies this`saved, stream, stream.buffer
      ensures Valid()
      ensures ok == L.TakeLiteral(old(stream.src)).Some?
      ensures ok ==> old(saved) <= saved && stream.src.mid == 0
      ensures ok ==> L.TakeLiteral(old(stream.src)) == Some(Taken(saved[|old(saved)|..], stream.src))
    {
      hide Valid, Stream.Valid, Stream.Cached, L.Get, L.TakeHex, L.TakeLiteral, L.Prepend, EscapeTail, L.IsShortEscape, L.IsHexDigit;
      ghost var goal := L.TakeLiteral(stream.src);
      ghost var start := saved;
      ghost var before: Src, taken: Text := stream.src, [];
      PrependMore([], [], goal);
      var c := GetSave();
      while c != QUOTE
        invariant Valid() && L.Get(before) == Got(c, stream.src)
        invariant 0 <= c < 0x80 ==> stream.src.mid == 0
        invariant saved == start + taken + Kept(c)
        invariant goal == L.Prepend(taken, L.TakeLiteral(before))
        decreases |before.rest|
      {
        LiteralStep(before);
        PrependTaken(taken, [], before);
        if c == ERROR || c == EOF {
          return false;
        } else if c <= 0x1F {
          return false;
        }
        ghost var piece := [c];
        if c == BACKSLASH {
          ghost var first := stream.src;
          var escape := TakeEscape();
          if !escape {
            return false;
          }
          piece := [c] + EscapeTail(first).value.text;
        }
        PrependMore(taken, piece, L.TakeLiteral(stream.src));
        before := stream.src;
        taken := taken + piece;
        assert saved == start + taken;
        c := GetSave();
      }
      LiteralStep(before);
      PrependTaken(taken, [QUOTE], stream.src);
      assert saved[|start|..] == taken + [QUOTE];
      ok := true;
    }

    /** One turn of the first pass. */
    static lemma LiteralStep(s: Src)
      ensures var g := L.Get(s);
        L.TakeLiteral(s) ==
          if g.c == QUOTE then Some(Taken([QUOTE], g.src))
          else if g.c < 0x20 then None
          else if g.c == BACKSLASH then
            (match EscapeTail(g.src)
             case None => None
             case Some(h) => L.Prepend([BACKSLASH] + h.text, L.TakeLiteral(h.src)))
          else L.Prepend([g.c], L.TakeLiteral(g.src))
      ensures L.Get(s).c == BACKSLASH && EscapeTail(L.Get(s).src).Some? ==>
        |EscapeTail(L.Get(s).src).value.src.rest| < |s.rest|
    {
      hide L.Get, L.TakeHex, L.IsShortEscape, L.Prepend, EscapeTail;
      if L.Get(s).c == BACKSLASH {
        TailStep(L.Get(s).src);
      }
    }

    static lemma TailStep(s: Src)
      ensures var e := L.Get(s);
        EscapeTail(s) ==
          if e.c == 'u' as int then
            (match L.TakeHex(e.src, 4)
             case None => None
             case Some(h) => Some(Taken(['u' as int] + h.text, h.src)))
          else if L.IsShortEscape(e.c) then Some(Taken([e.c], e.src))
          else None
      ensures EscapeTail(s).Some? ==> |EscapeTail(s).value.src.rest| <= |s.rest|
      ensures L.Get(s).c == 'u' as int && L.TakeHex(L.Get(s).src, 4).Some? ==>
        var h := L.TakeHex(L.Get(s).src, 4).value.text;
        [BACKSLASH, 'u' as int] + h == [BACKSLASH] + (['u' as int] + h)
      ensures L.IsShortEscape(L.Get(s).c) ==> [BACKSLASH, L.Get(s).c] == [BACKSLASH] + [L.Get(s).c]
    {
      hide L.Get, L.TakeHex;
    }

    static lemma PrependTaken(taken: Text, text: Text, src: Src)
      ensures L.Prepend(taken, None) == None
      ensures L.Prepend(taken, Some(Taken(text, src))) == Some(Taken(taken + text, src))
    {
    }

    static lemma PrependMore(taken: Text, more: Text, rest: Option<Taken>)
      ensures L.Prepend(taken, L.Prepend(more, rest)) == L.Prepend(taken + more, rest)
      ensures L.Prepend([], rest) == rest
    {
      if rest.Some? {
        assert [] + rest.value.text == rest.value.text;
        assert taken + (more + rest.value.text) == taken + more + rest.value.text;
      }
    }

    /** The loop of lex_scan_string over the four digits of an escape. */
    method SkipHex() returns (ok: bool)
      requires Valid()
      modifies this`saved, stream, stream.buffer
      ensures Valid() && ok == L.TakeHex(old(stream.src), 4).Some?
      ensures ok ==> L.TakeHex(old(stream.src), 4).value.src == stream.src
      ensures ok ==> saved == old(saved) + L.TakeHex(old(stream.src), 4).value.text
    {
      hide Valid, Stream.Valid, Stream.Cached, L.Get, L.TakeHex, L.Prepend, L.IsHexDigit;
      ghost var goal, start := L.TakeHex(stream.src, 4), saved;
      var i := 0;
      ghost var taken: Text := [];
      PrependMore([], [], goal);
      while i < 4
        invariant 0 <= i <= 4 && Valid()
        invariant saved == start + taken
        invariant goal == L.Prepend(taken, L.TakeHex(stream.src, 4 - i))
      {
        HexStep(stream.src, 4 - i);
        PrependTaken(taken, [], stream.src);
        var c := GetSave();
        if !L.IsHexDigit(c) {
          return false;
        }
        HexDigitIsByte(c);
        PrependMore(taken, [c], L.TakeHex(stream.src, 3 - i));
        assert start + taken + [c] == start + (taken + [c]);
        taken := taken + [c];
        i := i + 1;
      }
      HexStep(stream.src, 1);
      PrependTaken(taken, [], stream.src);
      assert taken + [] == taken;
      ok := true;
    }

    static lemma HexDigitIsByte(c: int)
      requires L.IsHexDigit(c)
      ensures 0 <= c < 256
    {
    }

    static lemma HexStep(s: Src, n: nat)
      requires n > 0
      ensures L.TakeHex(s, 0) == Some(Taken([], s))
      ensures var g := L.Get(s);
        L.TakeHex(s, n) == if L.IsHexDigit(g.c) then L.Prepend([g.c], L.TakeHex(g.src, n - 1)) else None
    {
    }

    /** decode_unicode_escape, on four digits that the first pass has checked */
    method DecodeUnicodeEscape(p: nat) returns (value: nat)
      requires p + 5 <= |saved|
      requires L.IsHexDigit(saved[p + 1]) && L.IsHexDigit(saved[p + 2]) && L.IsHexDigit(saved[p + 3]) && L.IsHexDigit(saved[p + 4])
      ensures value == L.HexValue(saved[p + 1], saved[p + 2], saved[p + 3], saved[p + 4])
    {
      value := 0;
      var i := 1;
      while i <= 4
        invariant 1 <= i <= 5
        invariant value == (
          if i == 1 then 0
          else if i == 2 then L.HexDigitValue(saved[p + 1])
          else if i == 3 then L.HexDigitValue(saved[p + 1]) * 16 + L.HexDigitValue(saved[p + 2])
          else if i == 4 then (L.HexDigitValue(saved[p + 1]) * 16 + L.HexDigitValue(saved[p + 2])) * 16 + L.HexDigitValue(saved[p + 3])
          else L.HexValue(saved[p + 1], saved[p + 2], saved[p + 3], saved[p + 4]))
      {
        value := value * 16 + L.HexDigitValue(saved[p + i]);
        i := i + 1;
      }
    }

    /** The \uXXXX case of the second pass: one escape, or two that make a surrogate pair. */
    method UnescapeUnicode(at: nat) returns (codepoint: Option<int>, p: nat)
      requires at + 1 < |saved| && saved[at] == BACKSLASH && saved[at + 1] == 'u' as int && L.WellEscaped(saved[at..])
      ensures codepoint.None? ==> L.Decode(saved[at..]) == None
      ensures codepoint.Some? ==>
        && at + 6 <= p <= |saved| && L.WellEscaped(saved[p..]) && 0 <= codepoint.value <= 0x10FFFF
        && L.Decode(saved[at..]) == L.Cons(Utf8.Encode(codepoint.value), L.Decode(saved[p..]))
    {
      hide L.Decode, L.HexValue, Utf8.Encode;
      ghost var q := saved[at..];
      DecodeStep(q);
      assert q[2] == saved[at + 2] && q[3] == saved[at + 3] && q[4] == saved[at + 4] && q[5] == saved[at + 5];
      p := at + 1;
      var value := DecodeUnicodeEscape(p);
      p := p + 5;
      ghost var r := saved[p..];
      assert q[6..] == r;
      if L.IsHighSurrogate(value) {
        if saved[p] == BACKSLASH && saved[p + 1] == 'u' as int {
          assert r[2] == saved[p + 2] && r[3] == saved[p + 3] && r[4] == saved[p + 4] && r[5] == saved[p + 5];
          p := p + 1;
          var value2 := DecodeUnicodeEscape(p);
          p := p + 5;
          assert r[6..] == saved[p..];
          if !L.IsLowSurrogate(value2) {
            return None, p;
          }
          value := L.PairValue(value, value2);
        } else {
          return None, p;
        }
      } else if L.IsLowSurrogate(value) {
        return None, p;
      }
      return Some(value), p;
    }

    /**
     The second pass of lex_scan_string. The text is decoded into a buffer of the size of the
     source text: it never needs more, and the scan stops at the quote where the first pass did.
     */
    method DecodeSaved() returns (text: Option<Text>)
      requires saved != [] && L.WellEscaped(saved[1..])
      ensures text == L.Decode(saved[1..])
    {
      hide *;
      var t := new Byte[|saved| + 1];
      var p, j := 1, 0;
      assert t[..0] == [];
      ConsMore([], [], L.Decode(saved[1..]));
      while saved[p] != QUOTE
        invariant 1 <= p < |saved| && 0 <= j < p
        invariant L.WellEscaped(saved[p..])
        invariant L.Decode(saved[1..]) == L.Cons(t[..j], L.Decode(saved[p..]))
        decreases |saved| - p
      {
        ghost var before := t[..j];
        DecodeStep(saved[p..]);
        if saved[p] == BACKSLASH && saved[p + 1] == 'u' as int {
          var codepoint, next := UnescapeUnicode(p);
          if codepoint.None? {
            ConsMore(before, [], None);
            return None;
          }
          ConsMore(before, Utf8.Encode(codepoint.value), L.Decode(saved[next..]));
          var length := Utf8.EncodeTo(codepoint.value, t, j);
          assert t[..j + length.value] == before + Utf8.Encode(codepoint.value);
          j := j + length.value;
          p := next;
        } else if saved[p] == BACKSLASH {
          assert saved[p..][2..] == saved[p + 2..];
          ConsMore(before, [L.ShortEscapeValue(saved[p + 1])], L.Decode(saved[p + 2..]));
          p := p + 1;
          t[j] := L.ShortEscapeValue(saved[p]);
          assert t[..j + 1] == before + [L.ShortEscapeValue(saved[p])];
          j := j + 1;
          p := p + 1;
        } else {
          assert saved[p..][1..] == saved[p + 1..];
          ConsMore(before, [saved[p]], L.Decode(saved[p + 1..]));
          t[j] := saved[p];
          assert t[..j + 1] == before + [saved[p]];
          j := j + 1;
          p := p + 1;
        }
      }
      DecodeStep(saved[p..]);
      t[j] := 0;
      ConsMore(t[..j], [], Some([]));
      return Some(t[..j]);
    }

    static lemma DecodeStep(p: Text)
      requires L.WellEscaped(p)
      ensures p[0] == QUOTE ==> L.Decode(p) == Some([])
      ensures p[0] == BACKSLASH ==> |p| >= 2
      ensures p[0] == BACKSLASH && p[1] == 'u' as int ==>
        |p| >= 6 && (forall i :: 2 <= i < 6 ==> L.IsHexDigit(p[i])) && L.WellEscaped(p[6..]) &&
        var value := L.EscapeValue(p);
        var q := p[6..];
        if L.IsHighSurrogate(value) then
          (q[0] == BACKSLASH ==> |q| >= 2) &&
          if q[0] == BACKSLASH && q[1] == 'u' as int then
            |q| >= 6 && (forall i :: 2 <= i < 6 ==> L.IsHexDigit(q[i])) && L.WellEscaped(q[6..]) &&
            L.Decode(p) == (if L.IsLowSurrogate(L.EscapeValue(q))
                            then L.Cons(Utf8.Encode(L.PairValue(value, L.EscapeValue(q))), L.Decode(q[6..]))
                            else None)
          else L.Decode(p) == None
        else L.Decode(p) == (if L.IsLowSurrogate(value) then None else L.Cons(Utf8.Encode(value), L.Decode(q)))
      ensures p[0] == BACKSLASH && p[1] != 'u' as int ==>
        L.IsShortEscape(p[1]) && L.WellEscaped(p[2..]) && L.Decode(p) == L.Cons([L.ShortEscapeValue(p[1])], L.Decode(p[2..]))
      ensures p[0] != QUOTE && p[0] != BACKSLASH ==>
        L.WellEscaped(p[1..]) && L.Decode(p) == L.Cons([p[0]], L.Decode(p[1..]))
    {
      hide L.HexValue, Utf8.Encode, L.PairValue, L.ShortEscapeValue;
    }

    static lemma ConsMore(text: Text, more: Text, rest: Option<Text>)
      ensures L.Cons(text, L.Cons(more, rest)) == L.Cons(text + more, rest)
      ensures L.Cons([], rest) == rest
      ensures L.Cons(text, None) == None && L.Cons(text, Some([])) == Some(text)
    {
      assert text + [] == text;
      if rest.Some? {
        assert text + (more + rest.value) == text + more + rest.value;
        assert [] + rest.value == rest.value;
      }
    }

    /** lex_scan_string */
    method ScanString()
      requires Valid() && saved == [QUOTE]
      modifies this`saved, this`token, stream, stream.buffer
      ensures Ready() && Agrees(L.ScanString(old(stream.src)))
    {
      hide L.TakeLiteral, L.Decode, L.WellEscaped;
      token := TInvalid;
      ghost var start := stream.src;
      var ok := TakeLiteral();
      if !ok {
        return;
      }
      L.LiteralWellEscaped(start);
      var text := DecodeSaved();
      if text.Some? {
        token := TString(text.value);
      }
    }

    // ---- Numbers ----

    /**
     "do c = lex_get_save(lex) while l_isdigit(c)", after a first digit: takes the run of digits
     that starts with it and reads one byte more.
     */
    method SaveDigits(first: int, ghost at: Src) returns (c: int)
      requires Ahead(at, first) && IsDigit(first) && saved != [] && saved[|saved| - 1] == first
      modifies this`saved, stream, stream.buffer
      ensures Ahead(L.TakeDigits(at).src, c) && !IsDigit(c)
      ensures saved == old(saved)[..|old(saved)| - 1] + L.TakeDigits(at).text + Kept(c)
    {
      hide Valid, Stream.Valid, Stream.Cached, L.Get, L.TakeDigits;
      ghost var start := saved[..|saved| - 1];
      ghost var before, taken := stream.src, [first];
      ghost var goal := L.TakeDigits(at);
      DigitsStep(at);
      c := Next();
      while IsDigit(c)
        invariant Ahead(before, c)
        invariant saved == start + taken + Kept(c)
        invariant goal.src == L.TakeDigits(before).src
        invariant goal.text == taken + L.TakeDigits(before).text
        decreases |before.rest|
      {
        DigitsStep(before);
        before := stream.src;
        assert taken + [c] + L.TakeDigits(before).text == taken + ([c] + L.TakeDigits(before).text);
        taken := taken + [c];
        assert saved == start + taken;
        c := Next();
      }
      DigitsStep(before);
      assert taken + [] == taken;
    }

    static lemma DigitsStep(s: Src)
      ensures var g := L.Get(s);
        if IsDigit(g.c) then
          L.TakeDigits(s) == Taken([g.c] + L.TakeDigits(g.src).text, L.TakeDigits(g.src).src)
        else L.TakeDigits(s) == Taken([], s)
    {
    }

    /** A byte has been read from the start of a character at `before`. */
    ghost predicate Ahead(before: Src, c: int)
      reads this, stream, stream.buffer
    {
      && Valid() && L.Get(before) == Got(c, stream.src) && before.mid == 0
      && (0 <= c < 0x80 ==> stream.src.mid == 0)
      && (c >= 0 ==> stream.state == OK && stream.bufferPos == 1 && stream.buffer[0] == c)
    }

    /** lex_get_save at the start of a character. */
    method Next() returns (c: int)
      requires Valid() && stream.src.mid == 0
      modifies this`saved, stream, stream.buffer
      ensures Ahead(old(stream.src), c) && saved == old(saved) + Kept(c)
    {
      c := GetSave();
    }

    /**
     The integer part of lex_scan_number: the digits from `c` on, and one byte more. The text
     saved before `c` is `kept`.
     */
    method TakeInteger(first: int, ghost at: Src, ghost kept: Text) returns (ok: bool, c: int)
      requires Ahead(at, first) && saved == kept + Kept(first)
      modifies this`saved, stream, stream.buffer
      ensures Valid() && ok == L.TakeInteger(at).Some?
      ensures ok ==> Ahead(L.TakeInteger(at).value.src, c)
      ensures ok ==> saved == kept + L.TakeInteger(at).value.text + Kept(c)
    {
      hide L.Get, L.TakeDigits;
      c := first;
      if c == '0' as int {
        ghost var before := stream.src;
        c := Next();
        if IsDigit(c) {
          UngetUnsave(c, before);
          return false, c;
        }
        assert saved == kept + ['0' as int] + Kept(c);
      } else if IsDigit(c) {
        c := SaveDigits(c, at);
        assert (kept + [first])[..|kept|] == kept;
      } else {
        if c >= 0 {
          UngetUnsave(c, at);
        }
        return false, c;
      }
      ok := true;
    }

    /** The fraction of a real in lex_scan_number. */
    method TakeFraction(first: int, ghost at: Src, ghost kept: Text) returns (ok: bool, c: int)
      requires Ahead(at, first) && saved == kept + Kept(first)
      modifies this`saved, stream, stream.buffer
      ensures Valid() && ok == L.TakeFraction(at).Some?
      ensures ok ==> Ahead(L.TakeFraction(at).value.src, c)
      ensures ok ==> saved == kept + L.TakeFraction(at).value.text + Kept(c)
    {
      hide L.Get, L.TakeDigits;
      c := first;
      if c == '.' as int {
        ghost var before := stream.src;
        c := stream.Get();
        if !IsDigit(c) {
          stream.Unget(c, before);
          return false, c;
        }
        saved := saved + [c];
        c := SaveDigits(c, before);
        assert saved == kept + ['.' as int] + L.TakeDigits(before).text + Kept(c);
        assert kept + ['.' as int] + L.TakeDigits(before).text == kept + (['.' as int] + L.TakeDigits(before).text);
      } else {
        assert kept + [] == kept;
      }
      ok := true;
    }

    /** The exponent of a real in lex_scan_number. */
    method TakeExponent(first: int, ghost at: Src, ghost kept: Text) returns (ok: bool, c: int)
      requires Ahead(at, first) && saved == kept + Kept(first)
      modifies this`saved, stream, stream.buffer
      ensures Valid() && ok == L.TakeExponent(at).Some?
      ensures ok ==> Ahead(L.TakeExponent(at).value.src, c)
      ensures ok ==> saved == kept + L.TakeExponent(at).value.text + Kept(c)
    {
      hide Valid, Stream.Valid, Stream.Cached, L.Get, L.TakeDigits;
      c := first;
      if c == 'E' as int || c == 'e' as int {
        ghost var before, head := stream.src, [first];
        c := Next();
        if c == '+' as int || c == '-' as int {
          head := [first, c];
          before := stream.src;
          assert saved == kept + head;
          c := Next();
        }
        if !IsDigit(c) {
          if c >= 0 {
            UngetUnsave(c, before);
          }
          return false, c;
        }
        assert saved[..|saved| - 1] == kept + head;
        c := SaveDigits(c, before);
        assert kept + head + L.TakeDigits(before).text == kept + (head + L.TakeDigits(before).text);
      } else {
        assert kept + [] == kept;
      }
      ok := true;
    }

    /** The end of lex_scan_number for an integer, with the range check of strtoll. */
    method FinishInteger(c: int, ghost at: Src, ghost sign: Text, ghost whole: Text)
      requires Ahead(at, c) && saved == sign + whole + Kept(c) && token == TInvalid
      requires AllDigits(whole) && whole != [] && (sign == [] || sign == ['-' as int])
      modifies this`saved, this`token, stream
      ensures Ready() && stream.src == L.Unread(at)
      ensures var value := L.IntegerValue(sign != [], whole);
        token == if INT64_MIN <= value <= INT64_MAX then TInteger(value) else TInvalid
    {
      hide L.Get, L.Unread, L.IntegerValue;
      UngetUnsave(c, at);
      assert saved == sign + whole;
      SignOfText(sign, whole);
      var negative := saved[0] == '-' as int;
      var value := L.IntegerValue(negative, if negative then saved[1..] else saved);
      if value < INT64_MIN || value > INT64_MAX {
        return;
      }
      token := TInteger(value);
    }

    /** The end of lex_scan_number for a real. */
    method FinishReal(first: int, ghost at: Src, ghost kept: Text)
      requires Ahead(at, first) && saved == kept + Kept(first) && token == TInvalid
      modifies this`saved, this`token, stream, stream.buffer
      ensures Ready() && Agrees(L.ScanReal(kept, at))
    {
      hide L.Get, L.TakeFraction, L.TakeExponent, L.Unread;
      var ok, c := TakeFraction(first, at, kept);
      if !ok {
        return;
      }
      ghost var fraction := L.TakeFraction(at).value;
      ok, c := TakeExponent(c, fraction.src, kept + fraction.text);
      if !ok {
        return;
      }
      ghost var exponent := L.TakeExponent(fraction.src).value;
      UngetUnsave(c, exponent.src);
      assert saved == kept + fraction.text + exponent.text;
      token := TReal(saved);
    }

    /** lex_scan_number */
    method ScanNumber(first: int, ghost start: Src)
      requires Ahead(start, first) && (IsDigit(first) || first == '-' as int) && saved == [first]
      modifies this`saved, this`token, stream, stream.buffer
      ensures Ready() && Agrees(L.ScanNumber(start, flags))
    {
      hide L.Get, L.TakeInteger, L.ScanReal, L.Unread, L.IntegerValue;
      token := TInvalid;
      var c := first;
      ghost var at, sign: Text := start, [];
      if c == '-' as int {
        at, sign := stream.src, [first];
        c := Next();
      }
      assert saved == sign + Kept(c);
      var ok;
      ok, c := TakeInteger(c, at, sign);
      if !ok {
        return;
      }
      ghost var whole := L.TakeInteger(at).value;
      if !flags.intAsReal && c != '.' as int && c != 'E' as int && c != 'e' as int {
        FinishInteger(c, whole.src, sign, whole.text);
      } else {
        FinishReal(c, whole.src, sign + whole.text);
      }
    }

    static lemma SignOfText(sign: Text, digits: Text)
      requires AllDigits(digits) && digits != []
      requires sign == [] || sign == ['-' as int]
      ensures (sign + digits)[0] == '-' as int <==> sign != []
      ensures sign != [] ==> (sign + digits)[1..] == digits
      ensures sign == [] ==> sign + digits == digits
    {
    }

    // ---- lex_scan ----

    /** The loop of lex_scan over white space, and one byte more. */
    method SkipSpace() returns (c: int)
      requires Valid() && stream.src.mid == 0
      modifies stream, stream.buffer
      ensures Ahead(L.SkipSpace(old(stream.src)), c) && !L.IsSpace(c)
    {
      hide L.Get, L.SkipSpace;
      ghost var goal := L.SkipSpace(stream.src);
      ghost var before := stream.src;
      c := stream.Get();
      while L.IsSpace(c)
        invariant Ahead(before, c) && goal == L.SkipSpace(before)
        decreases |before.rest|
      {
        SpaceStep(before);
        before := stream.src;
        c := stream.Get();
      }
      SpaceStep(before);
    }

    static lemma SpaceStep(s: Src)
      ensures L.SkipSpace(s) == if L.IsSpace(L.Get(s).c) then L.SkipSpace(L.Get(s).src) else s
    {
    }

    /** The loop of lex_scan over a word that starts with `first`, and one byte more. */
    method SaveLetters(first: int, ghost at: Src) returns (c: int)
      requires Ahead(at, first) && L.IsLetter(first) && saved == [first]
      modifies this`saved, stream, stream.buffer
      ensures Ahead(L.TakeLetters(at).src, c) && saved == L.TakeLetters(at).text + Kept(c)
    {
      hide L.Get, L.TakeLetters;
      ghost var goal := L.TakeLetters(at);
      ghost var before: Src, taken: Text := stream.src, [first];
      LettersStep(at);
      c := Next();
      while L.IsLetter(c)
        invariant Ahead(before, c) && saved == taken + Kept(c)
        invariant goal == Taken(taken + L.TakeLetters(before).text, L.TakeLetters(before).src)
        decreases |before.rest|
      {
        LettersStep(before);
        before := stream.src;
        assert taken + [c] + L.TakeLetters(before).text == taken + ([c] + L.TakeLetters(before).text);
        taken := taken + [c];
        assert saved == taken;
        c := Next();
      }
      LettersStep(before);
      assert taken + [] == taken;
    }

    static lemma LettersStep(s: Src)
      ensures var g := L.Get(s);
        if L.IsLetter(g.c) then
          L.TakeLetters(s) == Taken([g.c] + L.TakeLetters(g.src).text, L.TakeLetters(g.src).src)
        else L.TakeLetters(s) == Taken([], s)
    {
    }

    /** The word case of lex_scan. */
    method ScanWord(first: int, ghost at: Src)
      requires Ahead(at, first) && L.IsLetter(first) && saved == [first]
      modifies this`saved, this`token, stream, stream.buffer
      ensures Ready() && stream.src == L.Unread(L.TakeLetters(at).src)
      ensures token == L.WordToken(L.TakeLetters(at).text)
    {
      hide L.Get, L.TakeLetters, L.Unread;
      var c := SaveLetters(first, at);
      UngetUnsave(c, L.TakeLetters(at).src);
      assert saved == L.TakeLetters(at).text;
      token := if saved == TRUE_TEXT then TTrue
               else if saved == FALSE_TEXT then TFalse
               else if saved == NULL_TEXT then TNull
               else TInvalid;
    }

    /** lex_save_cached: takes the rest of the buffered character too. */
    method SaveCached()
      requires Valid() && stream.state == OK
      modifies this`saved, stream`bufferPos, stream`position, stream`src
      ensures Valid() && stream.bufferPos == stream.cachedEnd
      ensures saved == old(saved + stream.buffer[stream.bufferPos..stream.cachedEnd])
      ensures stream.src == Src(0, stream.data[stream.pos..])
    {
      ghost var start := stream.bufferPos;
      while stream.buffer[stream.bufferPos] != 0
        invariant start <= stream.bufferPos <= stream.cachedEnd <= 4
        invariant saved == old(saved) + stream.buffer[start..stream.bufferPos]
        decreases stream.cachedEnd - stream.bufferPos
      {
        saved := saved + [stream.buffer[stream.bufferPos]];
        stream.bufferPos := stream.bufferPos + 1;
        stream.position := stream.position + 1;
      }
      stream.src := Src(0, stream.data[stream.pos..]);
      assert stream.buffer[stream.bufferPos..stream.cachedEnd] + stream.data[stream.pos..] == stream.src.rest;
    }

    /** lex_scan */
    method Scan()
      requires Valid() && stream.src.mid == 0
      modifies this`saved, this`token, stream, stream.buffer
      ensures Ready() && Agrees(L.Scan(old(stream.src), flags))
    {
      hide L.Get, L.SkipSpace, L.ScanString, L.ScanNumber, L.TakeLetters, L.Unread, L.WordToken;
      saved := [];
      ghost var at := L.SkipSpace(stream.src);
      var c := SkipSpace();
      if c == EOF {
        token := TEof;
        return;
      }
      if c == ERROR {
        token := TInvalid;
        return;
      }
      saved := saved + [c];
      assert saved == [c];
      if L.IsPunct(c) {
        token := TPunct(c);
      } else if c == QUOTE {
        ScanString();
      } else if IsDigit(c) || c == '-' as int {
        ScanNumber(c, at);
      } else if L.IsLetter(c) {
        ScanWord(c, at);
      } else {
        SaveCached();
        token := TInvalid;
      }
    }

    // ---- The parser ----

    /** The result of a parsing method is that of the specification, and so is the stream when it succeeds. */
    ghost predicate Outcome(r: Option<Json>, p: Parsed, depthBefore: nat)
      reads this, stream, stream.buffer
    {
      if p.Fail? then r == None
      else r == Some(p.value) && Valid() && stream.src == p.src && p.src.mid == 0 && depth == depthBefore
    }

    /** What is left to parse behind the token. */
    ghost function Left(): nat
      reads this, stream
    {
      if token == TInvalid then 0 else |stream.src.rest|
    }

    /** parse_value */
    method ParseValue() returns (r: Option<Json>)
      requires Ready()
      modifies this`saved, this`token, this`depth, stream, stream.buffer
      ensures Outcome(r, L.ParseValue(old(token), old(stream.src), old(depth), flags), old(depth))
      decreases Left(), 1
    {
      hide L.ParseObject, L.ParseArray;
      depth := depth + 1;
      if depth > MAX_DEPTH {
        return None;
      }
      match token {
        case TString(text) =>
          if !flags.allowNul && !NulFree(text) {
            return None;
          }
          r := Some(String(text));
        case TInteger(i) => r := Some(Integer(i));
        case TReal(numeral) => r := Some(Real(numeral));
        case TTrue => r := Some(True);
        case TFalse => r := Some(False);
        case TNull => r := Some(Null);
        case TPunct(c) =>
          if c == LBRACE {
            r := ParseObject();
          } else if c == LBRACKET {
            r := ParseArray();
          } else {
            return None;
          }
        case TInvalid => return None;
        case TEof => return None;
      }
      if r.None? {
        return None;
      }
      depth := depth - 1;
    }

    /** parse_array */
    method ParseArray() returns (r: Option<Json>)
      requires Valid() && stream.src.mid == 0
      modifies this`saved, this`token, this`depth, stream, stream.buffer
      ensures Outcome(r, L.ParseArray(old(stream.src), old(depth), flags), old(depth))
      decreases |stream.src.rest|, 0
    {
      hide Valid, Stream.Valid, Stream.Cached, L.Scan, L.ParseValue, L.ParseElements, L.Get, Utf8.Front;
      var elements: seq<Json> := [];
      ghost var goal := L.ParseArray(stream.src, depth, flags);
      Scan();
      if token == TPunct(RBRACKET) {
        return Some(Array(elements));
      }
      while token != TEof
        invariant Ready() && depth == old(depth)
        invariant token != TEof ==> Left() < |old(stream.src.rest)|
        invariant goal == if token == TEof || token == TInvalid then Fail
                          else L.ParseElements(token, stream.src, elements, depth, flags)
        decreases if token == TInvalid then 0 else |stream.src.rest| + 1
      {
        ElementsStep(token, stream.src, elements, depth, flags);
        var v := ParseValue();
        if v.None? {
          return None;
        }
        elements := elements + [v.value];
        Scan();
        if token != TPunct(COMMA) {
          break;
        }
        Scan();
      }
      if token != TPunct(RBRACKET) {
        return None;
      }
      return Some(Array(elements));
    }

    static lemma ElementsStep(token: Token, s: Src, acc: seq<Json>, depth: nat, f: LoadFlags)
      ensures L.ParseValue(TInvalid, s, depth, f) == Fail
      ensures L.ParseElements(token, s, acc, depth, f) ==
        var p := L.ParseValue(token, s, depth, f);
        if p.Fail? then Fail
        else
          var t := L.Scan(p.src, f);
          if t.token == TPunct(RBRACKET) then Done(Array(acc + [p.value]), t.src)
          else if t.token != TPunct(COMMA) then Fail
          else
            var u := L.Scan(t.src, f);
            if u.token == TInvalid || u.token == TEof then Fail
            else L.ParseElements(u.token, u.src, acc + [p.value], depth, f)
    {
      hide L.Scan, L.ParseObject, L.ParseArray;
    }

    /** parse_object. The fields are the table that the object keeps. */
    method ParseObject() returns (r: Option<Json>)
      requires Valid() && stream.src.mid == 0
      modifies this`saved, this`token, this`depth, stream, stream.buffer
      ensures Outcome(r, L.ParseObject(old(stream.src), old(depth), flags), old(depth))
      decreases |stream.src.rest|, 0
    {
      hide Valid, Stream.Valid, Stream.Cached, L.Scan, L.ParseValue, L.ParseMembers, L.Get, Utf8.Front, Assoc.Get, Assoc.Put;
      var fields: seq<Pair<Json>> := [];
      ghost var goal := L.ParseObject(stream.src, depth, flags);
      Scan();
      if token == TPunct(RBRACE) {
        return Some(Object(fields));
      }
      while true
        invariant Ready() && depth == old(depth)
        invariant token.TString? ==> Left() < |old(stream.src.rest)|
        invariant goal == if token.TString? then L.ParseMembers(token.text, stream.src, fields, depth, flags) else Fail
        decreases if token.TString? then |stream.src.rest| + 1 else 0
      {
        if !token.TString? {
          return None;
        }
        var key := token.text;
        MembersStep(key, stream.src, fields, depth, flags);
        if !NulFree(key) {
          return None;
        }
        if flags.rejectDuplicates && Assoc.Get(fields, key).Some? {
          return None;
        }
        Scan();
        if token != TPunct(COLON) {
          return None;
        }
        Scan();
        var v := ParseValue();
        if v.None? {
          return None;
        }
        fields := Put(fields, key, v.value);
        Scan();
        if token != TPunct(COMMA) {
          break;
        }
        Scan();
      }
      if token != TPunct(RBRACE) {
        return None;
      }
      return Some(Object(fields));
    }

    static lemma MembersStep(key: Text, s: Src, acc: seq<Pair<Json>>, depth: nat, f: LoadFlags)
      ensures forall x: Src :: L.ParseValue(TInvalid, x, depth, f) == Fail
      ensures L.ParseMembers(key, s, acc, depth, f) ==
        if !NulFree(key) || (f.rejectDuplicates && Assoc.Get(acc, key).Some?) then Fail
        else
          var colon := L.Scan(s, f);
          if colon.token != TPunct(COLON) then Fail
          else
            var t := L.Scan(colon.src, f);
            var p := L.ParseValue(t.token, t.src, depth, f);
            if p.Fail? then Fail
            else
              var u := L.Scan(p.src, f);
              if u.token == TPunct(RBRACE) then Done(Object(Put(acc, key, p.value)), u.src)
              else if u.token != TPunct(COMMA) then Fail
              else
                var w := L.Scan(u.src, f);
                if !w.token.TString? then Fail
                else L.ParseMembers(w.token.text, w.src, Put(acc, key, p.value), depth, f)
    {
      hide L.Scan, L.ParseObject, L.ParseArray;
    }

    /** parse_json */
    method ParseJson(ghost input: Text) returns (r: Option<Json>)
      requires Valid() && stream.src == Src(0, input)
      modifies this`saved, this`token, this`depth, stream, stream.buffer
      ensures r == L.ParseJson(input, flags)
    {
      hide L.Scan, L.ParseValue;
      depth := 0;
      Scan();
      if !flags.decodeAny && token != TPunct(LBRACKET) && token != TPunct(LBRACE) {
        return None;
      }
      InvalidFails(stream.src, 0, flags);
      InvalidFails(L.Scan(Src(0, input), flags).src, 0, flags);
      r := ParseValue();
      if r.None? {
        return None;
      }
      if !flags.disableEofCheck {
        Scan();
        if token != TEof {
          return None;
        }
      }
    }

    static lemma InvalidFails(s: Src, depth: nat, f: LoadFlags)
      ensures L.ParseValue(TInvalid, s, depth, f) == Fail
    {
      hide L.ParseObject, L.ParseArray;
    }
  }

  /** json_loadb */
  method LoadBuffer(input: Text, flags: LoadFlags) returns (r: Option<Json>)
    ensures r == L.ParseJson(input, flags)
  {
    hide L.ParseJson;
    var lexer := new Lexer(input, flags);
    r := lexer.ParseJson(input);
  }
}
