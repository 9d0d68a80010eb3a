/** The http proxy's re-chunking of a response: stream_close() and LWS_CALLBACK_RECEIVE_CLIENT_HTTP_READ in
    `lib/core/dummy-callback.c`. */
module Chunked {
  import opened Basics
  import opened Sequences

  const CRLF := "\r\n"
  const TERMINATOR := "0\r\n\r\n"

  /** sizeof(buf) and LWS_PRE */
  const BUFFER := 8192
  const PRE := 16

  // ----- writing -----

  function HexDigit(d: nat): (c: char)
    requires d < 16
  {
    if d < 10 then (48 + d) as char else (55 + d) as char
  }

  /** "%X" */
  function Hex(n: nat): (s: string)
    ensures s != []
  {
    if n < 16 then [HexDigit(n)] else Hex(n / 16) + [HexDigit(n % 16)]
  }

  function Chunk(piece: string): (s: string) {
    Hex(|piece|) + (CRLF + (piece + CRLF))
  }

  function Chunks(pieces: seq<string>): (s: string) {
    if pieces == [] then [] else Chunks(pieces[..|pieces| - 1]) + Chunk(pieces[|pieces| - 1])
  }

  function Joined(pieces: seq<string>): (s: string) {
    if pieces == [] then [] else Joined(pieces[..|pieces| - 1]) + pieces[|pieces| - 1]
  }

  /** A chunk that passes the size check fits the buffer after LWS_PRE, and its size line the 14 characters that
      lws_snprintf() is given. */
  lemma ChunkFitsTheBuffer(piece: string)
    requires |piece| <= BUFFER - PRE - 16
    ensures |Chunk(piece)| <= BUFFER - PRE
    ensures |Hex(|piece|) + CRLF| < 14
  {
    var n := |piece|;
    assert n / 16 / 16 / 16 < 16;
    assert |Hex(n / 16 / 16)| <= 2;
    assert |Hex(n / 16)| <= 3;
    assert |Hex(n)| <= 4;
  }

  // ----- reading: section 4.1 of RFC 7230 -----

  function HexValue(c: char): (v: int) {
    if '0' <= c <= '9' then c as int - 48
    else if 'A' <= c <= 'F' then c as int - 55
    else if 'a' <= c <= 'f' then c as int - 87
    else -1
  }

  /** The number that the leading hex digits spell, after `acc`, and what follows them */
  function ReadHex(s: string, acc: nat): (r: (nat, string))
    ensures |r.1| <= |s|
  {
    if s == [] || HexValue(s[0]) < 0 then (acc, s) else ReadHex(s[1..], acc * 16 + HexValue(s[0]))
  }

  /** The body that a chunked stream carries, and what is left after its end: a size in hex, CRLF, that many
      characters and CRLF, up to a chunk of size 0, which has no data and is followed by an empty line.
      Trailers and chunk extensions are not accepted. */
  function Read(s: string): (r: Option<(string, string)>)
    decreases |s|
  {
    if s == [] || HexValue(s[0]) < 0 then None
    else
      var (size, rest) := ReadHex(s, 0);
      if !(CRLF <= rest) then None
      else if size == 0 then
        if CRLF <= rest[2..] then Some(("", rest[4..])) else None
      else if |rest| < 2 + size + 2 || rest[2 + size..2 + size + 2] != CRLF then None
      else
        match Read(rest[2 + size + 2..])
        case None => None
        case Some((body, left)) => Some((rest[2..2 + size] + body, left))
  }

  // ----- reading undoes writing -----

  lemma HexValueOfDigit(d: nat)
    requires d < 16
    ensures HexValue(HexDigit(d)) == d
  {
  }

  /** The number whose hex digits are those of `acc` followed by those of `n` */
  function Shifted(acc: nat, n: nat): (r: nat) {
    if n < 16 then acc * 16 + n else Shifted(acc, n / 16) * 16 + n % 16
  }

  lemma {:induction false} ShiftedZero(n: nat)
    ensures Shifted(0, n) == n
  {
    if n >= 16 {
      ShiftedZero(n / 16);
    }
  }

  lemma {:induction false} ReadHexOfHex(n: nat, acc: nat, rest: string)
    ensures ReadHex(Hex(n) + rest, acc) == ReadHex(rest, Shifted(acc, n))
  {
    if n < 16 {
      HexValueOfDigit(n);
      assert (Hex(n) + rest)[1..] == rest;
    } else {
      var last := [HexDigit(n % 16)];
      HexValueOfDigit(n % 16);
      Assoc(Hex(n / 16), last, rest);
      ReadHexOfHex(n / 16, acc, last + rest);
      assert (last + rest)[1..] == rest;
    }
  }

  lemma {:induction false} HexStartsWithADigit(n: nat)
    ensures HexValue(Hex(n)[0]) >= 0
  {
    if n < 16 {
      HexValueOfDigit(n);
    } else {
      HexStartsWithADigit(n / 16);
    }
  }

  lemma ReadSizeLine(n: nat, rest: string)
    ensures var s := Hex(n) + (CRLF + rest);
            HexValue(s[0]) >= 0 && ReadHex(s, 0) == (n, CRLF + rest)
  {
    HexStartsWithADigit(n);
    ReadHexOfHex(n, 0, CRLF + rest);
    ShiftedZero(n);
    assert (CRLF + rest)[0] == '\r';
  }

  /** One chunk, then the rest of the stream; an empty chunk ends it. */
  lemma ReadChunk(piece: string, rest: string)
    ensures piece != [] && Read(rest).Some? ==>
              Read(Chunk(piece) + rest) == Some((piece + Read(rest).value.0, Read(rest).value.1))
    ensures piece != [] && Read(rest).None? ==> Read(Chunk(piece) + rest).None?
    ensures piece == [] ==> Read(Chunk(piece) + rest) == Some(("", rest))
  {
    var data := piece + CRLF;
    Assoc(Hex(|piece|), CRLF + data, rest);
    Assoc(CRLF, data, rest);
    ReadSizeLine(|piece|, data + rest);
    var line := CRLF + (data + rest);
    assert line[2..] == data + rest;
    if piece == [] {
      assert data == CRLF;
      assert line[4..] == rest;
    } else {
      assert line[2..2 + |piece|] == piece;
      assert line[2 + |piece|..2 + |piece| + 2] == CRLF;
      assert line[2 + |piece| + 2..] == rest;
    }
  }

  lemma TerminatorIsAnEmptyChunk()
    ensures Chunk("") == TERMINATOR
  {
    assert Hex(0) == "0";
  }

  predicate NoneEmpty(pieces: seq<string>) {
    forall i :: 0 <= i < |pieces| ==> pieces[i] != []
  }

  /** Chunks before the rest of a stream: all of them are read, unless one is empty and so ends the stream before its
      end. */
  lemma {:induction false} ReadChunks(pieces: seq<string>, rest: string)
    ensures var r, r' := Read(Chunks(pieces) + rest), Read(rest);
            && (NoneEmpty(pieces) && r'.Some? ==> r == Some((Joined(pieces) + r'.value.0, r'.value.1)))
            && (NoneEmpty(pieces) && r'.None? ==> r.None?)
            && (!NoneEmpty(pieces) ==> r.Some? && |r.value.1| >= |rest|)
  {
    if pieces == [] {
      assert Chunks(pieces) + rest == rest;
      assert Read(rest).Some? ==> Joined(pieces) + Read(rest).value.0 == Read(rest).value.0;
    } else {
      var n := |pieces| - 1;
      var init, piece := pieces[..n], pieces[n];
      Assoc(Chunks(init), Chunk(piece), rest);
      ReadChunk(piece, rest);
      ReadChunks(init, Chunk(piece) + rest);
      if NoneEmpty(pieces) {
        assert NoneEmpty(init) && piece != [];
        if Read(rest).Some? {
          Assoc(Joined(init), piece, Read(rest).value.0);
        }
      } else if NoneEmpty(init) {
        assert piece == [];
      }
    }
  }

  /** A terminated stream and what follows it */
  lemma ReadTerminated(pieces: seq<string>, rest: string)
    ensures var r := Read(Chunks(pieces) + (TERMINATOR + rest));
            && r.Some?
            && (NoneEmpty(pieces) ==> r.value == (Joined(pieces), rest))
            && (!NoneEmpty(pieces) ==> r.value.1 != [])
  {
    TerminatorIsAnEmptyChunk();
    ReadChunk("", rest);
    ReadChunks(pieces, TERMINATOR + rest);
    assert Joined(pieces) + "" == Joined(pieces);
  }

  // ----- a response -----

  /** How the body goes to the downstream client: over http/1.1 in chunks, over http/1.1 under a content-length, or
      over http/2 */
  datatype Framing = Chunks1 | Plain1 | Http2

  /** A piece of the body, or the end of it; `fails` is whether the write that goes with it does. */
  datatype Event = Piece(piece: string, fails: bool) | Close(fails: bool)

  /** A write that fails puts nothing on the wire. */
  datatype Response = Response(wire: string, didStreamClose: bool)

  predicate Oversize(f: Framing, piece: string) {
    f == Chunks1 && |piece| > BUFFER - PRE - 16
  }

  function Framed(f: Framing, piece: string): (s: string) {
    if f == Chunks1 then Chunk(piece) else piece
  }

  function Step(f: Framing, r: Response, e: Event): (r': Response) {
    match e
    case Piece(piece, fails) =>
      if Oversize(f, piece) || fails then r else r.(wire := r.wire + Framed(f, piece))
    case Close(fails) =>
      if r.didStreamClose then r
      else Response(if fails || f == Http2 then r.wire else r.wire + TERMINATOR, true)
  }

  function Run(f: Framing, events: seq<Event>): (r: Response) {
    if events == [] then Response("", false)
    else Step(f, Run(f, events[..|events| - 1]), events[|events| - 1])
  }

  // ----- what was written, from the events alone -----

  /** A piece whose write succeeds, and that is not more than 8160 characters to be put in a chunk */
  predicate Accepted(f: Framing, e: Event) {
    e.Piece? && !e.fails && (f == Chunks1 ==> |e.piece| <= 8160)
  }

  /** The accepted pieces, in order */
  function Written(f: Framing, events: seq<Event>): (pieces: seq<string>) {
    if events == [] then []
    else
      var init, e := events[..|events| - 1], events[|events| - 1];
      Written(f, init) + if Accepted(f, e) then [e.piece] else []
  }

  /** Whether the first close fails, which is the one that counts */
  function FirstClose(events: seq<Event>): (fails: Option<bool>) {
    if events == [] then None
    else
      var first, e := FirstClose(events[..|events| - 1]), events[|events| - 1];
      if first.Some? then first else if e.Close? then Some(e.fails) else None
  }

  /** Those of them that come before the first close, or those after it */
  function Pieces(f: Framing, events: seq<Event>, closed: bool): (pieces: seq<string>) {
    if events == [] then []
    else
      var init, e := events[..|events| - 1], events[|events| - 1];
      Pieces(f, init, closed) + if Accepted(f, e) && FirstClose(init).Some? == closed then [e.piece] else []
  }

  lemma {:induction false} NoneAfterUntilClosed(f: Framing, events: seq<Event>)
    requires FirstClose(events) == None
    ensures Pieces(f, events, true) == []
  {
    if events != [] {
      NoneAfterUntilClosed(f, events[..|events| - 1]);
    }
  }

  lemma {:induction false} WrittenBeforeAndAfter(f: Framing, events: seq<Event>)
    ensures Written(f, events) == Pieces(f, events, false) + Pieces(f, events, true)
  {
    if events != [] {
      var init, e := events[..|events| - 1], events[|events| - 1];
      WrittenBeforeAndAfter(f, init);
      var before, after := Pieces(f, init, false), Pieces(f, init, true);
      if FirstClose(init).Some? {
        Assoc(before, after, if Accepted(f, e) then [e.piece] else []);
        assert before + [] == before;
      } else {
        NoneAfterUntilClosed(f, init);
        assert before + [] == before;
        assert Written(f, events) + [] == Written(f, events);
      }
    }
  }

  function FramedAll(f: Framing, pieces: seq<string>): (s: string) {
    if f == Chunks1 then Chunks(pieces) else Joined(pieces)
  }

  function Ending(f: Framing, terminated: bool): (s: string) {
    if terminated && f != Http2 then TERMINATOR else ""
  }

  function OnTheWire(f: Framing, before: seq<string>, terminated: bool, after: seq<string>): (s: string) {
    FramedAll(f, before) + (Ending(f, terminated) + FramedAll(f, after))
  }

  lemma FramedOneMore(f: Framing, pieces: seq<string>, piece: string)
    ensures FramedAll(f, pieces + [piece]) == FramedAll(f, pieces) + Framed(f, piece)
  {
    assert (pieces + [piece])[..|pieces|] == pieces;
  }

  lemma PieceAfterClose(f: Framing, before: seq<string>, terminated: bool, after: seq<string>, piece: string)
    ensures OnTheWire(f, before, terminated, after + [piece])
         == OnTheWire(f, before, terminated, after) + Framed(f, piece)
  {
    FramedOneMore(f, after, piece);
    Assoc(FramedAll(f, before), Ending(f, terminated) + FramedAll(f, after), Framed(f, piece));
    Assoc(Ending(f, terminated), FramedAll(f, after), Framed(f, piece));
  }

  lemma NothingAfter(f: Framing, before: seq<string>, terminated: bool)
    ensures OnTheWire(f, before, terminated, []) == FramedAll(f, before) + Ending(f, terminated)
  {
    assert FramedAll(f, []) == "";
    assert Ending(f, terminated) + "" == Ending(f, terminated);
  }

  lemma PieceBeforeClose(f: Framing, before: seq<string>, piece: string)
    ensures OnTheWire(f, before + [piece], false, []) == OnTheWire(f, before, false, []) + Framed(f, piece)
  {
    FramedOneMore(f, before, piece);
    NothingAfter(f, before, false);
    NothingAfter(f, before + [piece], false);
    assert FramedAll(f, before) + "" == FramedAll(f, before);
    assert FramedAll(f, before + [piece]) + "" == FramedAll(f, before + [piece]);
  }

  lemma ClosingWrite(f: Framing, before: seq<string>, terminated: bool)
    ensures OnTheWire(f, before, terminated, []) == OnTheWire(f, before, false, []) + Ending(f, terminated)
  {
    NothingAfter(f, before, false);
    NothingAfter(f, before, terminated);
    assert FramedAll(f, before) + "" == FramedAll(f, before);
  }

  /** What the wire holds after the events so far: the accepted pieces in order, each framed, and the terminator,
      if the first close wrote one, between those that came before it and those that came after */
  predicate Follows(f: Framing, events: seq<Event>, r: Response) {
    && (r.didStreamClose <==> FirstClose(events).Some?)
    && r.wire == OnTheWire(f, Pieces(f, events, false), FirstClose(events) == Some(false), Pieces(f, events, true))
  }

  lemma EventsOneMore(f: Framing, events: seq<Event>, e: Event, closed: bool)
    ensures var first := FirstClose(events);
            && FirstClose(events + [e]) == (if first.None? && e.Close? then Some(e.fails) else first)
            && Pieces(f, events + [e], closed)
            == Pieces(f, events, closed) + if Accepted(f, e) && first.Some? == closed then [e.piece] else []
  {
    assert (events + [e])[..|events|] == events;
  }

  lemma LatePieceFollows(f: Framing, events: seq<Event>, r: Response, e: Event)
    requires Follows(f, events, r) && Accepted(f, e) && r.didStreamClose
    ensures Follows(f, events + [e], Step(f, r, e))
  {
    var before, after := Pieces(f, events, false), Pieces(f, events, true);
    EventsOneMore(f, events, e, false);
    EventsOneMore(f, events, e, true);
    assert before + [] == before;
    PieceAfterClose(f, before, FirstClose(events) == Some(false), after, e.piece);
  }

  lemma EarlyPieceFollows(f: Framing, events: seq<Event>, r: Response, e: Event)
    requires Follows(f, events, r) && Accepted(f, e) && !r.didStreamClose
    ensures Follows(f, events + [e], Step(f, r, e))
  {
    var before := Pieces(f, events, false);
    EventsOneMore(f, events, e, false);
    EventsOneMore(f, events, e, true);
    NoneAfterUntilClosed(f, events);
    PieceBeforeClose(f, before, e.piece);
  }

  lemma NoPieceFollows(f: Framing, events: seq<Event>, r: Response, e: Event)
    requires Follows(f, events, r) && e.Piece? && !Accepted(f, e)
    ensures Follows(f, events + [e], Step(f, r, e))
  {
    EventsOneMore(f, events, e, false);
    EventsOneMore(f, events, e, true);
    assert Pieces(f, events, false) + [] == Pieces(f, events, false);
    assert Pieces(f, events, true) + [] == Pieces(f, events, true);
  }

  lemma CloseFollows(f: Framing, events: seq<Event>, r: Response, e: Event)
    requires Follows(f, events, r) && e.Close?
    ensures Follows(f, events + [e], Step(f, r, e))
  {
    var before, after := Pieces(f, events, false), Pieces(f, events, true);
    EventsOneMore(f, events, e, false);
    EventsOneMore(f, events, e, true);
    assert before + [] == before && after + [] == after;
    if !r.didStreamClose {
      NoneAfterUntilClosed(f, events);
      ClosingWrite(f, before, !e.fails);
      assert r.wire + "" == r.wire;
    }
  }

  lemma StepFollows(f: Framing, events: seq<Event>, r: Response, e: Event)
    requires Follows(f, events, r)
    ensures Follows(f, events + [e], Step(f, r, e))
  {
    if e.Close? {
      CloseFollows(f, events, r, e);
    } else if !Accepted(f, e) {
      NoPieceFollows(f, events, r, e);
    } else if r.didStreamClose {
      LatePieceFollows(f, events, r, e);
    } else {
      EarlyPieceFollows(f, events, r, e);
    }
  }

  /** Over every run the wire holds exactly what the events say, and the terminator at most once. */
  lemma {:induction false} RunFollows(f: Framing, events: seq<Event>)
    ensures Follows(f, events, Run(f, events))
  {
    if events == [] {
      assert FramedAll(f, []) == "";
    } else {
      var init, e := events[..|events| - 1], events[|events| - 1];
      RunFollows(f, init);
      assert events == init + [e];
      StepFollows(f, init, Run(f, init), e);
    }
  }

  lemma {:induction false} ChunksAppend(a: seq<string>, b: seq<string>)
    ensures Chunks(a + b) == Chunks(a) + Chunks(b)
  {
    if b == [] {
      assert a + b == a;
    } else {
      var init, piece := b[..|b| - 1], b[|b| - 1];
      ChunksAppend(a, init);
      FramedOneMore(Chunks1, a + init, piece);
      Assoc(a, init, [piece]);
      assert b == init + [piece];
      Assoc(Chunks(a), Chunks(init), Chunk(piece));
    }
  }

  /** The pieces end with an empty one, and only end so. */
  predicate EndsEmpty(pieces: seq<string>) {
    pieces != [] && pieces[|pieces| - 1] == [] && NoneEmpty(pieces[..|pieces| - 1])
  }

  /** Chunks without a terminator of their own */
  lemma ReadUnterminated(pieces: seq<string>)
    ensures Read(Chunks(pieces)) == Some((Joined(pieces), "")) <==> EndsEmpty(pieces)
  {
    if pieces != [] {
      var n := |pieces| - 1;
      var init, piece := pieces[..n], pieces[n];
      ReadChunks(init, Chunk(piece));
      ReadChunk(piece, "");
      assert Chunk(piece) + "" == Chunk(piece) != [];
      assert Joined(init) + "" == Joined(init);
    }
  }

  /** A chunked response is read back as exactly the pieces that were accepted, with nothing left over, if and only if
      either the first close wrote the terminator, none of them was empty and none came after it; or it did not, and
      the last of them, and no other, was empty: an empty piece is written as the terminator. */
  lemma ChunkedResponseIsReadBackIff(events: seq<Event>)
    ensures var pieces := Written(Chunks1, events);
            Read(Run(Chunks1, events).wire) == Some((Joined(pieces), ""))
            <==> if FirstClose(events) == Some(false) then NoneEmpty(pieces) && Pieces(Chunks1, events, true) == []
                 else EndsEmpty(pieces)
  {
    RunFollows(Chunks1, events);
    WrittenBeforeAndAfter(Chunks1, events);
    var before, after := Pieces(Chunks1, events, false), Pieces(Chunks1, events, true);
    if FirstClose(events) != Some(false) {
      ChunksAppend(before, after);
      assert "" + Chunks(after) == Chunks(after);
      ReadUnterminated(before + after);
    } else {
      ReadTerminated(before, Chunks(after));
      if after == [] {
        assert before + after == before;
      } else {
        HexStartsWithADigit(|after[|after| - 1]|);
        assert Chunks(after) != [];
      }
    }
  }

  lemma RunOneMore(f: Framing, events: seq<Event>, e: Event)
    ensures Run(f, events + [e]) == Step(f, Run(f, events), e)
    ensures Written(f, events + [e]) == Written(f, events) + if Accepted(f, e) then [e.piece] else []
  {
    assert (events + [e])[..|events|] == events;
  }

  /** The empty piece ends the body for a reader, before the piece that follows it. */
  lemma AnEmptyPieceEndsTheBody()
    ensures var events := [Piece("", false), Piece("a", false), Close(false)];
            && Written(Chunks1, events) == ["", "a"]
            && Read(Run(Chunks1, events).wire) == Some(("", Chunk("a") + TERMINATOR))
  {
    var first, second := Piece("", false), Piece("a", false);
    RunOneMore(Chunks1, [], first);
    RunOneMore(Chunks1, [first], second);
    RunOneMore(Chunks1, [first, second], Close(false));
    assert [] + [first] == [first] && [first] + [second] == [first, second];
    assert [first, second] + [Close(false)] == [first, second, Close(false)];
    Assoc(Chunk(""), Chunk("a"), TERMINATOR);
    assert "" + Chunk("") == Chunk("");
    ReadChunk("", Chunk("a") + TERMINATOR);
  }

  /** Without chunks the client gets the accepted pieces and no more, if and only if the connection is http/2 or the
      final write did not happen: over http/1.1 the terminator also follows a body that has a content-length. */
  lemma UnchunkedResponseIsExactIff(f: Framing, events: seq<Event>)
    requires f != Chunks1
    ensures Run(f, events).wire == Joined(Written(f, events)) <==> f == Http2 || FirstClose(events) != Some(false)
  {
    RunFollows(f, events);
    WrittenBeforeAndAfter(f, events);
    var before, after := Pieces(f, events, false), Pieces(f, events, true);
    JoinedAppend(before, after);
    assert "" + Joined(after) == Joined(after);
  }

  lemma {:induction false} JoinedAppend(a: seq<string>, b: seq<string>)
    ensures Joined(a + b) == Joined(a) + Joined(b)
  {
    if b == [] {
      assert a + b == a;
    } else {
      var init, piece := b[..|b| - 1], b[|b| - 1];
      JoinedAppend(a, init);
      FramedOneMore(Http2, a + init, piece);
      Assoc(a, init, [piece]);
      assert b == init + [piece];
      Assoc(Joined(a), Joined(init), piece);
    }
  }

  /** A body of one character under a content-length */
  lemma TheTerminatorFollowsAPlainBody()
    ensures Run(Plain1, [Piece("a", false), Close(false)]).wire == "a" + TERMINATOR
  {
    var body, close := Piece("a", false), Close(false);
    RunOneMore(Plain1, [], body);
    RunOneMore(Plain1, [body], close);
    assert [] + [body] == [body] && [body] + [close] == [body, close];
  }

  // ----- the code -----

  class Proxy {
    const framing: Framing
    var wire: string
    var didStreamClose: bool

    ghost function View(): (r: Response)
      reads this
    {
      Response(wire, didStreamClose)
    }

    constructor (framing: Framing)
      ensures this.framing == framing && View() == Run(framing, [])
    {
      this.framing := framing;
      wire, didStreamClose := "", false;
    }

    /** lws_write() */
    method Write(out: string, fails: bool) returns (n: int)
      modifies this`wire
      ensures n == if fails then -1 else |out|
      ensures wire == if fails then old(wire) else old(wire) + out
    {
      if fails {
        return -1;
      }
      wire := wire + out;
      n := |out|;
    }

    /** LWS_CALLBACK_RECEIVE_CLIENT_HTTP_READ */
    method ReceiveClientHttpRead(piece: string, fails: bool) returns (ret: int)
      modifies this
      ensures View() == Step(framing, old(View()), Piece(piece, fails))
      ensures ret == if Accepted(framing, Piece(piece, fails)) then 0 else -1
    {
      var n;
      if framing == Chunks1 {
        if |piece| > BUFFER - PRE - 16 {
          return -1;
        }
        var out := Hex(|piece|) + CRLF;
        out := out + piece;
        out := out + CRLF;
        ghost var size := Hex(|piece|);
        Assoc(size + CRLF, piece, CRLF);
        Assoc(size, CRLF, piece + CRLF);
        n := Write(out, fails);
      } else {
        n := Write(piece, fails);
      }
      if n < 0 {
        return -1;
      }
      ret := 0;
    }

    /** stream_close() */
    method StreamClose(fails: bool) returns (ret: int)
      modifies this
      ensures View() == Step(framing, old(View()), Close(fails))
      ensures ret == if !old(didStreamClose) && fails then -1 else 0
    {
      if didStreamClose {
        return 0;
      }
      didStreamClose := true;
      assert wire + "" == wire;
      var n := Write(if framing == Http2 then "" else TERMINATOR, fails);
      ret := if n < 0 then -1 else 0;
    }
  }
}
