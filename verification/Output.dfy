/** The output path of one connection: lws_issue_raw() (`lib/core/output.c`) over the buflist
    functions of `lib/core/libwebsockets.c`.  The socket is an adversary: it may take any prefix of what
    it is given, nothing, or fail. */
module Output {
  import opened Basics
  import opened Sequences

  // ----- the backlog -----

  /** struct lws_buflist: a stashed buffer and how much of it has been sent */
  datatype Segment = Segment(buf: seq<byte>, pos: nat)

  /** lws_buflist_append_segment() gives up on a list this long */
  const SANITY := 1024

  predicate Unspent(s: Segment) {
    s.pos < |s.buf|
  }

  ghost predicate AllUnspent(segs: seq<Segment>) {
    forall i :: 0 <= i < |segs| ==> Unspent(segs[i])
  }

  function Rest(s: Segment): (bytes: seq<byte>) {
    if s.pos <= |s.buf| then s.buf[s.pos..] else []
  }

  /** The bytes still to go, in order */
  function Pending(segs: seq<Segment>): (bytes: seq<byte>) {
    if segs == [] then [] else Rest(segs[0]) + Pending(segs[1..])
  }

  lemma {:induction false} PendingAppend(segs: seq<Segment>, s: Segment)
    ensures Pending(segs + [s]) == Pending(segs) + Rest(s)
  {
    if segs == [] {
      assert segs + [s] == [s];
    } else {
      assert (segs + [s])[1..] == segs[1..] + [s];
      PendingAppend(segs[1..], s);
    }
  }

  lemma NothingPendingIffEmpty(segs: seq<Segment>)
    requires AllUnspent(segs)
    ensures Pending(segs) == [] <==> segs == []
  {
    if segs != [] {
      assert Unspent(segs[0]);
    }
  }

  /** lws_buflist_append_segment(); `memory` is whether the segment could be allocated. */
  function Append(segs: seq<Segment>, buf: seq<byte>, memory: bool): (segs': seq<Segment>) {
    if !memory || |segs| >= SANITY then segs else segs + [Segment(buf, 0)]
  }

  /** lws_buflist_use_segment() */
  function Use(segs: seq<Segment>, m: nat): (segs': seq<Segment>)
    requires segs != []
  {
    var s := segs[0].(pos := segs[0].pos + m);
    if s.pos == |s.buf| then segs[1..] else [s] + segs[1..]
  }

  lemma UseTakesFromTheFront(segs: seq<Segment>, m: nat)
    requires segs != [] && AllUnspent(segs) && m <= |Rest(segs[0])|
    ensures AllUnspent(Use(segs, m))
    ensures Rest(segs[0])[..m] + Pending(Use(segs, m)) == Pending(segs)
    ensures |Use(segs, m)| <= |segs|
  {
    var s := segs[0].(pos := segs[0].pos + m);
    var whole, later := Rest(segs[0]), segs[1..];
    assert Unspent(segs[0]);
    if s.pos == |s.buf| {
      assert whole[..m] == whole;
    } else {
      var segs' := [s] + later;
      assert segs'[1..] == later;
      SplitAt(whole, m);
      assert Rest(s) == whole[m..];
      Assoc(whole[..m], Rest(s), Pending(later));
    }
  }

  // ----- lws_issue_raw() -----

  datatype Socket = Fails | Later | Takes(m: nat)

  /** What lws_issue_raw() reads and writes of struct lws, and the bytes its socket has taken.
      `flushing` is LRS_FLUSHING_BEFORE_CLOSE, `unusable` is socket_is_permanently_unusable and
      `deferred` is http.deferred_transaction_completed. */
  datatype Conn = Conn(segs: seq<Segment>, wire: seq<byte>, flushing: bool, deferred: bool, unusable: bool)

  /** What one call leaves, returns and whether it asks for a writable callback */
  datatype Issued = Issued(conn: Conn, ret: int, asks: bool)

  const LWS_PRE := 16

  /** tx_packet_size, rx_buffer_size and pt_serv_buf_size */
  datatype Sizes = Sizes(txPacketSize: nat, rxBufferSize: nat, servBufSize: nat)

  function Least(a: nat, b: nat): (n: nat) {
    if a < b then a else b
  }

  /** The first nonzero of them, the second and third as cut to 32 bits */
  function Configured(sizes: Sizes): (size: nat) {
    if sizes.txPacketSize != 0 then sizes.txPacketSize
    else if sizes.rxBufferSize % 0x1_0000_0000 != 0 then sizes.rxBufferSize
    else sizes.servBufSize
  }

  /** How much to offer the socket at once: the configured size plus room for the padding, in 32-bit
      unsigned arithmetic, but no more than there is.  Of sizes that do not wrap, the transmit packet size goes before
      the receive buffer size, and that before the service buffer's. */
  function Limit(sizes: Sizes, len: nat): (n: nat)
    ensures n <= len
    ensures 0 < sizes.txPacketSize < 0xFFFF_FFEC ==> n == Least(len, sizes.txPacketSize + 20)
    ensures sizes.txPacketSize == 0 && 0 < sizes.rxBufferSize < 0xFFFF_FFEC ==>
              n == Least(len, sizes.rxBufferSize + 20)
    ensures sizes.txPacketSize == 0 && sizes.rxBufferSize == 0 && sizes.servBufSize < 0xFFFF_FFEC ==>
              n == Least(len, sizes.servBufSize + 20)
  {
    var n := (Configured(sizes) % 0x1_0000_0000 + LWS_PRE + 4) % 0x1_0000_0000;
    if n > len then len else n
  }

  /** The configured size does not wrap to a limit of nothing. */
  predicate Offers(sizes: Sizes) {
    Configured(sizes) % 0x1_0000_0000 != 0xFFFF_FFEC
  }

  /** One configured size, and only that, leaves nothing to be offered. */
  lemma SomethingIsOfferedIff(sizes: Sizes, len: nat)
    requires len > 0
    ensures Limit(sizes, len) > 0 <==> Offers(sizes)
  {
  }

  /** The number of bytes a socket that does not fail takes of `n` offered ones */
  function Taken(sock: Socket, n: nat): (m: nat)
    ensures m <= n
  {
    if sock.Takes? && sock.m <= n then sock.m else if sock.Takes? then n else 0
  }

  /** What a call finds around it: the configured sizes, what the socket does, whether completing a deferred http
      transaction fails, and whether there is memory for a segment */
  datatype Env = Env(sizes: Sizes, sock: Socket, completeFails: bool, memory: bool)

  /** How much of a buffer the socket takes */
  function TakenOf(buf: seq<byte>, env: Env): (m: nat)
    ensures m <= |buf|
  {
    Taken(env.sock, Limit(env.sizes, |buf|))
  }

  /** Sending from the front of a backlog */
  function Drain(c: Conn, env: Env): (r: Issued)
    requires c.segs != []
  {
    var buf := Rest(c.segs[0]);
    if buf == [] then Issued(c, 0, false)
    else if env.sock == Fails then Issued(c.(unusable := true), -1, false)
    else
      var m := TakenOf(buf, env);
      var segs := if m > 0 then Use(c.segs, m) else c.segs;
      var c' := c.(segs := segs, wire := c.wire + buf[..m]);
      if segs == [] && c.flushing then Issued(c', -1, false)
      else if segs == [] && c.deferred then
        Issued(c'.(deferred := false), if env.completeFails then -1 else |buf|, false)
      else Issued(c', if segs == [] then |buf| else m, true)
  }

  /** Sending a buffer there is no backlog ahead of */
  function Direct(c: Conn, buf: seq<byte>, env: Env): (r: Issued)
    requires c.segs == []
  {
    if buf == [] then Issued(c, 0, false)
    else if env.sock == Fails then Issued(c.(unusable := true), -1, false)
    else
      var m := TakenOf(buf, env);
      var c' := c.(wire := c.wire + buf[..m]);
      if m == |buf| then Issued(c', m, false)
      else Issued(c'.(segs := Append([], buf[m..], env.memory)), |buf|, true)
  }

  /** lws_issue_raw(wsi, buf, len); no buffer is the NULL the service loop drains with. */
  function Issue(c: Conn, buf: Option<seq<byte>>, env: Env): (r: Issued) {
    if c.flushing && c.segs == [] then Issued(c, if buf.Some? then |buf.value| else 0, false)
    else if c.segs == [] then
      if buf.Some? then Direct(c, buf.value, env) else Issued(c, 0, false)
    else
      Drain(if buf.Some? then c.(segs := Append(c.segs, buf.value, env.memory)) else c, env)
  }

  // ----- what one call does to the stream -----

  ghost predicate Inv(c: Conn) {
    AllUnspent(c.segs)
  }

  /** Everything the connection has been given that is on the wire or will be */
  function Stream(c: Conn): (bytes: seq<byte>) {
    c.wire + Pending(c.segs)
  }

  /** A buffer that meets a flush with nothing left to flush is ignored. */
  predicate Ignored(c: Conn) {
    c.flushing && c.segs == []
  }

  /** A buffer that needs a segment and cannot have one is lost, or what the socket did not take of it: the
      buflist refuses to grow, or there is no memory. */
  predicate Loses(c: Conn, buf: seq<byte>, env: Env) {
    if c.segs != [] then !env.memory || |c.segs| >= SANITY
    else !c.flushing && !env.memory && env.sock != Fails && TakenOf(buf, env) < |buf|
  }

  /** What the stream gains by a buffer */
  function Gained(c: Conn, buf: seq<byte>, env: Env): (bytes: seq<byte>)
    ensures bytes <= buf
    ensures !Ignored(c) && Sendable(c, buf) ==> (bytes == buf <==> !Loses(c, buf, env))
  {
    if Ignored(c) then []
    else if !Loses(c, buf, env) then buf
    else if c.segs != [] then []
    else buf[..TakenOf(buf, env)]
  }

  /** lws_buflist_append_segment() asserts it is not given nothing to append. */
  predicate Sendable(c: Conn, buf: seq<byte>) {
    c.segs != [] ==> buf != []
  }

  lemma AppendKeeps(c: Conn, buf: seq<byte>, memory: bool)
    requires Inv(c) && buf != []
    ensures AllUnspent(Append(c.segs, buf, memory))
    ensures Pending(Append(c.segs, buf, memory))
         == Pending(c.segs) + (if !memory || |c.segs| >= SANITY then [] else buf)
    ensures c.segs != [] ==> Append(c.segs, buf, memory) != []
  {
    PendingAppend(c.segs, Segment(buf, 0));
    assert buf[0..] == buf;
  }

  lemma DrainKeepsStream(c: Conn, env: Env)
    requires Inv(c) && c.segs != []
    ensures var r := Drain(c, env);
            && Inv(r.conn) && Stream(r.conn) == Stream(c)
            && (r.ret >= 0 ==> r.ret == |r.conn.wire| - |c.wire|)
            && (r.conn.segs == [] && c.flushing ==> r.ret == -1)
            && (r.ret >= 0 && r.conn.segs != [] ==> r.asks)
  {
    var buf := Rest(c.segs[0]);
    assert Unspent(c.segs[0]);
    if env.sock != Fails {
      var m := TakenOf(buf, env);
      UseTakesFromTheFront(c.segs, m);
      var segs := if m > 0 then Use(c.segs, m) else c.segs;
      assert buf[..m] + Pending(segs) == Pending(c.segs);
      Assoc(c.wire, buf[..m], Pending(segs));
    }
  }

  /** The unsent part of a buffer, as a backlog of its own */
  lemma PendingRemainder(rest: seq<byte>, memory: bool)
    requires rest != []
    ensures AllUnspent(Append([], rest, memory)) && Pending(Append([], rest, memory)) == if memory then rest else []
  {
    var s := Segment(rest, 0);
    assert Append([], rest, true) == [s] && Rest(s) == rest;
    assert Pending([s]) == Rest(s) + Pending([]);
  }

  lemma DirectKeepsStream(c: Conn, buf: seq<byte>, env: Env)
    requires Inv(c) && c.segs == [] && !c.flushing
    ensures var r := Direct(c, buf, env);
            && Inv(r.conn)
            && (buf == [] || env.sock != Fails ==> Stream(r.conn) == Stream(c) + Gained(c, buf, env))
            && (r.ret >= 0 ==> r.ret == |buf|)
            && (r.ret >= 0 && r.conn.segs != [] ==> r.asks)
  {
    if buf != [] && env.sock != Fails {
      var m := TakenOf(buf, env);
      SplitAt(buf, m);
      Assoc(c.wire, buf[..m], buf[m..]);
      if m < |buf| {
        PendingRemainder(buf[m..], env.memory);
      } else {
        assert buf[..m] == buf;
      }
    }
  }

  /** One call without a socket error: the stream gains exactly the offered buffer, unless the buffer
      came after the flush or could not have the segment it needed.  The count returned is of the offered bytes only
      when there was no backlog; behind one it is of the bytes drained. */
  lemma IssueRawKeepsStream(c: Conn, buf: Option<seq<byte>>, env: Env)
    requires Inv(c) && !c.unusable && (buf.Some? ==> Sendable(c, buf.value))
    ensures var r := Issue(c, buf, env);
            && Inv(r.conn)
            && (r.conn.unusable <==> r.ret == -1 && env.sock == Fails)
            && (!r.conn.unusable ==>
                  Stream(r.conn) == Stream(c) + (if buf == None then [] else Gained(c, buf.value, env)))
            && (r.ret >= 0 ==>
                  r.ret == if c.segs != [] then |r.conn.wire| - |c.wire| else if buf.Some? then |buf.value| else 0)
            && (r.ret >= 0 && r.conn.segs != [] ==> r.asks)
  {
    if c.segs == [] {
      if buf.Some? && !c.flushing {
        DirectKeepsStream(c, buf.value, env);
      }
    } else if buf.Some? {
      AppendKeeps(c, buf.value, env.memory);
      var c1 := c.(segs := Append(c.segs, buf.value, env.memory));
      Assoc(c.wire, Pending(c.segs), Gained(c, buf.value, env));
      DrainKeepsStream(c1, env);
    } else {
      DrainKeepsStream(c, env);
    }
  }

  // ----- what one call tells its caller, and the flags it leaves -----

  /** What a call offers the socket: the front of the backlog, or with none the buffer, unless that is ignored */
  function Offered(c: Conn, buf: Option<seq<byte>>): (bytes: seq<byte>) {
    if c.segs != [] then Rest(c.segs[0])
    else if buf.None? || c.flushing then []
    else buf.value
  }

  /** The call sent the last of a backlog. */
  predicate Emptied(c: Conn, r: Issued) {
    c.segs != [] && r.conn.segs == []
  }

  /** The wire gains what the socket takes of what it is offered.  The call fails if the socket does, if it has emptied
      the backlog of a connection that is to close, and if it then could not complete a deferred transaction; a
      transaction is no longer deferred when its completion has been tried.  It asks for another callback after every
      other drain, whether or not that empties the backlog, and after a partial send. */
  predicate Outcome(c: Conn, buf: Option<seq<byte>>, env: Env, r: Issued) {
    var front := Offered(c, buf);
    var m := if env.sock == Fails then 0 else TakenOf(front, env);
    && r.conn.wire == c.wire + front[..m]
    && (r.conn.unusable <==> front != [] && env.sock == Fails)
    && r.conn.flushing == c.flushing
    && (r.conn.deferred <==> c.deferred && !(Emptied(c, r) && !c.flushing))
    && (r.ret == -1 <==>
          r.conn.unusable || (Emptied(c, r) && (c.flushing || (c.deferred && env.completeFails))))
    && (r.asks <==>
          && !r.conn.unusable
          && if c.segs != [] then !(Emptied(c, r) && (c.flushing || c.deferred)) else m < |front|)
  }

  lemma DrainOutcome(c: Conn, env: Env)
    requires Inv(c) && c.segs != [] && !c.unusable
    ensures Outcome(c, None, env, Drain(c, env))
  {
    assert Unspent(c.segs[0]);
    assert c.wire + [] == c.wire;
  }

  lemma DirectOutcome(c: Conn, buf: seq<byte>, env: Env)
    requires c.segs == [] && !c.unusable && !c.flushing
    ensures Outcome(c, Some(buf), env, Direct(c, buf, env))
  {
    assert c.wire + [] == c.wire;
  }

  lemma IssueOutcome(c: Conn, buf: Option<seq<byte>>, env: Env)
    requires Inv(c) && !c.unusable && (buf.Some? ==> Sendable(c, buf.value))
    ensures Outcome(c, buf, env, Issue(c, buf, env))
  {
    if c.segs != [] {
      if buf.Some? {
        AppendKeeps(c, buf.value, env.memory);
        DrainOutcome(c.(segs := Append(c.segs, buf.value, env.memory)), env);
      } else {
        DrainOutcome(c, env);
      }
    } else if buf.Some? && !c.flushing {
      DirectOutcome(c, buf.value, env);
    } else {
      assert c.wire + [] == c.wire;
    }
  }

  // ----- runs -----

  datatype Event =
    | Send(buf: seq<byte>, env: Env)
    | Service(env: Env)  // the service loop drains
    | StartFlush         // the connection is to close
    | DeferCompletion    // an http transaction ends behind a backlog

  predicate Possible(c: Conn, e: Event) {
    !c.unusable && (e.Send? ==> Sendable(c, e.buf))
  }

  function Step(c: Conn, e: Event): (c': Conn) {
    match e
    case Send(buf, env) => Issue(c, Some(buf), env).conn
    case Service(env) => Issue(c, None, env).conn
    case StartFlush => c.(flushing := true)
    case DeferCompletion => c.(deferred := true)
  }

  predicate CanRun(c: Conn, events: seq<Event>)
    decreases |events|
  {
    events == [] || (Possible(c, events[0]) && CanRun(Step(c, events[0]), events[1..]))
  }

  function Run(c: Conn, events: seq<Event>): (c': Conn)
    requires CanRun(c, events)
    decreases |events|
  {
    if events == [] then c else Run(Step(c, events[0]), events[1..])
  }

  /** The buffers of the run, one after another, leaving out those sent after the flush was done */
  function Accepted(c: Conn, events: seq<Event>): (bytes: seq<byte>)
    requires CanRun(c, events)
    decreases |events|
  {
    if events == [] then []
    else (if events[0].Send? && !Ignored(c) then events[0].buf else [])
         + Accepted(Step(c, events[0]), events[1..])
  }

  /** Every buffer of the run that needs a segment gets one. */
  predicate SegmentsSuffice(c: Conn, events: seq<Event>)
    requires CanRun(c, events)
    decreases |events|
  {
    events == [] ||
    ((events[0].Send? ==> !Loses(c, events[0].buf, events[0].env)) && SegmentsSuffice(Step(c, events[0]), events[1..]))
  }

  lemma StepKeepsStream(c: Conn, e: Event)
    requires Inv(c) && Possible(c, e)
    ensures Inv(Step(c, e))
    ensures !Step(c, e).unusable ==>
              Stream(Step(c, e)) == Stream(c) + (if e.Send? then Gained(c, e.buf, e.env) else [])
  {
    match e
    case Send(buf, env) => IssueRawKeepsStream(c, Some(buf), env);
    case Service(env) => IssueRawKeepsStream(c, None, env);
    case _ =>
  }

  /** Nothing is ever added to the stream but what was accepted, and in that order. */
  lemma {:induction false} StreamIsNoLongerThanAccepted(c: Conn, events: seq<Event>)
    requires Inv(c) && CanRun(c, events) && !Run(c, events).unusable
    ensures |Stream(Run(c, events))| <= |Stream(c)| + |Accepted(c, events)|
    ensures |Stream(Run(c, events))| == |Stream(c)| + |Accepted(c, events)| ==> SegmentsSuffice(c, events)
    decreases |events|
  {
    if events != [] {
      StepKeepsStream(c, events[0]);
      StillUsable(c, events);
      StreamIsNoLongerThanAccepted(Step(c, events[0]), events[1..]);
    }
  }

  lemma StillUsable(c: Conn, events: seq<Event>)
    requires CanRun(c, events) && events != [] && !Run(c, events).unusable
    ensures !Step(c, events[0]).unusable
  {
    var c1, rest := Step(c, events[0]), events[1..];
    if rest == [] {
      assert Run(c1, rest) == c1;
    } else {
      assert Possible(c1, rest[0]);
    }
  }

  lemma {:induction false} NothingIsLostIfSegmentsSuffice(c: Conn, events: seq<Event>)
    requires Inv(c) && CanRun(c, events) && !Run(c, events).unusable && SegmentsSuffice(c, events)
    ensures Stream(Run(c, events)) == Stream(c) + Accepted(c, events)
    decreases |events|
  {
    if events != [] {
      StepKeepsStream(c, events[0]);
      StillUsable(c, events);
      NothingIsLostIfSegmentsSuffice(Step(c, events[0]), events[1..]);
      var first := if events[0].Send? && !Ignored(c) then events[0].buf else [];
      var later := Accepted(Step(c, events[0]), events[1..]);
      Assoc(Stream(c), first, later);
    }
  }

  const Fresh := Conn([], [], false, false, false)

  /** Over every run of sends and drains up to a socket error, however the socket splits them: what is on
      the wire followed by the backlog is exactly the accepted buffers in order, if and only if
      every buffer that needed a segment got one, which it does with memory and fewer than SANITY segments ahead. */
  lemma WireAndBacklogAreTheAcceptedBytes(events: seq<Event>)
    requires CanRun(Fresh, events) && !Run(Fresh, events).unusable
    ensures Stream(Run(Fresh, events)) == Accepted(Fresh, events) <==> SegmentsSuffice(Fresh, events)
  {
    assert Stream(Fresh) == [];
    StreamIsNoLongerThanAccepted(Fresh, events);
    if SegmentsSuffice(Fresh, events) {
      NothingIsLostIfSegmentsSuffice(Fresh, events);
      assert Stream(Fresh) + Accepted(Fresh, events) == Accepted(Fresh, events);
    }
  }

  // A run that does lose a buffer: the socket takes nothing while 1025 buffers are sent.

  lemma {:induction false} RunAppend(c: Conn, events: seq<Event>, more: seq<Event>)
    requires CanRun(c, events) && CanRun(Run(c, events), more)
    ensures CanRun(c, events + more) && Run(c, events + more) == Run(Run(c, events), more)
    decreases |events|
  {
    if events == [] {
      assert events + more == more;
    } else {
      assert (events + more)[1..] == events[1..] + more;
      RunAppend(Step(c, events[0]), events[1..], more);
    }
  }

  lemma {:induction false} AcceptedAppend(c: Conn, events: seq<Event>, more: seq<Event>)
    requires CanRun(c, events) && CanRun(Run(c, events), more) && CanRun(c, events + more)
    ensures Accepted(c, events + more) == Accepted(c, events) + Accepted(Run(c, events), more)
    decreases |events|
  {
    if events == [] {
      assert events + more == more;
    } else {
      var first := if events[0].Send? && !Ignored(c) then events[0].buf else [];
      assert (events + more)[1..] == events[1..] + more;
      AcceptedAppend(Step(c, events[0]), events[1..], more);
      Assoc(first, Accepted(Step(c, events[0]), events[1..]), Accepted(Run(c, events), more));
    }
  }

  const Stuck := Send([0], Env(Sizes(1, 0, 0), Later, false, true))

  function Choked(n: nat): (c: Conn) {
    Conn(seq(n, _ => Segment([0], 0)), [], false, false, false)
  }

  lemma {:induction false} ChokeFor(n: nat)
    requires n <= SANITY
    ensures var events := seq(n, _ => Stuck); CanRun(Fresh, events) && Run(Fresh, events) == Choked(n)
  {
    if n == 0 {
      assert Choked(0) == Fresh;
    } else {
      var before := seq(n - 1, _ => Stuck);
      ChokeFor(n - 1);
      var c := Choked(n - 1);
      assert c.segs + [Segment([0], 0)] == Choked(n).segs;
      assert [0 as byte][0..] == [0];
      assert Step(c, Stuck) == Choked(n);
      assert [Stuck][1..] == [];
      RunAppend(Fresh, before, [Stuck]);
      assert before + [Stuck] == seq(n, _ => Stuck);
    }
  }

  lemma ALongBacklogLosesABuffer() returns (events: seq<Event>)
    ensures CanRun(Fresh, events) && !Run(Fresh, events).unusable
    ensures Stream(Run(Fresh, events)) != Accepted(Fresh, events)
  {
    ChokeFor(SANITY);
    var full := seq(SANITY, _ => Stuck);
    var c := Choked(SANITY);
    assert Step(c, Stuck) == c;
    assert [Stuck][1..] == [];
    events := full + [Stuck];
    RunAppend(Fresh, full, [Stuck]);
    AcceptedAppend(Fresh, full, [Stuck]);
    assert Inv(Fresh);
    StreamIsNoLongerThanAccepted(Fresh, full);
    assert Accepted(c, [Stuck]) == [0];
  }

  /** One send that the socket takes nothing of, without memory for the segment */
  lemma NoMemoryLosesABuffer()
    ensures var events := [Send([0], Env(Sizes(1, 0, 0), Later, false, false))];
            && CanRun(Fresh, events) && !Run(Fresh, events).unusable
            && Stream(Run(Fresh, events)) == [] && Accepted(Fresh, events) == [0]
  {
    var events := [Send([0], Env(Sizes(1, 0, 0), Later, false, false))];
    assert events[1..] == [];
    assert Step(Fresh, events[0]) == Fresh;
  }

  // ----- flushing before close -----

  /** A drain by the service loop on a socket that takes up to `m` bytes */
  function Draining(sizes: Sizes, m: nat): (env: Env) {
    Env(sizes, Takes(m), false, true)
  }

  /** Service-loop drains, the socket taking at most `takes[i]` bytes at the i-th */
  function Drained(c: Conn, sizes: Sizes, takes: seq<nat>): (c': Conn)
    decreases |takes|
  {
    if takes == [] then c
    else Drained(Issue(c, None, Draining(sizes, takes[0])).conn, sizes, takes[1..])
  }

  /** A drain that the socket would take a byte of shortens the backlog, if anything is offered; otherwise it
      changes nothing. */
  lemma DrainTakesSomething(c: Conn, sizes: Sizes, m: nat)
    requires Inv(c) && c.segs != [] && !c.unusable && m >= 1
    ensures var r := Issue(c, None, Draining(sizes, m));
            && Inv(r.conn) && Stream(r.conn) == Stream(c) && !r.conn.unusable && r.conn.flushing == c.flushing
            && (Offers(sizes) ==> |Pending(r.conn.segs)| < |Pending(c.segs)|)
            && (!Offers(sizes) ==> r.conn == c)
            && (c.flushing ==> (r.ret == -1 <==> r.conn.segs == []))
  {
    var buf := Rest(c.segs[0]);
    assert Unspent(c.segs[0]);
    SomethingIsOfferedIff(sizes, |buf|);
    DrainKeepsStream(c, Draining(sizes, m));
  }

  /** With nothing offered, no number of drains gets a backlog anywhere. */
  lemma {:induction false} NothingOfferedNeverDrains(c: Conn, sizes: Sizes, takes: seq<nat>)
    requires Inv(c) && c.segs != [] && !c.unusable && !Offers(sizes)
    requires forall i :: 0 <= i < |takes| ==> takes[i] >= 1
    ensures Drained(c, sizes, takes) == c
    decreases |takes|
  {
    if takes != [] {
      DrainTakesSomething(c, sizes, takes[0]);
      NothingOfferedNeverDrains(c, sizes, takes[1..]);
    }
  }

  /** A connection flushing before close is told to close within as many drains as there are bytes left,
      if its socket takes at least a byte each time; and by then every byte is on the wire. */
  lemma {:induction false} FlushEndsWithEverythingSent(c: Conn, sizes: Sizes, takes: seq<nat>) returns (k: nat)
    requires Inv(c) && c.flushing && !c.unusable && c.segs != [] && Offers(sizes)
    requires |takes| >= |Pending(c.segs)| && forall i :: 0 <= i < |takes| ==> takes[i] >= 1
    ensures k < |Pending(c.segs)| && k < |takes|
    ensures var r := Issue(Drained(c, sizes, takes[..k]), None, Draining(sizes, takes[k]));
            r.ret == -1 && r.conn.segs == [] && r.conn.wire == Stream(c)
    decreases |Pending(c.segs)|
  {
    NothingPendingIffEmpty(c.segs);
    DrainTakesSomething(c, sizes, takes[0]);
    var c1 := Issue(c, None, Draining(sizes, takes[0])).conn;
    if c1.segs == [] {
      k := 0;
      assert takes[..0] == [];
      assert Stream(c1) == c1.wire;
    } else {
      k := FlushEndsWithEverythingSent(c1, sizes, takes[1..]);
      k := k + 1;
      assert takes[..k][1..] == takes[1..][..k - 1];
    }
  }

  // ----- the code -----

  class Wsi {
    var buflistOut: seq<Segment>
    var wire: seq<byte>
    var flushing: bool
    var deferred: bool
    var unusable: bool
    var couldHavePending: bool

    ghost function View(): (c: Conn)
      reads this
    {
      Conn(buflistOut, wire, flushing, deferred, unusable)
    }

    /** lws_buflist_append_segment(): walks to the end of the list, up to a limit */
    method BuflistAppendSegment(buf: seq<byte>, memory: bool) returns (ret: int)
      requires buf != []
      modifies this`buflistOut
      ensures buflistOut == Append(old(buflistOut), buf, memory)
      ensures ret == if !memory || |old(buflistOut)| >= SANITY then -1 else if old(buflistOut) == [] then 1 else 0
    {
      var first := if buflistOut == [] then 1 else 0;
      var sanity, i := SANITY, 0;
      while i < |buflistOut|
        invariant 0 <= i <= |buflistOut| && sanity == SANITY - i && sanity > 0
        modifies {}
      {
        sanity := sanity - 1;
        if sanity == 0 {
          return -1;
        }
        i := i + 1;
      }
      if !memory {
        return -1;
      }
      buflistOut := buflistOut + [Segment(buf, 0)];
      ret := first;
    }

    /** lws_buflist_next_segment_len() */
    method BuflistNextSegment() returns (buf: seq<byte>)
      requires AllUnspent(buflistOut)
      ensures buf == if buflistOut == [] then [] else Rest(buflistOut[0])
    {
      if buflistOut == [] {
        return [];
      }
      assert Unspent(buflistOut[0]);
      buf := buflistOut[0].buf[buflistOut[0].pos..];
    }

    /** lws_buflist_use_segment() */
    method BuflistUseSegment(len: nat)
      requires buflistOut != [] && 0 < len && buflistOut[0].pos + len <= |buflistOut[0].buf|
      modifies this`buflistOut
      ensures buflistOut == Use(old(buflistOut), len)
    {
      var head := buflistOut[0];
      head := head.(pos := head.pos + len);
      if head.pos == |head.buf| {
        buflistOut := buflistOut[1..];
      } else {
        buflistOut := [head] + buflistOut[1..];
      }
    }

    /** The part of lws_issue_raw() both kinds of send share: offer the socket what it is limited to. */
    method Offer(bytes: seq<byte>, env: Env) returns (m: int)
      modifies this`wire, this`unusable, this`couldHavePending
      ensures env.sock == Fails ==> m == -1 && unusable && wire == old(wire)
      ensures env.sock != Fails ==> m == TakenOf(bytes, env)
      ensures env.sock != Fails ==> unusable == old(unusable) && wire == old(wire) + bytes[..m]
    {
      couldHavePending := true;
      if env.sock == Fails {
        unusable := true;
        return -1;
      }
      m := TakenOf(bytes, env);
      wire := wire + bytes[..m];
    }

    /** lws_issue_raw() from the point where there is a buflist to drain */
    method DrainBuflist(env: Env) returns (ret: int, asks: bool)
      requires Inv(View()) && buflistOut != []
      modifies this
      ensures Inv(View())
      ensures Issued(View(), ret, asks) == Drain(old(View()), env)
    {
      DrainKeepsStream(View(), env);
      assert Unspent(buflistOut[0]);
      var buf := BuflistNextSegment();
      var realLen := |buf|;
      var m := Offer(buf, env);
      if m == -1 {
        return -1, false;
      }
      if m > 0 {
        BuflistUseSegment(m);
      }
      if buflistOut == [] {
        m := realLen;
        if flushing {
          return -1, false;
        }
        if deferred {
          deferred := false;
          return if env.completeFails then -1 else realLen, false;
        }
      }
      return m, true;
    }

    /** lws_issue_raw() with a buffer and no buflist ahead of it */
    method SendDirect(buf: seq<byte>, env: Env) returns (ret: int, asks: bool)
      requires buflistOut == [] && !flushing
      modifies this
      ensures Inv(View())
      ensures Issued(View(), ret, asks) == Direct(old(View()), buf, env)
    {
      DirectKeepsStream(View(), buf, env);
      var realLen := |buf|;
      if realLen == 0 {
        return 0, false;
      }
      var m := Offer(buf, env);
      if m == -1 {
        return -1, false;
      }
      if m == realLen {
        return m, false;
      }
      var _ := BuflistAppendSegment(buf[m..], env.memory);
      return realLen, true;
    }

    /** lws_issue_raw(); `asks` is whether lws_callback_on_writable() was called */
    method IssueRaw(buf: Option<seq<byte>>, env: Env) returns (ret: int, asks: bool)
      requires Inv(View()) && (buf.Some? ==> Sendable(View(), buf.value))
      modifies this
      ensures Inv(View())
      ensures Issued(View(), ret, asks) == Issue(old(View()), buf, env)
    {
      if flushing && buflistOut == [] {
        return if buf.Some? then |buf.value| else 0, false;
      }
      if buf.Some? && buflistOut != [] {
        AppendKeeps(View(), buf.value, env.memory);
        var _ := BuflistAppendSegment(buf.value, env.memory);
      }
      if buflistOut != [] {
        ret, asks := DrainBuflist(env);
      } else if buf.Some? {
        ret, asks := SendDirect(buf.value, env);
      } else {
        ret, asks := 0, false;
      }
    }
  }
}
