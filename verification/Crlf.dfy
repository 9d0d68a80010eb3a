/** The newline expansion that the sshd test application does on a subprocess's output when the terminal asks
    for it: ssh_ops_child_process_io() and ssh_ops_tx() in `test-apps/test-sshd.c`.  Stdout and stderr have a ring of
    1024 bytes each and share the one flag that says a 0x0d is still to be written. */
module Crlf {
  import opened Basics
  import opened Sequences
  import Ring

  const LF: byte := 0x0a
  const CR: byte := 0x0d
  const BUFFER := 256
  const RING := 1024

  // ----- what is wanted -----

  /** All of the output with 0x0d after each 0x0a */
  function Expand(input: seq<byte>): (output: seq<byte>) {
    if input == [] then []
    else (if input[0] == LF then [LF, CR] else [input[0]]) + Expand(input[1..])
  }

  lemma {:induction false} ExpandAppend(a: seq<byte>, b: seq<byte>)
    ensures Expand(a + b) == Expand(a) + Expand(b)
  {
    if a == [] {
      assert a + b == b;
    } else {
      assert (a + b)[1..] == a[1..] + b;
      ExpandAppend(a[1..], b);
      Assoc(if a[0] == LF then [LF, CR] else [a[0]], Expand(a[1..]), Expand(b));
    }
  }

  function Owed(insertLf: bool): (output: seq<byte>) {
    if insertLf then [CR] else []
  }

  // ----- one read -----

  /** How much is read when `bytes` are free in a row: half of it, so that it can double */
  function ReadLimit(bytes: nat): (n: nat) {
    var n := if bytes != 1 then bytes / 2 else 1;
    if n > BUFFER then BUFFER else n
  }

  /** What the copying loop writes for `data`, and the flag after it */
  function Copied(insertLf: bool, data: seq<byte>): (r: (seq<byte>, bool)) {
    if data == [] then ([], insertLf)
    else
      var last := |data| - 1;
      var (out, owed) := Copied(insertLf, data[..last]);
      (out + Owed(owed) + [data[last]], data[last] == LF)
  }

  /** With the 0x0d that is added at the end if there is room */
  function Emitted(insertLf: bool, data: seq<byte>, bytes: nat): (r: (seq<byte>, bool)) {
    var (out, owed) := Copied(insertLf, data);
    if |out| < bytes && owed then (out + [CR], false) else (out, owed)
  }

  lemma {:induction false} CopiedConserves(insertLf: bool, data: seq<byte>)
    ensures var (out, owed) := Copied(insertLf, data); out + Owed(owed) == Owed(insertLf) + Expand(data)
  {
    if data == [] {
    } else {
      var last := |data| - 1;
      var init, d := data[..last], [data[last]];
      var (out, owed) := Copied(insertLf, init);
      CopiedConserves(insertLf, init);
      assert data == init + d;
      ExpandAppend(init, d);
      assert d[1..] == [];
      assert Expand(d) == d + Owed(data[last] == LF);
      Assoc(Owed(insertLf), Expand(init), Expand(d));
      Assoc(out + Owed(owed), d, Owed(data[last] == LF));
    }
  }

  /** Only a 0x0d that was owed can make every byte read two bytes written. */
  lemma {:induction false} CopiedLength(insertLf: bool, data: seq<byte>)
    ensures |Copied(insertLf, data).0| <= 2 * |data|
    ensures data != [] && !insertLf ==> |Copied(insertLf, data).0| < 2 * |data|
    ensures |data| == 1 ==> |Copied(insertLf, data).0| == 1 + |Owed(insertLf)|
  {
    if data != [] {
      CopiedLength(insertLf, data[..|data| - 1]);
    }
  }

  /** What one read leaves written and owed is what was owed and the expanded data. */
  lemma EmittedConserves(insertLf: bool, data: seq<byte>, bytes: nat)
    ensures var (out, owed) := Emitted(insertLf, data, bytes);
            out + Owed(owed) == Owed(insertLf) + Expand(data)
  {
    CopiedConserves(insertLf, data);
  }

  /** It fits the room it was given, except when that is a single byte and a 0x0d was owed. */
  lemma EmittedFitsIff(insertLf: bool, data: seq<byte>, bytes: nat)
    requires 1 <= |data| <= ReadLimit(bytes)
    ensures |Emitted(insertLf, data, bytes).0| <= bytes <==> !(bytes == 1 && insertLf)
  {
    CopiedLength(insertLf, data);
  }

  /** If it fits and leaves a 0x0d owed, it filled the room; and unless that was a single byte, a 0x0d was owed before
      and the room was even. */
  lemma OwedAfterFilling(insertLf: bool, data: seq<byte>, bytes: nat)
    requires 1 <= |data| <= ReadLimit(bytes)
    requires |Emitted(insertLf, data, bytes).0| <= bytes && Emitted(insertLf, data, bytes).1
    ensures |Emitted(insertLf, data, bytes).0| == bytes
    ensures bytes != 1 ==> insertLf && bytes % 2 == 0
  {
    CopiedLength(insertLf, data);
  }

  // ----- a ring of single bytes -----

  /** The storage, the head, the one tail, and everything that has been taken out */
  datatype Pipe = Pipe(buf: seq<byte>, head: nat, tail: nat, taken: seq<byte>)

  predicate PipeOk(p: Pipe) {
    |p.buf| == RING && p.head < RING && p.tail < RING
  }

  /** What is there for the reader */
  function Waits(p: Pipe): (bytes: seq<byte>)
    requires PipeOk(p)
    ensures |bytes| == Ring.Waiting(RING, p.head, p.tail)
  {
    if p.tail <= p.head then p.buf[p.tail..p.head] else p.buf[p.tail..] + p.buf[..p.head]
  }

  /** lws_ring_next_linear_insert_range() */
  function LinearRoom(buflen: nat, head: nat, oldest: nat): (bytes: nat)
    requires head < buflen && oldest < buflen
  {
    var n := Ring.FreeInBytes(buflen, 1, head, oldest);
    if head + n > buflen then buflen - head else n
  }

  function Room(p: Pipe): (bytes: nat)
    requires PipeOk(p)
  {
    LinearRoom(RING, p.head, p.tail)
  }

  /** A single byte is offered exactly when the head is on the last slot and there is more beyond the wrap. */
  lemma SingleByteOnlyAtTheWrap(buflen: nat, head: nat, oldest: nat)
    requires head < buflen && oldest < buflen
    ensures LinearRoom(buflen, head, oldest) == 1
            <==> head == buflen - 1 && Ring.Free(buflen, head, oldest) >= 2
  {
    Ring.FreeCountInBytes(buflen, 1, head, oldest);
  }

  /** The storage after `out` has been written from `at` on; what is past its end is not part of it. */
  function Stored(buf: seq<byte>, at: nat, out: seq<byte>): (buf': seq<byte>)
    ensures |buf'| == |buf|
  {
    seq(|buf|, i requires 0 <= i < |buf| => if at <= i < at + |out| then out[i - at] else buf[i])
  }

  /** `out` is written at the head, and lws_ring_bump_head() told its length. */
  function Written(p: Pipe, out: seq<byte>): (p': Pipe)
    requires PipeOk(p)
    ensures PipeOk(p')
  {
    p.(buf := Stored(p.buf, p.head, out), head := (p.head + |out|) % RING)
  }

  /** What fits the room is there for the reader after what was there before. */
  lemma WrittenWaits(p: Pipe, out: seq<byte>)
    requires PipeOk(p) && |out| <= Room(p)
    ensures Waits(Written(p, out)) == Waits(p) + out
  {
    var p' := Written(p, out);
    if p.head < p.tail {
      assert p.head + |out| < p.tail;
      assert p'.buf[p.tail..] == p.buf[p.tail..];
      assert p'.buf[..p'.head] == p.buf[..p.head] + out;
    } else if p.head + |out| < RING {
      assert p'.buf[p.tail..p'.head] == p.buf[p.tail..p.head] + out;
    } else {
      assert p'.head == 0 && (p.tail == 0 ==> out == []);
      assert p'.buf[p.tail..] == p.buf[p.tail..p.head] + out;
    }
  }

  /** lws_ring_consume() of up to `len` bytes */
  function Consumed(p: Pipe, len: nat): (p': Pipe)
    requires PipeOk(p)
    ensures PipeOk(p')
  {
    var n := if |Waits(p)| > len then len else |Waits(p)|;
    p.(tail := (p.tail + n) % RING, taken := p.taken + Waits(p)[..n])
  }

  /** What is taken out comes off the front of what waits: `len` bytes, or all if there are fewer. */
  lemma ConsumedTakes(p: Pipe, len: nat)
    requires PipeOk(p)
    ensures var p' := Consumed(p, len);
            && p'.taken + Waits(p') == p.taken + Waits(p)
            && |p'.taken| == |p.taken| + (if |Waits(p)| < len then |Waits(p)| else len)
  {
    var p', w := Consumed(p, len), Waits(p);
    var n := if |w| > len then len else |w|;
    assert Waits(p') == w[n..];
    SplitAt(w, n);
    Assoc(p.taken, w[..n], w[n..]);
  }

  // ----- two channels -----

  datatype Channel = Stdout | Stderr

  /** A read of `data` from a channel of the subprocess, or up to `len` bytes of it sent on */
  datatype Event = Reads(channel: Channel, data: seq<byte>) | Sends(channel: Channel, len: nat)

  /** The two rings, the flag, and the channel that left it as it is */
  datatype Hook = Hook(stdout: Pipe, stderr: Pipe, insertLf: bool, last: Channel)

  predicate HookOk(h: Hook) {
    PipeOk(h.stdout) && PipeOk(h.stderr)
  }

  function Of(h: Hook, c: Channel): (p: Pipe) {
    if c == Stdout then h.stdout else h.stderr
  }

  function With(h: Hook, c: Channel, p: Pipe): (h': Hook) {
    if c == Stdout then h.(stdout := p) else h.(stderr := p)
  }

  /** read() gives no more than it is asked for. */
  predicate Possible(h: Hook, e: Event)
    requires HookOk(h)
  {
    e.Reads? ==> |e.data| <= ReadLimit(Room(Of(h, e.channel)))
  }

  function Step(h: Hook, e: Event): (h': Hook)
    requires HookOk(h)
    ensures HookOk(h')
  {
    var p := Of(h, e.channel);
    match e
    case Reads(c, data) =>
      if data == [] then h
      else
        var (out, owed) := Emitted(h.insertLf, data, Room(p));
        With(h, c, Written(p, out)).(insertLf := owed, last := c)
    case Sends(c, len) => With(h, c, Consumed(p, len))
  }

  function Zeroes(n: nat): (buf: seq<byte>) {
    seq(n, _ => 0)
  }

  const Empty := Pipe(Zeroes(RING), 0, 0, [])

  function Run(events: seq<Event>): (h: Hook)
    ensures HookOk(h)
  {
    if events == [] then Hook(Empty, Empty, false, Stdout)
    else Step(Run(events[..|events| - 1]), events[|events| - 1])
  }

  predicate CanRun(events: seq<Event>) {
    events != [] ==>
      var init := events[..|events| - 1];
      CanRun(init) && Possible(Run(init), events[|events| - 1])
  }

  // ----- what can go wrong -----

  /** The read takes over the 0x0d that is owed to the other channel. */
  predicate TakesOver(h: Hook, e: Event) {
    e.Reads? && e.data != [] && h.insertLf && h.last != e.channel
  }

  /** More is written than there is room for. */
  predicate Overruns(h: Hook, e: Event)
    requires HookOk(h)
  {
    e.Reads? && e.data != [] &&
    var bytes := Room(Of(h, e.channel));
    |Emitted(h.insertLf, e.data, bytes).0| > bytes
  }

  /** A 0x0d is owed only at an even position, and the last one of the ring is odd. */
  predicate OwedAtEven(h: Hook) {
    h.insertLf ==> Of(h, h.last).head % 2 == 0
  }

  /** A read overruns if and only if there is a single byte of room and a 0x0d is owed, whichever channel's it is. */
  lemma OverrunsIff(h: Hook, e: Event)
    requires HookOk(h) && Possible(h, e)
    ensures Overruns(h, e) <==> e.Reads? && e.data != [] && h.insertLf && Room(Of(h, e.channel)) == 1
  {
    if e.Reads? && e.data != [] {
      EmittedFitsIff(h.insertLf, e.data, Room(Of(h, e.channel)));
    }
  }

  /** While a 0x0d is owed only at even positions, it is then the other channel's. */
  lemma OverrunTakesOver(h: Hook, e: Event)
    requires HookOk(h) && Possible(h, e) && OwedAtEven(h)
    ensures Overruns(h, e) <==> TakesOver(h, e) && Room(Of(h, e.channel)) == 1
  {
    OverrunsIff(h, e);
    SingleByteOnlyAtTheWrap(RING, Of(h, e.channel).head, Of(h, e.channel).tail);
  }

  lemma StepKeepsOwedAtEven(h: Hook, e: Event)
    requires HookOk(h) && Possible(h, e) && OwedAtEven(h) && !TakesOver(h, e)
    ensures OwedAtEven(Step(h, e))
  {
    if e.Reads? && e.data != [] {
      var p := Of(h, e.channel);
      var bytes := Room(p);
      OverrunTakesOver(h, e);
      SingleByteOnlyAtTheWrap(RING, p.head, p.tail);
      if Emitted(h.insertLf, e.data, bytes).1 {
        OwedAfterFilling(h.insertLf, e.data, bytes);
      }
    }
  }

  // ----- runs -----

  /** No read so far took over the other channel's 0x0d. */
  predicate NeverTakenOver(events: seq<Event>) {
    events != [] ==>
      var init := events[..|events| - 1];
      NeverTakenOver(init) && !TakesOver(Run(init), events[|events| - 1])
  }

  predicate NeverOverruns(events: seq<Event>) {
    events != [] ==>
      var init := events[..|events| - 1];
      NeverOverruns(init) && !Overruns(Run(init), events[|events| - 1])
  }

  /** A run that takes over no 0x0d, as any run of a single channel, never writes past the room it has. */
  lemma {:induction false} NoOverrunUnlessTakenOver(events: seq<Event>)
    requires CanRun(events) && NeverTakenOver(events)
    ensures NeverOverruns(events) && OwedAtEven(Run(events))
  {
    if events == [] {
    } else {
      var init, e := events[..|events| - 1], events[|events| - 1];
      NoOverrunUnlessTakenOver(init);
      OverrunTakesOver(Run(init), e);
      StepKeepsOwedAtEven(Run(init), e);
    }
  }

  /** Everything read from a channel */
  function Input(events: seq<Event>, c: Channel): (s: seq<byte>) {
    if events == [] then []
    else
      var e := events[|events| - 1];
      Input(events[..|events| - 1], c) + ReadFrom(e, c)
  }

  /** What has been sent on of a channel and what waits in its ring */
  function Output(h: Hook, c: Channel): (s: seq<byte>)
    requires HookOk(h)
  {
    Of(h, c).taken + Waits(Of(h, c))
  }

  /** That is its own expanded input, but for a 0x0d that it is owed. */
  predicate Expands(h: Hook, c: Channel, input: seq<byte>)
    requires HookOk(h)
  {
    Output(h, c) + Owed(h.insertLf && h.last == c) == Expand(input)
  }

  predicate Expanded(events: seq<Event>, c: Channel) {
    Expands(Run(events), c, Input(events, c))
  }

  /** Each channel has had its own input expanded at every moment so far. */
  predicate AlwaysExpanded(events: seq<Event>) {
    && Expanded(events, Stdout)
    && Expanded(events, Stderr)
    && (events != [] ==> AlwaysExpanded(events[..|events| - 1]))
  }

  /** A step that is no read of the channel leaves what it has as it is. */
  lemma OthersKeepOutput(h: Hook, e: Event, c: Channel)
    requires HookOk(h) && !(e.Reads? && e.data != [] && e.channel == c)
    ensures Output(Step(h, e), c) == Output(h, c)
  {
    if e.Sends? && e.channel == c {
      ConsumedTakes(Of(h, c), e.len);
    }
  }

  lemma ReadAddsOutput(h: Hook, c: Channel, data: seq<byte>)
    requires HookOk(h) && data != [] && !Overruns(h, Reads(c, data))
    ensures var (out, owed) := Emitted(h.insertLf, data, Room(Of(h, c)));
            Output(Step(h, Reads(c, data)), c) == Output(h, c) + out
  {
    var p := Of(h, c);
    var (out, owed) := Emitted(h.insertLf, data, Room(p));
    WrittenWaits(p, out);
    Assoc(p.taken, Waits(p), out);
  }

  lemma ExpandedAfterRead(h: Hook, c: Channel, data: seq<byte>, input: seq<byte>)
    requires HookOk(h) && data != [] && !Overruns(h, Reads(c, data)) && !TakesOver(h, Reads(c, data))
    requires Expands(h, c, input)
    ensures Expands(Step(h, Reads(c, data)), c, input + data)
  {
    ReadAddsOutput(h, c, data);
    EmittedConserves(h.insertLf, data, Room(Of(h, c)));
    var (out, owed) := Emitted(h.insertLf, data, Room(Of(h, c)));
    ExpandAppend(input, data);
    Assoc(Output(h, c), out, Owed(owed));
    Assoc(Output(h, c), Owed(h.insertLf), Expand(data));
  }

  lemma ExpandedAfterOther(h: Hook, e: Event, c: Channel, input: seq<byte>)
    requires HookOk(h) && !(e.Reads? && e.data != [] && e.channel == c) && !TakesOver(h, e)
    requires Expands(h, c, input)
    ensures Expands(Step(h, e), c, input)
  {
    OthersKeepOutput(h, e, c);
  }

  /** What an event reads from a channel */
  function ReadFrom(e: Event, c: Channel): (data: seq<byte>) {
    if e.Reads? && e.channel == c then e.data else []
  }

  lemma StepKeepsExpanding(h: Hook, e: Event, c: Channel, input: seq<byte>)
    requires HookOk(h) && Possible(h, e) && OwedAtEven(h) && !TakesOver(h, e)
    requires Expands(h, c, input)
    ensures Expands(Step(h, e), c, input + ReadFrom(e, c))
  {
    OverrunTakesOver(h, e);
    if e.Reads? && e.data != [] && e.channel == c {
      ExpandedAfterRead(h, c, e.data, input);
    } else {
      ExpandedAfterOther(h, e, c, input);
      assert input + [] == input;
    }
  }

  lemma TakenOverIsMissing(h: Hook, e: Event, input: seq<byte>)
    requires HookOk(h) && TakesOver(h, e) && Expands(h, h.last, input)
    ensures !Expands(Step(h, e), h.last, input)
  {
    OthersKeepOutput(h, e, h.last);
    assert |Output(h, h.last)| + 1 == |Expand(input)|;
  }

  /** However the subprocess's output is split into reads and sent on, each channel's reader always gets its own
      input expanded, if and only if no read comes from one channel while the other is owed a 0x0d. */
  lemma {:induction false} ChannelsAreExpandedUnlessTakenOver(events: seq<Event>)
    requires CanRun(events)
    ensures AlwaysExpanded(events) <==> NeverTakenOver(events)
  {
    if events == [] {
    } else {
      var init, e := events[..|events| - 1], events[|events| - 1];
      ChannelsAreExpandedUnlessTakenOver(init);
      if AlwaysExpanded(init) {
        if TakesOver(Run(init), e) {
          var c := Run(init).last;
          TakenOverIsMissing(Run(init), e, Input(init, c));
          assert Input(init, c) + [] == Input(init, c);
        } else {
          NoOverrunUnlessTakenOver(init);
          StepKeepsExpanding(Run(init), e, Stdout, Input(init, Stdout));
          StepKeepsExpanding(Run(init), e, Stderr, Input(init, Stderr));
        }
      }
    }
  }

  /** In particular it does, and nothing overruns, when only the one channel is read. */
  lemma {:induction false} OneChannelIsExpanded(events: seq<Event>, c: Channel)
    requires CanRun(events) && forall i :: 0 <= i < |events| && events[i].Reads? ==> events[i].channel == c
    ensures NeverTakenOver(events) && (Run(events).insertLf ==> Run(events).last == c)
    ensures Expanded(events, c) && NeverOverruns(events)
  {
    if events == [] {
    } else {
      var init, e := events[..|events| - 1], events[|events| - 1];
      OneChannelIsExpanded(init, c);
      NoOverrunUnlessTakenOver(init);
      StepKeepsExpanding(Run(init), e, c, Input(init, c));
      NoOverrunUnlessTakenOver(events);
    }
  }

  // ----- runs in which it does go wrong -----

  /** `k` bytes have been read, none of them a newline, and sent on. */
  predicate Drained(p: Pipe, k: nat) {
    PipeOk(p) && p.head == k == p.tail && (k > 0 ==> p.buf[0] == 97)
  }

  lemma CopiedOne(insertLf: bool, d: byte)
    ensures Copied(insertLf, [d]) == (if insertLf then [CR, d] else [d], d == LF)
  {
    assert [d][..0] == [];
    assert [] + Owed(insertLf) + [d] == if insertLf then [CR, d] else [d];
  }

  lemma AddEvent(events: seq<Event>, e: Event)
    ensures CanRun(events + [e]) <==> CanRun(events) && Possible(Run(events), e)
    ensures Run(events + [e]) == Step(Run(events), e)
  {
    assert (events + [e])[..|events|] == events;
  }

  /** One more plain byte is read and sent on. */
  lemma DrainOneMore(h: Hook, c: Channel, k: nat)
    requires HookOk(h) && !h.insertLf && Drained(Of(h, c), k) && k < RING - 1
    ensures Possible(h, Reads(c, [97]))
    ensures var h' := Step(Step(h, Reads(c, [97])), Sends(c, 1));
            !h'.insertLf && Drained(Of(h', c), k + 1) && (forall d :: d != c ==> Of(h', d) == Of(h, d))
  {
    var p := Of(h, c);
    CopiedOne(false, 97);
    assert Room(p) >= 2;
    var h1 := Step(h, Reads(c, [97]));
    assert Emitted(false, [97], Room(p)) == ([97], false);
    assert Of(h1, c) == Written(p, [97]);
    WrittenWaits(p, [97]);
    assert |Waits(Of(h1, c))| == 1;
  }

  /** A run after which the rings' heads are at `j` and `k`, with everything sent on */
  predicate DrainedAt(events: seq<Event>, j: nat, k: nat) {
    var h := Run(events);
    CanRun(events) && !h.insertLf && Drained(h.stdout, j) && Drained(h.stderr, k)
  }

  lemma AddDrained(events: seq<Event>, c: Channel, j: nat, k: nat) returns (events': seq<Event>)
    requires (if c == Stdout then j else k) < RING - 1
    ensures DrainedAt(events, j, k) ==>
              DrainedAt(events', if c == Stdout then j + 1 else j, if c == Stdout then k else k + 1)
  {
    events' := events + [Reads(c, [97])] + [Sends(c, 1)];
    if DrainedAt(events, j, k) {
      DrainOneMore(Run(events), c, if c == Stdout then j else k);
      AddEvent(events, Reads(c, [97]));
      AddEvent(events + [Reads(c, [97])], Sends(c, 1));
    }
  }

  lemma NothingDrained()
    ensures DrainedAt([], 0, 0)
  {
  }

  /** The heads of both rings are brought to any position. */
  lemma {:induction false} DrainTo(j: nat, k: nat) returns (events: seq<Event>)
    requires j < RING && k < RING
    ensures DrainedAt(events, j, k)
    decreases j + k
  {
    NothingDrained();
    events := [];
    if j > 0 {
      events := DrainTo(j - 1, k);
      events := AddDrained(events, Stdout, j - 1, k);
    } else if k > 0 {
      events := DrainTo(j, k - 1);
      events := AddDrained(events, Stderr, j, k - 1);
    }
  }

  /** A newline read with the head on the last slot leaves the 0x0d owed. */
  lemma NewlineAtTheWrap(h: Hook)
    requires HookOk(h) && !h.insertLf && Drained(h.stdout, RING - 1)
    ensures Possible(h, Reads(Stdout, [LF])) && Room(h.stdout) == 1
    ensures var h' := Step(h, Reads(Stdout, [LF]));
            h'.insertLf && h'.last == Stdout && Waits(h'.stdout) == [LF] && h'.stderr == h.stderr
  {
    CopiedOne(false, LF);
    WrittenWaits(h.stdout, [LF]);
  }

  /** Stdout has its head on the last slot and has just read a newline; stderr has had `k` bytes. */
  lemma NewlineOwed(k: nat) returns (events: seq<Event>)
    requires k < RING
    ensures CanRun(events)
    ensures var h := Run(events);
            h.insertLf && h.last == Stdout && Waits(h.stdout) == [LF] && Drained(h.stderr, k)
  {
    var start := DrainTo(RING - 1, k);
    NewlineAtTheWrap(Run(start));
    AddEvent(start, Reads(Stdout, [LF]));
    events := start + [Reads(Stdout, [LF])];
  }

  lemma StderrTakesOver(h: Hook)
    requires HookOk(h) && h.insertLf && h.last == Stdout && Drained(h.stderr, 0)
    ensures Possible(h, Reads(Stderr, [7])) && TakesOver(h, Reads(Stderr, [7]))
    ensures var h' := Step(h, Reads(Stderr, [7]));
            h'.stdout == h.stdout && !h'.insertLf && Waits(h'.stderr) == [CR, 7]
  {
    CopiedOne(true, 7);
    WrittenWaits(h.stderr, [CR, 7]);
  }

  /** Stdout reads a newline at the wrap, and the 0x0d goes to stderr. */
  lemma TakingOverHappens() returns (events: seq<Event>)
    ensures CanRun(events + [Reads(Stderr, [7])]) && TakesOver(Run(events), Reads(Stderr, [7]))
    ensures var h := Run(events + [Reads(Stderr, [7])]);
            Waits(h.stdout) == [LF] && !h.insertLf && Waits(h.stderr) == [CR, 7]
  {
    events := NewlineOwed(0);
    StderrTakesOver(Run(events));
    AddEvent(events, Reads(Stderr, [7]));
  }

  lemma StderrOverruns(h: Hook)
    requires HookOk(h) && h.insertLf && h.last == Stdout && Drained(h.stderr, RING - 1)
    ensures Possible(h, Reads(Stderr, [7])) && Overruns(h, Reads(Stderr, [7]))
    ensures Waits(Step(h, Reads(Stderr, [7])).stderr) == [CR, 97]
  {
    SingleByteOnlyAtTheWrap(RING, h.stderr.head, h.stderr.tail);
    CopiedOne(true, 7);
    var p' := Written(h.stderr, [CR, 7]);
    assert p'.buf[RING - 1..] == [CR] && p'.buf[..1] == [97];
  }

  /** With stderr at its wrap too, the byte after the 0x0d goes past the end of its ring, and the reader gets whatever
      was in the first slot instead. */
  lemma AnOverrunHappens() returns (events: seq<Event>)
    ensures CanRun(events + [Reads(Stderr, [7])]) && Overruns(Run(events), Reads(Stderr, [7]))
    ensures Waits(Run(events + [Reads(Stderr, [7])]).stderr) == [CR, 97]
  {
    events := NewlineOwed(RING - 1);
    StderrOverruns(Run(events));
    AddEvent(events, Reads(Stderr, [7]));
  }

  // Once a 0x0d has been taken over, one may be owed at an odd position, and a channel may overrun by itself.

  /** Stdout has its head on the last slot, and `k` bytes of stderr wait, none of them a newline. */
  predicate FilledAt(events: seq<Event>, k: nat) {
    var h := Run(events);
    && CanRun(events) && !h.insertLf && Drained(h.stdout, RING - 1)
    && h.stderr.head == k && h.stderr.tail == 0
  }

  lemma FillOneMore(h: Hook, k: nat)
    requires HookOk(h) && !h.insertLf && h.stderr.head == k && h.stderr.tail == 0 && k < RING - 3
    ensures Possible(h, Reads(Stderr, [97]))
    ensures var h' := Step(h, Reads(Stderr, [97]));
            !h'.insertLf && h'.stdout == h.stdout && h'.stderr.head == k + 1 && h'.stderr.tail == 0
  {
    CopiedOne(false, 97);
  }

  lemma AddFilled(events: seq<Event>, k: nat)
    requires k < RING - 3
    ensures FilledAt(events, k) ==> FilledAt(events + [Reads(Stderr, [97])], k + 1)
  {
    if FilledAt(events, k) {
      FillOneMore(Run(events), k);
      AddEvent(events, Reads(Stderr, [97]));
    }
  }

  lemma {:induction false} FillTo(k: nat) returns (events: seq<Event>)
    requires k <= RING - 3
    ensures FilledAt(events, k)
  {
    if k == 0 {
      events := DrainTo(RING - 1, 0);
    } else {
      events := FillTo(k - 1);
      AddFilled(events, k - 1);
      events := events + [Reads(Stderr, [97])];
    }
  }

  /** A newline that takes over a 0x0d and fills the last two bytes of room leaves one owed with the head on the last
      slot. */
  lemma FilledByTakingOver(h: Hook)
    requires HookOk(h) && h.insertLf && h.last == Stdout && h.stderr.head == RING - 3 && h.stderr.tail == 0
    ensures Possible(h, Reads(Stderr, [LF])) && TakesOver(h, Reads(Stderr, [LF])) && !Overruns(h, Reads(Stderr, [LF]))
    ensures var h' := Step(h, Reads(Stderr, [LF]));
            h'.insertLf && h'.last == Stderr && h'.stderr.head == RING - 1 && h'.stderr.tail == 0
  {
    CopiedOne(true, LF);
  }

  /** Once some of it has been sent on, there is a single byte of room. */
  lemma SendingMakesRoomForOne(h: Hook)
    requires HookOk(h) && h.stderr.head == RING - 1 && h.stderr.tail == 0
    ensures var h' := Step(h, Sends(Stderr, 2));
            h'.insertLf == h.insertLf && h'.last == h.last && Room(h'.stderr) == 1
  {
    var p := Consumed(h.stderr, 2);
    assert p.head == RING - 1 && p.tail == 2;
    SingleByteOnlyAtTheWrap(RING, p.head, p.tail);
  }

  /** The last read of the run overruns, and takes nothing over. */
  lemma AnOverrunOfItsOwnHappens() returns (events: seq<Event>)
    ensures CanRun(events + [Reads(Stderr, [7])])
    ensures Overruns(Run(events), Reads(Stderr, [7])) && !TakesOver(Run(events), Reads(Stderr, [7]))
  {
    var start := FillTo(RING - 3);
    NewlineAtTheWrap(Run(start));
    AddEvent(start, Reads(Stdout, [LF]));
    start := start + [Reads(Stdout, [LF])];
    FilledByTakingOver(Run(start));
    AddEvent(start, Reads(Stderr, [LF]));
    start := start + [Reads(Stderr, [LF])];
    SendingMakesRoomForOne(Run(start));
    AddEvent(start, Sends(Stderr, 2));
    events := start + [Sends(Stderr, 2)];
    OverrunsIff(Run(events), Reads(Stderr, [7]));
    AddEvent(events, Reads(Stderr, [7]));
  }

  // ----- the code -----

  /** A ring made with lws_ring_create(1, 1024, NULL) */
  class ByteRing {
    const buf: array<byte>
    var head: nat
    var oldestTail: nat
    ghost var taken: seq<byte>

    ghost predicate Valid()
      reads this, buf
    {
      buf.Length == RING && PipeOk(View())
    }

    ghost function View(): (p: Pipe)
      reads this, buf
    {
      Pipe(buf[..], head, oldestTail, taken)
    }

    constructor ()
      ensures Valid() && fresh(buf) && View() == Empty
    {
      buf := new byte[RING](_ => 0);
      head, oldestTail, taken := 0, 0, [];
      new;
      assert buf[..] == Empty.buf;
    }

    /** lws_ring_next_linear_insert_range() */
    method NextLinearInsertRange() returns (bytes: nat)
      requires Valid()
      ensures bytes == Room(View())
    {
      var n := Ring.FreeInBytes(RING, 1, head, oldestTail);
      bytes := if head + n > RING then RING - head else n;
    }

    /** One byte through the write pointer, `n` past the head; past the storage there is nothing of the ring's. */
    method Put(d: byte, n: nat, ghost before: seq<byte>, ghost out: seq<byte>)
      requires Valid() && |before| == RING && n == |out| && buf[..] == Stored(before, head, out)
      modifies buf
      ensures Valid() && buf[..] == Stored(before, head, out + [d])
    {
      if head + n < buf.Length {
        buf[head + n] := d;
      }
    }

    /** lws_ring_consume() with the ring's own tail, in one or two copies */
    method Consume(len: nat) returns (dest: seq<byte>)
      requires Valid()
      modifies this`oldestTail, this`taken
      ensures Valid() && View() == Consumed(old(View()), len)
      ensures taken == old(taken) + dest
    {
      ghost var w := Waits(View());
      var n := Ring.WaitingInBytes(RING, 1, head, oldestTail);
      if n > len {
        n := len;
      }
      var tail, m := oldestTail, 0;
      dest := [];
      if tail + n > RING {
        m := RING - tail;
        dest := buf[tail..];
        tail := 0;
      }
      dest := dest + buf[tail..tail + (n - m)];
      assert dest == w[..n];
      oldestTail := (tail + (n - m)) % RING;
      taken := taken + dest;
    }
  }

  class Priv {
    const ringStdout: ByteRing
    const ringStderr: ByteRing
    var insertLf: bool
    ghost var last: Channel

    ghost predicate Valid()
      reads this, ringStdout, ringStdout.buf, ringStderr, ringStderr.buf
    {
      ringStdout.Valid() && ringStderr.Valid() && ringStdout != ringStderr && ringStdout.buf != ringStderr.buf
    }

    ghost function View(): (h: Hook)
      reads this, ringStdout, ringStdout.buf, ringStderr, ringStderr.buf
    {
      Hook(ringStdout.View(), ringStderr.View(), insertLf, last)
    }

    /** ssh_ops_channel_create() */
    constructor ()
      ensures Valid() && View() == Run([])
      ensures fresh(ringStdout) && fresh(ringStdout.buf) && fresh(ringStderr) && fresh(ringStderr.buf)
    {
      ringStdout := new ByteRing();
      ringStderr := new ByteRing();
      insertLf, last := false, Stdout;
    }

    /** The expanding loop: `data` is written at the head of `r`. */
    method Copy(r: ByteRing, data: seq<byte>) returns (n: nat)
      requires Valid() && (r == ringStdout || r == ringStderr)
      modifies this`insertLf, r.buf
      ensures Valid()
      ensures var (out, owed) := Copied(old(insertLf), data);
              n == |out| && insertLf == owed && r.buf[..] == Stored(old(r.buf[..]), r.head, out)
    {
      ghost var before, out := r.buf[..], [];
      assert Stored(before, r.head, []) == before;
      n := 0;
      var m := 0;
      while m < |data|
        invariant 0 <= m <= |data| && n == |out|
        invariant r.Valid() && r.buf[..] == Stored(before, r.head, out)
        invariant (out, insertLf) == Copied(old(insertLf), data[..m])
      {
        assert data[..m + 1][..m] == data[..m];
        assert out + [] == out;
        if insertLf {
          insertLf := false;
          r.Put(CR, n, before, out);
          n, out := n + 1, out + [CR];
        }
        if data[m] == LF {
          insertLf := true;
        }
        r.Put(data[m], n, before, out);
        n, out := n + 1, out + [data[m]];
        m := m + 1;
      }
      assert data[..m] == data;
    }

    /** The loop and the 0x0d that is added if there is room */
    method CopyAndAdd(r: ByteRing, data: seq<byte>, bytes: nat) returns (n: nat)
      requires Valid() && (r == ringStdout || r == ringStderr)
      modifies this`insertLf, r.buf
      ensures Valid()
      ensures var (out, owed) := Emitted(old(insertLf), data, bytes);
              n == |out| && insertLf == owed && r.buf[..] == Stored(old(r.buf[..]), r.head, out)
    {
      ghost var before, out := r.buf[..], Copied(insertLf, data).0;
      n := Copy(r, data);
      if n < bytes && insertLf {
        insertLf := false;
        r.Put(CR, n, before, out);
        n := n + 1;
      }
    }

    /** ssh_ops_child_process_io(), for a terminal that wants newlines expanded; `data` is what read() gives when it is
        asked for ReadLimit() of the room. */
    method ChildProcessIo(channel: Channel, data: seq<byte>)
      requires Valid() && Possible(View(), Reads(channel, data))
      modifies this, ringStdout, ringStdout.buf, ringStderr, ringStderr.buf
      ensures Valid() && View() == Step(old(View()), Reads(channel, data))
    {
      if data == [] {
        return;
      }
      var r := if channel == Stderr then ringStderr else ringStdout;
      var bytes := r.NextLinearInsertRange();
      var n := CopyAndAdd(r, data, bytes);
      r.head := (r.head + n) % RING;
      last := channel;
    }

    /** ssh_ops_tx() */
    method Tx(channel: Channel, len: nat) returns (bytes: seq<byte>)
      requires Valid()
      modifies ringStdout, ringStderr
      ensures Valid() && View() == Step(old(View()), Sends(channel, len))
    {
      var r := if channel == Stdout then ringStdout else ringStderr;
      bytes := r.Consume(len);
    }
  }
}
