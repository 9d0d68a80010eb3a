/** What every event does to a mirror instance, said without the steps of MirrorSpec: where each reader stands and
    what has been accepted, computed from the events alone; and how each flag of each reader comes out, from where
    the readers stood before the event and where they stand after it. */
module MirrorReference {
  import opened Basics
  import opened Ring
  import opened MirrorSpec

  // ----- positions and accepted messages -----

  /** A reader's place: where it came in and how far it has got */
  datatype Place = Place(id: nat, joined: nat, tail: nat)

  /** What has been accepted, the places of those who are there, and the last places of those who have gone */
  datatype Line = Line(log: seq<Message>, places: seq<Place>, gone: seq<Place>)

  function Ends(places: seq<Place>): (tails: seq<nat>) {
    seq(|places|, i requires 0 <= i < |places| => places[i].tail)
  }

  /** The furthest behind, or the end of the log */
  function Behind(l: Line): (p: nat) {
    MinOf(Ends(l.places), |l.log|)
  }

  function Without(places: seq<Place>, who: nat): (rest: seq<Place>)
    requires who < |places|
  {
    places[..who] + places[who + 1..]
  }

  /** A newcomer gets everything from the furthest behind on; a writable event moves a reader on by what its pipe takes
      and no further than the end; a message is accepted if fewer than QUEUELEN - 1 wait and there is memory. */
  function Next(l: Line, e: Event): (l': Line) {
    match e
    case Joins(id) => l.(places := [Place(id, Behind(l), Behind(l))] + l.places)
    case Leaves(who) =>
      if who < |l.places| then l.(places := Without(l.places, who), gone := l.gone + [l.places[who]]) else l
    case Writable(who, budget) =>
      if who < |l.places| then
        var p := l.places[who];
        l.(places := l.places[who := p.(tail := if p.tail + budget < |l.log| then p.tail + budget else |l.log|)])
      else l
    case WritableFails(who, sent) =>
      if who < |l.places| then
        var p := l.places[who];
        l.(places := Without(l.places, who), gone := l.gone + [p.(tail := p.tail + sent)])
      else l
    case Received(msg, memory) =>
      if memory && |l.log| - Behind(l) < QUEUELEN - 1 then l.(log := l.log + [msg]) else l
  }

  function After(l: Line, events: seq<Event>): (l': Line)
    decreases |events|
  {
    if events == [] then l else After(Next(l, events[0]), events[1..])
  }

  function PlaceOf(r: Reader): (p: Place) {
    Place(r.id, r.joined, r.tail)
  }

  function Places(readers: seq<Reader>): (places: seq<Place>) {
    seq(|readers|, i requires 0 <= i < |readers| => PlaceOf(readers[i]))
  }

  function LineOf(h: Hub): (l: Line) {
    Line(h.log, Places(h.readers), Places(h.departed))
  }

  lemma BehindIsOldest(h: Hub)
    ensures Behind(LineOf(h)) == Oldest(h)
  {
    assert Ends(Places(h.readers)) == Tails(h.readers);
  }

  /** The two toggles and the timers leave every place as it is. */
  lemma TogglesKeepLine(h: Hub, on: bool, at: nat)
    ensures LineOf(SetRx(h, on)) == LineOf(h)
    ensures LineOf(SetTimers(h, at)) == LineOf(h)
    ensures LineOf(WantAll(h)) == LineOf(h)
  {
    assert Places(SetRx(h, on).readers) == Places(h.readers);
    assert Places(SetTimers(h, at).readers) == Places(h.readers);
    assert Places(WantAll(h).readers) == Places(h.readers);
  }

  lemma SettleKeepsLine(h: Hub, before: nat)
    ensures LineOf(Settle(h, before)) == LineOf(h)
  {
    TogglesKeepLine(h, true, Oldest(h));
    TogglesKeepLine(SetRx(h, true), true, Oldest(h));
  }

  lemma DetachLine(h: Hub, who: nat)
    requires who < |h.readers|
    ensures LineOf(Detach(h, who))
         == Line(h.log, Without(Places(h.readers), who), Places(h.departed) + [PlaceOf(h.readers[who])])
  {
    RemoveKeepsOthers(h.readers, who);
    assert Places(Remove(h.readers, who)) == Without(Places(h.readers), who);
    assert Places(h.departed + [h.readers[who]]) == Places(h.departed) + [PlaceOf(h.readers[who])];
  }

  lemma AdvanceLine(h: Hub, who: nat, n: nat)
    requires who < |h.readers| && h.readers[who].tail + n <= |h.log|
    ensures var p := PlaceOf(h.readers[who]);
            LineOf(Advance(h, who, n))
            == LineOf(h).(places := Places(h.readers)[who := p.(tail := p.tail + n)])
  {
    var p := PlaceOf(h.readers[who]);
    assert Places(Advance(h, who, n).readers) == Places(h.readers)[who := p.(tail := p.tail + n)];
  }

  lemma JoinLine(h: Hub, id: nat)
    ensures LineOf(Join(h, id)) == Next(LineOf(h), Joins(id))
  {
    BehindIsOldest(h);
    var p := Place(id, Oldest(h), Oldest(h));
    assert Places(Join(h, id).readers) == [p] + Places(h.readers);
  }

  lemma WriteFailsLine(h: Hub, who: nat, sent: nat)
    requires Possible(h, WritableFails(who, sent))
    ensures LineOf(WriteFails(h, who, sent)) == Next(LineOf(h), WritableFails(who, sent))
  {
    var h1 := Advance(h, who, sent);
    AdvanceLine(h, who, sent);
    DetachLine(h1, who);
    SettleKeepsLine(Detach(h1, who), Oldest(h));
    assert Without(Places(h1.readers), who) == Without(Places(h.readers), who);
  }

  lemma ReceiveLine(h: Hub, msg: Message, memory: bool)
    ensures LineOf(Receive(h, msg, memory)) == Next(LineOf(h), Received(msg, memory))
  {
    BehindIsOldest(h);
    TogglesKeepLine(h, false, 0);
    TogglesKeepLine(SetRx(h, false), false, 0);
    var h1 := h.(log := h.log + [msg]);
    TogglesKeepLine(h1, false, 0);
    TogglesKeepLine(SetRx(h1, false), false, 0);
  }

  lemma StepFollowsLine(h: Hub, e: Event)
    requires Possible(h, e)
    ensures LineOf(Step(h, e)) == Next(LineOf(h), e)
  {
    match e
    case Joins(id) => JoinLine(h, id);
    case Leaves(who) =>
      DetachLine(h, who);
      SettleKeepsLine(Detach(h, who), Oldest(h));
    case Writable(who, budget) =>
      var n := if Unread(h, who) < budget then Unread(h, who) else budget;
      AdvanceLine(h, who, n);
      SettleKeepsLine(Advance(h, who, n), Oldest(h));
    case WritableFails(who, sent) => WriteFailsLine(h, who, sent);
    case Received(msg, memory) => ReceiveLine(h, msg, memory);
  }

  /** Over every run, who is there and who has gone, in which order, where each came in and got to, and what has been
      accepted are those of the events. */
  lemma {:induction false} RunFollowsLine(h: Hub, events: seq<Event>)
    requires CanRun(h, events)
    ensures LineOf(Run(h, events)) == After(LineOf(h), events)
    decreases |events|
  {
    if events != [] {
      StepFollowsLine(h, events[0]);
      RunFollowsLine(Step(h, events[0]), events[1..]);
    }
  }

  const Nobody := Line([], [], [])

  /** Every reader, there or gone, has been sent exactly the accepted messages, as the events brought them, from where
      it came in to where it has got. */
  lemma EveryReaderIsSentWhatWasAccepted(events: seq<Event>)
    requires CanRun(Fresh, events)
    ensures var h, l := Run(Fresh, events), After(Nobody, events);
            && |h.readers| == |l.places| && |h.departed| == |l.gone|
            && (forall i :: 0 <= i < |h.readers| ==> IsSent(h.readers[i], l.log, l.places[i]))
            && (forall i :: 0 <= i < |h.departed| ==> IsSent(h.departed[i], l.log, l.gone[i]))
  {
    var h, l := Run(Fresh, events), After(Nobody, events);
    assert LineOf(Fresh) == Nobody;
    RunFollowsLine(Fresh, events);
    EveryReaderIsSentAContiguousRun(events);
    assert forall i :: 0 <= i < |h.readers| ==> Places(h.readers)[i] == PlaceOf(h.readers[i]);
    assert forall i :: 0 <= i < |h.departed| ==> Places(h.departed)[i] == PlaceOf(h.departed[i]);
  }

  predicate IsSent(r: Reader, log: seq<Message>, p: Place) {
    PlaceOf(r) == p && p.joined <= p.tail <= |log| && r.wire == log[p.joined..p.tail]
  }

  // ----- flags -----

  /** Which reader this was before the event */
  function Was(e: Event, i: nat): (j: int) {
    if e.Joins? then i - 1
    else if (e.Leaves? || e.WritableFails?) && i >= e.who then i + 1
    else i
  }

  /** A reader's socket is switched when flow control turns, and only then. */
  predicate RxFollows(h: Hub, h': Hub, p: Reader, r: Reader) {
    r.rxOn == if h'.rx != h.rx then h'.rx else p.rxOn
  }

  /** When the oldest position moves, exactly those standing there with something to read get the hang-up timer; while
      it does not, a reader keeps its timer until it moves on. */
  predicate TimerFollows(h: Hub, h': Hub, p: Reader, r: Reader) {
    r.timed == if Oldest(h') != Oldest(h) then r.tail == Oldest(h') < |h'.log| else p.timed && r.tail == p.tail
  }

  /** Everybody is called back about a message that was stored or did not fit; a reader that has written is called back
      if it has more to write. */
  predicate WantsFollow(h: Hub, e: Event, h': Hub, i: nat, p: Reader, r: Reader) {
    r.wants == if e.Received? then p.wants || FreeRoom(h) <= 0 || e.memory
               else if e.Writable? && i == e.who then r.tail < |h'.log|
               else p.wants
  }

  predicate FlagsFollow(h: Hub, e: Event, h': Hub, i: nat)
    requires i < |h'.readers|
  {
    var r := h'.readers[i];
    if e.Joins? && i == 0 then !r.timed && r.rxOn && !r.wants
    else
      && 0 <= Was(e, i) < |h.readers|
      && var p := h.readers[Was(e, i)];
         RxFollows(h, h', p, r) && TimerFollows(h, h', p, r) && WantsFollow(h, e, h', i, p, r)
  }

  /** Flow control goes off below RXFLOW_MIN and comes back at RXFLOW_MAX, and at no other time. */
  predicate RxTurns(h: Hub, h': Hub) {
    h'.rx <==> FreeRoom(h') >= if h.rx then RXFLOW_MIN else RXFLOW_MAX
  }

  ghost predicate AllFollow(h: Hub, e: Event, h': Hub) {
    h'.readers != [] ==> RxTurns(h, h') && forall i :: 0 <= i < |h'.readers| ==> FlagsFollow(h, e, h', i)
  }

  /** What Settle() does to one reader of a hub that is short of it only */
  lemma SettledReader(h: Hub, before: nat, i: nat)
    requires Unsettled(h, before) && i < |h.readers|
    ensures var h' := Settle(h, before);
            && |h'.readers| == |h.readers| && h'.readers[i].tail == h.readers[i].tail
            && h'.readers[i].wants == h.readers[i].wants
            && (h'.rx <==> h.rx || (Oldest(h) != before && FreeRoom(h) >= RXFLOW_MAX))
            && h'.readers[i].rxOn == (if h'.rx != h.rx then h'.rx else h.readers[i].rxOn)
            && h'.readers[i].timed == if Oldest(h) != before then h.readers[i].tail == Oldest(h) < |h.log|
                                      else h.readers[i].timed
  {
    OldestBounds(h);
    assert ReaderOk(h.log, h.rx, before, h.readers[i]);
  }

  lemma WritableFollows(h: Hub, who: nat, budget: nat)
    requires Inv(h) && Possible(h, Writable(who, budget))
    ensures AllFollow(h, Writable(who, budget), Write(h, who, budget))
  {
    var n := if Unread(h, who) < budget then Unread(h, who) else budget;
    var h1, h' := Advance(h, who, n), Write(h, who, budget);
    AdvanceIsUnsettled(h, who, n);
    SettleKeepsTails(h1, Oldest(h));
    forall i | 0 <= i < |h'.readers| ensures FlagsFollow(h, Writable(who, budget), h', i) && RxTurns(h, h') {
      SettledReader(h1, Oldest(h), i);
    }
  }

  lemma LeavesFollows(h: Hub, who: nat)
    requires Inv(h) && who < |h.readers|
    ensures AllFollow(h, Leaves(who), Leave(h, who))
  {
    var h1, h' := Detach(h, who), Leave(h, who);
    InvIsUnsettled(h);
    RemoveIsUnsettled(h, who, Oldest(h));
    RemoveKeepsOthers(h.readers, who);
    SettleKeepsTails(h1, Oldest(h));
    forall i | 0 <= i < |h'.readers| ensures FlagsFollow(h, Leaves(who), h', i) && RxTurns(h, h') {
      SettledReader(h1, Oldest(h), i);
    }
  }

  lemma WritableFailsFollows(h: Hub, who: nat, sent: nat)
    requires Inv(h) && Possible(h, WritableFails(who, sent))
    ensures AllFollow(h, WritableFails(who, sent), WriteFails(h, who, sent))
  {
    var h1 := Advance(h, who, sent);
    var h2, h' := Detach(h1, who), WriteFails(h, who, sent);
    AdvanceIsUnsettled(h, who, sent);
    RemoveIsUnsettled(h1, who, Oldest(h));
    RemoveKeepsOthers(h1.readers, who);
    SettleKeepsTails(h2, Oldest(h));
    forall i | 0 <= i < |h'.readers| ensures FlagsFollow(h, WritableFails(who, sent), h', i) && RxTurns(h, h') {
      SettledReader(h2, Oldest(h), i);
    }
  }

  lemma JoinsFollows(h: Hub, id: nat)
    requires Inv(h) && Possible(h, Joins(id))
    ensures AllFollow(h, Joins(id), Join(h, id))
  {
    var h' := Join(h, id);
    JoinKeepsOldest(h, id);
    OldestBounds(Fresh);
    forall i | 0 < i < |h'.readers| ensures h'.readers[i] == h.readers[i - 1] { }
  }

  lemma RefusedFollows(h: Hub, msg: Message, memory: bool)
    requires Inv(h) && h.readers != [] && (FreeRoom(h) <= 0 || !memory)
    ensures AllFollow(h, Received(msg, memory), Receive(h, msg, memory))
  {
    ReceiveKeepsInv(h, msg, memory);
    TogglesKeepTails(h, false, 0);
    TogglesKeepTails(SetRx(h, false), false, 0);
  }

  lemma StoredFollows(h: Hub, msg: Message)
    requires Inv(h) && h.readers != [] && FreeRoom(h) > 0
    ensures AllFollow(h, Received(msg, true), Receive(h, msg, true))
  {
    ReceiveKeepsInv(h, msg, true);
    AcceptedMessageWaits(h, msg);
    var h1 := h.(log := h.log + [msg]);
    TogglesKeepTails(h1, false, 0);
    TogglesKeepTails(SetRx(h1, false), false, 0);
  }

  lemma ReceivedFollows(h: Hub, msg: Message, memory: bool)
    requires Inv(h) && h.readers != []
    ensures AllFollow(h, Received(msg, memory), Receive(h, msg, memory))
  {
    if FreeRoom(h) <= 0 || !memory {
      RefusedFollows(h, msg, memory);
    } else {
      StoredFollows(h, msg);
    }
  }

  /** From every state that can be reached, every event leaves flow control and everybody's socket, timer and callback
      request exactly as said. */
  lemma StepSetsFlags(h: Hub, e: Event)
    requires Inv(h) && Possible(h, e)
    ensures AllFollow(h, e, Step(h, e))
  {
    match e
    case Joins(id) => JoinsFollows(h, id);
    case Leaves(who) => LeavesFollows(h, who);
    case Writable(who, budget) => WritableFollows(h, who, budget);
    case WritableFails(who, sent) => WritableFailsFollows(h, who, sent);
    case Received(msg, memory) => ReceivedFollows(h, msg, memory);
  }

  // ----- a run in which somebody is timed -----

  predicate Reaches(events: seq<Event>, l: Line) {
    CanRun(Fresh, events) && LineOf(Run(Fresh, events)) == l
  }

  lemma ReachNext(events: seq<Event>, l: Line, e: Event)
    requires Reaches(events, l) && Possible(Run(Fresh, events), e)
    ensures Reaches(events + [e], Next(l, e)) && Run(Fresh, events + [e]) == Step(Run(Fresh, events), e)
  {
    assert [e][1..] == [];
    RunAppend(Fresh, events, [e]);
    StepFollowsLine(Run(Fresh, events), e);
  }

  /** `p` is the least of the places, and somebody is there. */
  lemma BehindIs(l: Line, p: nat, w: nat)
    requires p <= |l.log| && forall i :: 0 <= i < |l.places| ==> p <= l.places[i].tail
    requires p == |l.log| || (w < |l.places| && l.places[w].tail == p)
    ensures Behind(l) == p
  {
    if p != |l.log| { assert Ends(l.places)[w] == p; }
    MinOfIs(Ends(l.places), |l.log|, p);
  }

  lemma TwoJoin() returns (events: seq<Event>)
    ensures events == [Joins(1), Joins(2)]
    ensures Reaches(events, Line([], [Place(2, 0, 0), Place(1, 0, 0)], []))
  {
    assert LineOf(Fresh) == Nobody;
    events := [];
    BehindIs(Nobody, 0, 0);
    ReachNext(events, Nobody, Joins(1));
    events := [] + [Joins(1)];
    var one := Line([], [Place(1, 0, 0)], []);
    assert Next(Nobody, Joins(1)) == one;
    assert Run(Fresh, events).readers[0].id == Places(Run(Fresh, events).readers)[0].id == 1;
    BehindIs(one, 0, 0);
    ReachNext(events, one, Joins(2));
    events := events + [Joins(2)];
    assert Next(one, Joins(2)) == Line([], [Place(2, 0, 0), Place(1, 0, 0)], []);
  }

  /** Two readers join and two messages come. */
  lemma TwoReaders(a: Message, b: Message) returns (events: seq<Event>)
    ensures events == [Joins(1), Joins(2), Received(a, true), Received(b, true)]
    ensures Reaches(events, Line([a, b], [Place(2, 0, 0), Place(1, 0, 0)], []))
  {
    events := TwoJoin();
    var two := Line([], [Place(2, 0, 0), Place(1, 0, 0)], []);
    BehindIs(two, 0, 0);
    assert |Places(Run(Fresh, events).readers)| == 2;
    ReachNext(events, two, Received(a, true));
    events := events + [Received(a, true)];
    assert Next(two, Received(a, true)) == two.(log := [a]);
    BehindIs(two.(log := [a]), 0, 0);
    assert |Places(Run(Fresh, events).readers)| == 2;
    ReachNext(events, two.(log := [a]), Received(b, true));
    events := events + [Received(b, true)];
    assert [a] + [b] == [a, b];
  }

  lemma TailsAre(h: Hub, l: Line)
    requires LineOf(h) == l
    ensures |h.readers| == |l.places| && h.log == l.log
    ensures forall i :: 0 <= i < |l.places| ==> h.readers[i].tail == l.places[i].tail
    ensures Oldest(h) == Behind(l)
  {
    BehindIsOldest(h);
    assert forall i :: 0 <= i < |h.readers| ==> Places(h.readers)[i] == PlaceOf(h.readers[i]);
  }

  lemma OneIsAhead(a: Message, b: Message) returns (events: seq<Event>)
    ensures events == [Joins(1), Joins(2), Received(a, true), Received(b, true), Writable(0, 1)]
    ensures Reaches(events, Line([a, b], [Place(2, 0, 1), Place(1, 0, 0)], []))
  {
    events := TwoReaders(a, b);
    var l := Line([a, b], [Place(2, 0, 0), Place(1, 0, 0)], []);
    TailsAre(Run(Fresh, events), l);
    ReachNext(events, l, Writable(0, 1));
    events := events + [Writable(0, 1)];
    assert Next(l, Writable(0, 1)) == Line([a, b], [Place(2, 0, 1), Place(1, 0, 0)], []);
  }

  /** Reader 2 is sent one message of two and reader 1 both: the oldest position moves to where reader 2 stands, with a
      message still to read, and it has three seconds. */
  lemma ASlowReaderIsTimed(a: Message, b: Message) returns (events: seq<Event>)
    ensures events == [Joins(1), Joins(2), Received(a, true), Received(b, true), Writable(0, 1), Writable(1, 2)]
    ensures CanRun(Fresh, events)
    ensures var h := Run(Fresh, events);
            |h.readers| == 2 && h.readers[0].id == 2 && h.readers[0].timed && !h.readers[1].timed && Unread(h, 0) == 1
  {
    events := OneIsAhead(a, b);
    var l1 := Line([a, b], [Place(2, 0, 1), Place(1, 0, 0)], []);
    var h1 := Run(Fresh, events);
    TailsAre(h1, l1);
    BehindIs(l1, 0, 1);
    FreshIsInv();
    RunKeepsInv(Fresh, events);
    ReachNext(events, l1, Writable(1, 2));
    StepSetsFlags(h1, Writable(1, 2));
    events := events + [Writable(1, 2)];
    var l2 := Line([a, b], [Place(2, 0, 1), Place(1, 0, 2)], []);
    assert Next(l1, Writable(1, 2)) == l2;
    var h2 := Run(Fresh, events);
    TailsAre(h2, l2);
    BehindIs(l2, 1, 0);
    assert FlagsFollow(h1, Writable(1, 2), h2, 0) && FlagsFollow(h1, Writable(1, 2), h2, 1);
    assert Places(h2.readers)[0] == PlaceOf(h2.readers[0]);
  }
}
