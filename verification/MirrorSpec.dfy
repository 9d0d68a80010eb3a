/** What a mirror instance is for, without its ring: an ever-growing log of accepted messages and
    a set of readers, each at a position in that log.  Everything a ring position, an oldest tail
    or a free count means is defined here from the readers' positions, after every step, by
    looking at all of them.  Module Mirror has the C plugin's own state and its shortcuts, and is
    proved to follow this. */
module MirrorSpec {
  import opened Basics
  import opened Ring

  /** struct a_message */
  datatype Message = Message(payload: string)

  const QUEUELEN := 32

  /** sizeof(struct a_message): a pointer and a length */
  const MESSAGE_SIZE := 16
  /** queue free space below this, rx flow is disabled */
  const RXFLOW_MIN := 4
  /** queue free space above this, rx flow is enabled */
  const RXFLOW_MAX := (2 * QUEUELEN) / 3

  /** `joined` is where in the log the reader came in and `tail` how far it has got; `wire` is what
      it has been sent, `timed` whether it carries the 3s hang-up timeout, `rxOn` whether its
      socket is being read, `wants` whether a writable callback has been asked for. */
  datatype Reader = Reader(id: nat, joined: nat, tail: nat, wire: seq<Message>,
                           timed: bool, rxOn: bool, wants: bool)

  datatype Hub = Hub(log: seq<Message>, readers: seq<Reader>, rx: bool, departed: seq<Reader>)

  const Fresh := Hub([], [], true, [])

  function Tails(readers: seq<Reader>): (tails: seq<nat>) {
    seq(|readers|, i requires 0 <= i < |readers| => readers[i].tail)
  }

  /** The furthest-behind reader's position; everything before it has been destroyed. */
  function Oldest(h: Hub): (p: nat) {
    MinOf(Tails(h.readers), |h.log|)
  }

  function FreeRoom(h: Hub): (n: int) {
    QUEUELEN - 1 - (|h.log| - Oldest(h))
  }

  /** __mirror_rxflow_instance() */
  function SetRx(h: Hub, on: bool): (h': Hub)
    ensures |h'.readers| == |h.readers|
  {
    h.(rx := on,
       readers := seq(|h.readers|, i requires 0 <= i < |h.readers| => h.readers[i].(rxOn := on)))
  }

  /** __mirror_callback_all_in_mi_on_writable() */
  function WantAll(h: Hub): (h': Hub)
    ensures |h'.readers| == |h.readers|
  {
    h.(readers := seq(|h.readers|, i requires 0 <= i < |h.readers| => h.readers[i].(wants := true)))
  }

  /** The readers standing at `at` get the hang-up timeout. */
  function SetTimers(h: Hub, at: nat): (h': Hub)
    ensures |h'.readers| == |h.readers|
  {
    h.(readers := seq(|h.readers|, i requires 0 <= i < |h.readers| =>
                        if h.readers[i].tail == at then h.readers[i].(timed := true) else h.readers[i]))
  }

  /** What follows a step, given where the oldest reader was before it. */
  function Settle(h: Hub, before: nat): (h': Hub) {
    if h.readers == [] || Oldest(h) == before then h
    else
      var h1 := if !h.rx && FreeRoom(h) >= RXFLOW_MAX then SetRx(h, true) else h;
      if Oldest(h) == |h.log| then h1 else SetTimers(h1, Oldest(h))
  }

  /** A new reader starts from the oldest message that is still there. */
  function Join(h: Hub, id: nat): (h': Hub) {
    h.(readers := [Reader(id, Oldest(h), Oldest(h), [], false, true, false)] + h.readers)
  }

  function Remove(readers: seq<Reader>, who: nat): (rest: seq<Reader>)
    requires who < |readers|
  {
    readers[..who] + readers[who + 1..]
  }

  function Detach(h: Hub, who: nat): (h': Hub)
    requires who < |h.readers|
  {
    h.(readers := Remove(h.readers, who), departed := h.departed + [h.readers[who]])
  }

  /** With nobody left the instance is deleted, and there is nothing to settle. */
  function Leave(h: Hub, who: nat): (h': Hub)
    requires who < |h.readers|
  {
    Settle(Detach(h, who), Oldest(h))
  }

  /** Reader `who` is sent the next `n` messages. */
  function Advance(h: Hub, who: nat, n: nat): (h': Hub)
    requires who < |h.readers| && h.readers[who].tail + n <= |h.log|
  {
    var r := h.readers[who];
    h.(readers := h.readers[who := r.(tail := r.tail + n, wire := r.wire + h.log[r.tail..r.tail + n],
                                      timed := r.timed && n == 0, wants := r.tail + n < |h.log|)])
  }

  function Unread(h: Hub, who: nat): (n: int)
    requires who < |h.readers|
  {
    |h.log| - h.readers[who].tail
  }

  /** A writable event on a connection that takes `budget` messages before its pipe is choked. */
  function Write(h: Hub, who: nat, budget: nat): (h': Hub)
    requires who < |h.readers| && 0 <= Unread(h, who)
  {
    var n := if Unread(h, who) < budget then Unread(h, who) else budget;
    Settle(Advance(h, who, n), Oldest(h))
  }

  /** A writable event on which `sent` messages go out and the next write fails: the connection
      is closed. */
  function WriteFails(h: Hub, who: nat, sent: nat): (h': Hub)
    requires who < |h.readers| && sent < Unread(h, who)
  {
    Settle(Detach(Advance(h, who, sent), who), Oldest(h))
  }

  /** A message arrives; `memory` says if there was room to hold it. */
  function Receive(h: Hub, msg: Message, memory: bool): (h': Hub) {
    if FreeRoom(h) <= 0 then
      WantAll(if h.rx then SetRx(h, false) else h)
    else if !memory then h
    else
      var h1 := h.(log := h.log + [msg]);
      WantAll(if h1.rx && FreeRoom(h1) < RXFLOW_MIN then SetRx(h1, false) else h1)
  }

  // ----- runs -----

  datatype Event =
    | Joins(id: nat)
    | Leaves(who: nat)
    | Writable(who: nat, budget: nat)
    | WritableFails(who: nat, sent: nat)
    | Received(msg: Message, memory: bool)

  /** `who` is a place in the instance's list; a hub nobody reads any more has been deleted, so only
      a fresh one can be joined with no reader there. */
  predicate Possible(h: Hub, e: Event) {
    match e
    case Joins(id) =>
      && (h.readers == [] ==> h == Fresh)
      && forall i :: 0 <= i < |h.readers| ==> h.readers[i].id != id
    case Leaves(who) => who < |h.readers|
    case Writable(who, budget) => who < |h.readers| && 0 <= Unread(h, who) && 1 <= budget
    case WritableFails(who, sent) => who < |h.readers| && sent < Unread(h, who)
    case Received(_, _) => h.readers != []
  }

  function Step(h: Hub, e: Event): (h': Hub)
    requires Possible(h, e)
  {
    match e
    case Joins(id) => Join(h, id)
    case Leaves(who) => Leave(h, who)
    case Writable(who, budget) => Write(h, who, budget)
    case WritableFails(who, sent) => WriteFails(h, who, sent)
    case Received(msg, memory) => Receive(h, msg, memory)
  }

  // ----- the oldest reader -----

  lemma OldestBounds(h: Hub)
    ensures Oldest(h) <= |h.log|
    ensures forall i :: 0 <= i < |h.readers| ==> Oldest(h) <= h.readers[i].tail
  {
    var tails := Tails(h.readers);
    MinOfBounds(tails, |h.log|);
    forall i | 0 <= i < |h.readers| ensures Oldest(h) <= h.readers[i].tail {
      assert tails[i] == h.readers[i].tail;
    }
  }

  lemma OldestWitness(h: Hub) returns (w: nat)
    requires Oldest(h) < |h.log|
    ensures w < |h.readers| && h.readers[w].tail == Oldest(h)
  {
    w := MinOfWitness(Tails(h.readers), |h.log|);
  }

  /** A position nobody is behind and somebody (`w`) is at. */
  lemma OldestIs(h: Hub, p: nat, w: nat)
    requires p <= |h.log| && forall i :: 0 <= i < |h.readers| ==> p <= h.readers[i].tail
    requires p == |h.log| || (w < |h.readers| && h.readers[w].tail == p)
    ensures Oldest(h) == p
  {
    var tails := Tails(h.readers);
    if p != |h.log| { assert tails[w] == p; }
    MinOfIs(tails, |h.log|, p);
  }

  /** If every remaining reader is at or past where the oldest was, the oldest has not moved back. */
  lemma OldestDoesNotMoveBack(h: Hub, h': Hub)
    requires |h.log| <= |h'.log|
    requires forall i :: 0 <= i < |h'.readers| ==> Oldest(h) <= h'.readers[i].tail
    ensures Oldest(h) <= Oldest(h')
  {
    OldestBounds(h);
    if Oldest(h') < |h'.log| {
      var w := OldestWitness(h');
    }
  }

  /** Neither toggle moves anybody. */
  lemma TogglesKeepTails(h: Hub, on: bool, at: nat)
    ensures Tails(SetRx(h, on).readers) == Tails(h.readers)
    ensures Tails(SetTimers(h, at).readers) == Tails(h.readers)
    ensures Tails(WantAll(h).readers) == Tails(h.readers)
  {
  }

  lemma SettleKeepsTails(h: Hub, before: nat)
    ensures Tails(Settle(h, before).readers) == Tails(h.readers)
    ensures Settle(h, before).log == h.log
    ensures Oldest(Settle(h, before)) == Oldest(h)
  {
    TogglesKeepTails(h, true, Oldest(h));
    TogglesKeepTails(SetRx(h, true), true, Oldest(h));
  }

  // ----- what every step keeps -----

  /** The reader has been sent exactly the run of accepted messages from where it joined. */
  predicate InStep(log: seq<Message>, r: Reader) {
    r.joined <= r.tail <= |log| && r.wire == log[r.joined..r.tail]
  }

  /** ... its next message has not been destroyed, it has the hang-up timer only if it stands at the
      oldest position, and it is not left paused in an instance that is listening. */
  predicate ReaderOk(log: seq<Message>, rx: bool, oldest: nat, r: Reader) {
    && InStep(log, r)
    && oldest <= r.tail
    && (r.timed ==> r.tail == oldest)
    && (rx ==> r.rxOn)
  }

  ghost predicate ReadersOk(h: Hub, oldest: nat) {
    && (forall i :: 0 <= i < |h.readers| ==> ReaderOk(h.log, h.rx, oldest, h.readers[i]))
    && (forall i :: 0 <= i < |h.departed| ==> InStep(h.log, h.departed[i]))
  }

  ghost predicate Distinct(readers: seq<Reader>) {
    forall i, j :: 0 <= i < j < |readers| ==> readers[i].id != readers[j].id
  }

  /** Flow control is off only with less than RXFLOW_MAX free, and on only with at least RXFLOW_MIN. */
  predicate Hysteresis(rx: bool, free: int) {
    0 <= free && (if rx then RXFLOW_MIN <= free else free < RXFLOW_MAX)
  }

  ghost predicate Inv(h: Hub) {
    && ReadersOk(h, Oldest(h))
    && Distinct(h.readers)
    && (h.readers != [] ==> Hysteresis(h.rx, FreeRoom(h)))
    && Oldest(h) <= |h.log|
  }

  // ----- each step keeps the invariant -----

  /** What a step must leave behind for Settle() to finish it: the invariant, except that timers are
      still where the oldest reader was, and rx may be due to come back on. */
  ghost predicate Unsettled(h: Hub, before: nat) {
    && ReadersOk(h, before)
    && Distinct(h.readers)
    && before <= Oldest(h) <= |h.log|
    && 0 <= FreeRoom(h)
    && (if h.rx then RXFLOW_MIN <= FreeRoom(h) else Oldest(h) == before ==> FreeRoom(h) < RXFLOW_MAX)
  }

  lemma InvIsUnsettled(h: Hub)
    requires Inv(h) && h.readers != []
    ensures Unsettled(h, Oldest(h))
  {
  }

  lemma SettleFinishes(h: Hub, before: nat)
    requires Unsettled(h, before)
    ensures Inv(Settle(h, before))
  {
    SettleKeepsTails(h, before);
    OldestBounds(h);
    var h' := Settle(h, before);
    forall i | 0 <= i < |h'.readers|
      ensures ReaderOk(h'.log, h'.rx, Oldest(h), h'.readers[i])
    {
      assert ReaderOk(h.log, h.rx, before, h.readers[i]);
    }
    assert forall i :: 0 <= i < |h.readers| ==> h'.readers[i].id == h.readers[i].id;
  }

  lemma JoinKeepsOldest(h: Hub, id: nat)
    ensures Oldest(Join(h, id)) == Oldest(h)
  {
    var h' := Join(h, id);
    OldestBounds(h);
    forall i | 0 <= i < |h'.readers| ensures Oldest(h) <= h'.readers[i].tail {
      if i > 0 { assert h'.readers[i] == h.readers[i - 1]; }
    }
    OldestIs(h', Oldest(h), 0);
  }

  lemma JoinKeepsInv(h: Hub, id: nat)
    requires Inv(h) && Possible(h, Joins(id))
    ensures Inv(Join(h, id)) && Oldest(Join(h, id)) == Oldest(h)
  {
    JoinKeepsOldest(h, id);
    var h' := Join(h, id);
    forall i | 0 <= i < |h'.readers|
      ensures ReaderOk(h'.log, h'.rx, Oldest(h), h'.readers[i])
    {
      if i > 0 { assert h'.readers[i] == h.readers[i - 1]; }
    }
    forall i, j | 0 <= i < j < |h'.readers| ensures h'.readers[i].id != h'.readers[j].id {
      assert h'.readers[j] == h.readers[j - 1];
      if i > 0 { assert h'.readers[i] == h.readers[i - 1]; }
    }
  }

  lemma RemoveKeepsOthers(readers: seq<Reader>, who: nat)
    requires who < |readers|
    ensures |Remove(readers, who)| == |readers| - 1
    ensures forall i :: 0 <= i < |readers| - 1 ==>
              Remove(readers, who)[i] == readers[if i < who then i else i + 1]
    ensures Distinct(readers) ==> Distinct(Remove(readers, who))
  {
  }

  /** Taking a reader out of a hub that is only short of settling. */
  lemma RemoveIsUnsettled(h: Hub, who: nat, before: nat)
    requires who < |h.readers| && Unsettled(h, before)
    ensures Unsettled(Detach(h, who), before)
    ensures Oldest(h) <= Oldest(Detach(h, who))
  {
    var h1 := Detach(h, who);
    RemoveKeepsOthers(h.readers, who);
    OldestBounds(h);
    OldestBounds(h1);
    OldestDoesNotMoveBack(h, h1);
    forall i | 0 <= i < |h1.readers| ensures ReaderOk(h1.log, h1.rx, before, h1.readers[i]) {
      assert ReaderOk(h.log, h.rx, before, h.readers[if i < who then i else i + 1]);
    }
    forall i | 0 <= i < |h1.departed| ensures InStep(h1.log, h1.departed[i]) {
      if i == |h.departed| {
        assert ReaderOk(h.log, h.rx, before, h.readers[who]);
      } else {
        assert InStep(h.log, h.departed[i]);
      }
    }
  }

  lemma AdvanceIsUnsettled(h: Hub, who: nat, n: nat)
    requires Inv(h) && who < |h.readers| && h.readers[who].tail + n <= |h.log|
    ensures Unsettled(Advance(h, who, n), Oldest(h))
  {
    var h1 := Advance(h, who, n);
    var r := h.readers[who];
    assert ReaderOk(h.log, h.rx, Oldest(h), r);
    assert h.log[r.joined..r.tail] + h.log[r.tail..r.tail + n] == h.log[r.joined..r.tail + n];
    forall i | 0 <= i < |h1.readers|
      ensures ReaderOk(h1.log, h1.rx, Oldest(h), h1.readers[i])
    {
      assert ReaderOk(h.log, h.rx, Oldest(h), h.readers[i]);
    }
    OldestDoesNotMoveBack(h, h1);
    OldestBounds(h1);
    assert forall i :: 0 <= i < |h.readers| ==> h1.readers[i].id == h.readers[i].id;
  }

  /** A reader that is not at the oldest position, or does not move, cannot move it. */
  lemma OthersHoldTheOldest(h: Hub, who: nat, n: nat)
    requires who < |h.readers| && h.readers[who].tail + n <= |h.log|
    requires n == 0 || h.readers[who].tail != Oldest(h)
    ensures Oldest(Advance(h, who, n)) == Oldest(h)
  {
    OldestBounds(h);
    var w := 0;
    if Oldest(h) < |h.log| {
      w := OldestWitness(h);
    }
    OldestIs(Advance(h, who, n), Oldest(h), w);
  }

  lemma AcceptedMessageWaits(h: Hub, msg: Message)
    requires Inv(h) && h.readers != []
    ensures var h1 := h.(log := h.log + [msg]);
            Oldest(h1) == Oldest(h) && ReadersOk(h1, Oldest(h))
  {
    var h1 := h.(log := h.log + [msg]);
    OldestBounds(h);
    var w := 0;
    if Oldest(h) < |h.log| {
      w := OldestWitness(h);
    } else {
      assert ReaderOk(h.log, h.rx, Oldest(h), h.readers[0]);
    }
    OldestIs(h1, Oldest(h), w);
    forall r | InStep(h.log, r) ensures InStep(h1.log, r) {
      assert h1.log[r.joined..r.tail] == h.log[r.joined..r.tail];
    }
  }

  lemma SwitchingOffKeepsReaders(h: Hub, oldest: nat)
    requires ReadersOk(h, oldest) && Distinct(h.readers)
    ensures ReadersOk(SetRx(h, false), oldest) && Distinct(SetRx(h, false).readers)
    ensures Oldest(SetRx(h, false)) == Oldest(h)
  {
    TogglesKeepTails(h, false, 0);
    var h' := SetRx(h, false);
    forall i | 0 <= i < |h'.readers| ensures ReaderOk(h'.log, h'.rx, oldest, h'.readers[i]) {
      assert ReaderOk(h.log, h.rx, oldest, h.readers[i]);
    }
    assert forall i :: 0 <= i < |h.readers| ==> h'.readers[i].id == h.readers[i].id;
  }

  lemma WantAllKeepsInv(h: Hub)
    requires Inv(h)
    ensures Inv(WantAll(h)) && Oldest(WantAll(h)) == Oldest(h)
  {
    TogglesKeepTails(h, false, 0);
    var h' := WantAll(h);
    forall i | 0 <= i < |h'.readers| ensures ReaderOk(h'.log, h'.rx, Oldest(h), h'.readers[i]) {
      assert ReaderOk(h.log, h.rx, Oldest(h), h.readers[i]);
    }
    assert forall i :: 0 <= i < |h.readers| ==> h'.readers[i].id == h.readers[i].id;
  }

  lemma ReceiveKeepsInv(h: Hub, msg: Message, memory: bool)
    requires Inv(h) && h.readers != []
    ensures Inv(Receive(h, msg, memory)) && Oldest(Receive(h, msg, memory)) == Oldest(h)
  {
    if FreeRoom(h) <= 0 {
      WantAllKeepsInv(h);
    } else if memory {
      var h1 := h.(log := h.log + [msg]);
      AcceptedMessageWaits(h, msg);
      SwitchingOffKeepsReaders(h1, Oldest(h));
      WantAllKeepsInv(if h1.rx && FreeRoom(h1) < RXFLOW_MIN then SetRx(h1, false) else h1);
    }
  }

  lemma LeaveKeepsInv(h: Hub, who: nat)
    requires Inv(h) && who < |h.readers|
    ensures Inv(Leave(h, who)) && Oldest(h) <= Oldest(Leave(h, who))
  {
    InvIsUnsettled(h);
    RemoveIsUnsettled(h, who, Oldest(h));
    SettleFinishes(Detach(h, who), Oldest(h));
    SettleKeepsTails(Detach(h, who), Oldest(h));
  }

  lemma WriteKeepsInv(h: Hub, who: nat, budget: nat)
    requires Inv(h) && Possible(h, Writable(who, budget))
    ensures Inv(Write(h, who, budget)) && Oldest(h) <= Oldest(Write(h, who, budget))
  {
    var n := if Unread(h, who) < budget then Unread(h, who) else budget;
    AdvanceIsUnsettled(h, who, n);
    SettleFinishes(Advance(h, who, n), Oldest(h));
    SettleKeepsTails(Advance(h, who, n), Oldest(h));
  }

  lemma WriteSends(h: Hub, who: nat, budget: nat, n: nat)
    requires who < |h.readers| && 0 <= Unread(h, who)
    requires n == if Unread(h, who) < budget then Unread(h, who) else budget
    ensures Write(h, who, budget) == Settle(Advance(h, who, n), Oldest(h))
    ensures Write(h, who, budget).readers != []
  {
  }

  lemma WriteFailsKeepsInv(h: Hub, who: nat, sent: nat)
    requires Inv(h) && Possible(h, WritableFails(who, sent))
    ensures Inv(WriteFails(h, who, sent)) && Oldest(h) <= Oldest(WriteFails(h, who, sent))
  {
    var h1 := Advance(h, who, sent);
    AdvanceIsUnsettled(h, who, sent);
    RemoveIsUnsettled(h1, who, Oldest(h));
    SettleFinishes(Detach(h1, who), Oldest(h));
    SettleKeepsTails(Detach(h1, who), Oldest(h));
  }

  lemma StepKeepsLog(h: Hub, e: Event)
    requires Possible(h, e)
    ensures h.log <= Step(h, e).log
  {
  }

  /** One step keeps the invariant, never takes back a destroyed message, and never rewrites the log. */
  lemma StepKeepsInv(h: Hub, e: Event)
    requires Inv(h) && Possible(h, e)
    ensures Inv(Step(h, e))
    ensures Oldest(h) <= Oldest(Step(h, e))
    ensures h.log <= Step(h, e).log
  {
    StepKeepsLog(h, e);
    match e
    case Joins(id) => JoinKeepsInv(h, id);
    case Leaves(who) => LeaveKeepsInv(h, who);
    case Writable(who, budget) => WriteKeepsInv(h, who, budget);
    case WritableFails(who, sent) => WriteFailsKeepsInv(h, who, sent);
    case Received(msg, memory) => ReceiveKeepsInv(h, msg, memory);
  }

  // ----- runs -----

  predicate CanRun(h: Hub, events: seq<Event>)
    decreases |events|
  {
    events == [] || (Possible(h, events[0]) && CanRun(Step(h, events[0]), events[1..]))
  }

  function Run(h: Hub, events: seq<Event>): (h': Hub)
    requires CanRun(h, events)
    decreases |events|
  {
    if events == [] then h else Run(Step(h, events[0]), events[1..])
  }

  lemma {:induction false} RunKeepsInv(h: Hub, events: seq<Event>)
    requires Inv(h) && CanRun(h, events)
    ensures Inv(Run(h, events))
    ensures Oldest(h) <= Oldest(Run(h, events))
    ensures h.log <= Run(h, events).log
    decreases |events|
  {
    if events != [] {
      StepKeepsInv(h, events[0]);
      RunKeepsInv(Step(h, events[0]), events[1..]);
    }
  }

  // ----- the results, over every run of a mirror instance from its creation -----

  lemma FreshIsInv()
    ensures Inv(Fresh)
  {
    OldestBounds(Fresh);
  }

  /** Every reader, still there or gone, has been sent a contiguous run of the accepted messages, in
      order, from its join position; and what it has not yet been sent is still in the ring. */
  lemma EveryReaderIsSentAContiguousRun(events: seq<Event>)
    requires CanRun(Fresh, events)
    ensures var h := Run(Fresh, events);
            && (forall i :: 0 <= i < |h.readers| ==>
                  && h.readers[i].joined <= h.readers[i].tail <= |h.log|
                  && h.readers[i].wire == h.log[h.readers[i].joined..h.readers[i].tail]
                  && Oldest(h) <= h.readers[i].tail)
            && (forall i :: 0 <= i < |h.departed| ==>
                  && h.departed[i].joined <= h.departed[i].tail <= |h.log|
                  && h.departed[i].wire == h.log[h.departed[i].joined..h.departed[i].tail])
  {
    FreshIsInv();
    RunKeepsInv(Fresh, events);
    var h := Run(Fresh, events);
    assert forall i :: 0 <= i < |h.readers| ==> ReaderOk(h.log, h.rx, Oldest(h), h.readers[i]);
    assert forall i :: 0 <= i < |h.departed| ==> InStep(h.log, h.departed[i]);
  }

  /** Hysteresis, and what it is for: an instance whose readers have all caught up is listening, and so
      is every one of its members. */
  lemma FlowControlNeverSticks(events: seq<Event>)
    requires CanRun(Fresh, events)
    ensures var h := Run(Fresh, events);
            h.readers != [] ==>
              && (h.rx ==> FreeRoom(h) >= RXFLOW_MIN)
              && (!h.rx ==> FreeRoom(h) < RXFLOW_MAX)
              && ((forall i :: 0 <= i < |h.readers| ==> h.readers[i].tail == |h.log|) ==>
                    h.rx && forall i :: 0 <= i < |h.readers| ==> h.readers[i].rxOn)
  {
    FreshIsInv();
    RunKeepsInv(Fresh, events);
    var h := Run(Fresh, events);
    assert forall i :: 0 <= i < |h.readers| ==> ReaderOk(h.log, h.rx, Oldest(h), h.readers[i]);
    if Oldest(h) < |h.log| {
      var w := OldestWitness(h);
    }
  }

  /** Only a reader that nobody is behind can be hung up on for being slow. */
  lemma OnlyASlowestReaderIsTimed(events: seq<Event>, who: nat)
    requires CanRun(Fresh, events)
    requires var h := Run(Fresh, events); who < |h.readers| && h.readers[who].timed
    ensures var h := Run(Fresh, events);
            forall i :: 0 <= i < |h.readers| ==> h.readers[who].tail <= h.readers[i].tail
  {
    FreshIsInv();
    RunKeepsInv(Fresh, events);
    var h := Run(Fresh, events);
    assert ReaderOk(h.log, h.rx, Oldest(h), h.readers[who]);
    OldestBounds(h);
  }

  // ----- is everybody who has something to read going to be called back? -----

  ghost predicate Prompted(h: Hub) {
    forall i :: 0 <= i < |h.readers| && h.readers[i].tail < |h.log| ==> h.readers[i].wants
  }

  lemma SettleKeepsPrompted(h: Hub, before: nat)
    ensures Prompted(h) ==> Prompted(Settle(h, before))
  {
    var h' := Settle(h, before);
    assert |h'.readers| == |h.readers|;
    forall i | 0 <= i < |h.readers|
      ensures h'.readers[i].wants == h.readers[i].wants && h'.readers[i].tail == h.readers[i].tail
    { }
  }

  lemma DetachKeepsPrompted(h: Hub, who: nat)
    requires Prompted(h) && who < |h.readers|
    ensures Prompted(Detach(h, who))
  {
    RemoveKeepsOthers(h.readers, who);
  }

  lemma JoinPromptedIff(h: Hub, id: nat)
    requires Prompted(h)
    ensures Prompted(Join(h, id)) <==> Oldest(h) >= |h.log|
  {
    var h' := Join(h, id);
    assert h'.readers[0].tail == Oldest(h) && !h'.readers[0].wants;
    forall i | 0 < i < |h'.readers| ensures h'.readers[i] == h.readers[i - 1] { }
  }

  /** Every step keeps it so, with one exception: a connection that joins while messages are still
      buffered is given them to read but is not called back. */
  lemma OnlyAJoinLeavesAReaderUnprompted(h: Hub, e: Event)
    requires Inv(h) && Prompted(h) && Possible(h, e)
    ensures Prompted(Step(h, e)) <==> (e.Joins? ==> Oldest(h) == |h.log|)
  {
    match e
    case Joins(id) =>
      JoinPromptedIff(h, id);
    case Leaves(who) =>
      DetachKeepsPrompted(h, who);
      SettleKeepsPrompted(Detach(h, who), Oldest(h));
    case Writable(who, budget) =>
      var n := if Unread(h, who) < budget then Unread(h, who) else budget;
      SettleKeepsPrompted(Advance(h, who, n), Oldest(h));
    case WritableFails(who, sent) =>
      var h1 := Advance(h, who, sent);
      DetachKeepsPrompted(h1, who);
      SettleKeepsPrompted(Detach(h1, who), Oldest(h));
    case Received(msg, memory) =>
  }

  /** Every connection of the run joins with nothing buffered. */
  predicate QuietJoins(h: Hub, events: seq<Event>)
    requires CanRun(h, events)
    decreases |events|
  {
    events == [] || ((events[0].Joins? ==> Oldest(h) == |h.log|) && QuietJoins(Step(h, events[0]), events[1..]))
  }

  lemma {:induction false} QuietJoinsKeepReadersPrompted(h: Hub, events: seq<Event>)
    requires Inv(h) && Prompted(h) && CanRun(h, events) && QuietJoins(h, events)
    ensures Prompted(Run(h, events))
    decreases |events|
  {
    if events != [] {
      OnlyAJoinLeavesAReaderUnprompted(h, events[0]);
      StepKeepsInv(h, events[0]);
      QuietJoinsKeepReadersPrompted(Step(h, events[0]), events[1..]);
    }
  }

  // A run that ends with nobody going to be called back.

  lemma {:induction false} RunAppend(h: Hub, events: seq<Event>, more: seq<Event>)
    requires CanRun(h, events) && CanRun(Run(h, events), more)
    ensures CanRun(h, events + more) && Run(h, events + more) == Run(Run(h, events), more)
    decreases |events|
  {
    if events == [] {
      assert events + more == more;
    } else {
      assert (events + more)[1..] == events[1..] + more;
      RunAppend(Step(h, events[0]), events[1..], more);
    }
  }

  /** One reader that has been fed `n` messages and read none: rx goes off at the 28th. */
  function Fed(n: nat): (h: Hub) {
    Hub(seq(n, _ => Message("m")), [Reader(1, 0, 0, [], false, n < 28, n > 0)], n < 28, [])
  }

  lemma {:induction false} FeedToTheLimit(n: nat)
    requires n <= 28
    ensures var feed := seq(n, _ => Received(Message("m"), true));
            CanRun(Fed(0), feed) && Run(Fed(0), feed) == Fed(n)
  {
    if n > 0 {
      var feed, last := seq(n - 1, _ => Received(Message("m"), true)), [Received(Message("m"), true)];
      FeedToTheLimit(n - 1);
      OldestIs(Fed(n - 1), 0, 0);
      var h1 := Fed(n - 1).(log := Fed(n - 1).log + [Message("m")]);
      OldestIs(h1, 0, 0);
      assert h1.log == Fed(n).log;
      assert Step(Fed(n - 1), last[0]) == Fed(n);
      assert last[1..] == [];
      RunAppend(Fed(0), feed, last);
      assert feed + last == seq(n, _ => Received(Message("m"), true));
    }
  }

  /** With the queue full, connection 2 joins and reader 1 then reads everything. */
  lemma JoinerTakesOver() returns (h: Hub)
    ensures var finish := [Joins(2), Writable(1, 28)];
            CanRun(Fed(28), finish) && h == Run(Fed(28), finish)
    ensures |h.readers| == 2 && !h.rx && !h.readers[1].rxOn && h.readers[1].tail == |h.log| && Unread(h, 0) == 28
    ensures forall i :: 0 <= i < 2 ==> !h.readers[i].wants && !h.readers[i].timed
  {
    var full := Fed(28);
    OldestIs(full, 0, 0);
    var joined := Join(full, 2);
    OldestIs(joined, 0, 0);
    OldestIs(Advance(joined, 1, 28), 0, 0);
    var finish := [Joins(2), Writable(1, 28)];
    assert finish[1..] == [Writable(1, 28)] && finish[1..][1..] == [];
    h := Run(full, finish);
  }

  /** Reader 1 fills the queue until rx goes off, connection 2 joins, and reader 1 then reads everything.
      Reader 2 has 28 messages to read, holds up the queue, and is neither called back nor timed;
      reader 1 stays paused. */
  lemma AJoinerCanWedgeAnInstance() returns (events: seq<Event>)
    ensures CanRun(Fresh, events)
    ensures var h := Run(Fresh, events);
            && |h.readers| == 2
            && !h.rx && !h.readers[1].rxOn && h.readers[1].tail == |h.log|
            && Unread(h, 0) == 28
            && forall i :: 0 <= i < 2 ==> !h.readers[i].wants && !h.readers[i].timed
  {
    var start, feed := [Joins(1)], seq(28, _ => Received(Message("m"), true));
    FeedToTheLimit(28);
    OldestIs(Fresh, 0, 0);
    assert start[1..] == [];
    assert Step(Fresh, Joins(1)) == Fed(0);
    RunAppend(Fresh, start, feed);
    var _ := JoinerTakesOver();
    var finish := [Joins(2), Writable(1, 28)];
    RunAppend(Fresh, start + feed, finish);
    events := start + feed + finish;
  }
}
