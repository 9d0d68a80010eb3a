/** The mirror plugin's own state and callbacks (`plugins/protocol_lws_mirror.c`): one wrapped ring,
    a list of sessions holding wrapped tails, and an oldest tail that is only looked for again
    when the plugin thinks it may have moved.  `hub` is the ghost specification state of MirrorSpec;
    every callback takes it through the corresponding specification step. */
module Mirror {
  import opened Basics
  import opened Ring
  import opened MirrorSpec
  import opened Sequences

  /** per_session_data__lws_mirror, with what has been written to and set on its connection */
  datatype Pss = Pss(id: nat, tail: nat, wire: seq<Message>, timed: bool, rxOn: bool, wants: bool)

  function SlotTails(list: seq<Pss>): (tails: seq<nat>) {
    seq(|list|, i requires 0 <= i < |list| => list[i].tail)
  }

  /** The session agrees with the reader in everything but how its tail is held. */
  predicate Agrees(p: Pss, r: Reader) {
    p.id == r.id && p.wire == r.wire && p.timed == r.timed && p.rxOn == r.rxOn && p.wants == r.wants
  }

  class Instance {
    const ring: Buffer<Message>
    const name: string
    var list: seq<Pss>
    var rxEnabled: bool

    ghost var hub: Hub

    /** The ring and the sessions are those of `hub`, wherever the oldest tail has got to. */
    ghost predicate Tracks()
      reads this, ring, ring.buf
    {
      && ring.Valid() && ring.slots == QUEUELEN && ring.elementLen == MESSAGE_SIZE
      && ring.log == hub.log && rxEnabled == hub.rx
      && |list| == |hub.readers|
      && (forall i :: 0 <= i < |list| ==> Agrees(list[i], hub.readers[i]))
      && ring.AllHolding(SlotTails(list), Tails(hub.readers))
    }

    /** Between callbacks the ring's oldest tail is the furthest-behind reader's position, although the
        plugin does not look for it after every step. */
    ghost predicate Valid()
      reads this, ring, ring.buf
    {
      Tracks() && Inv(hub) && hub.readers != [] && ring.base == Oldest(hub)
    }

    lemma TailAt(i: nat)
      requires Tracks() && i < |list|
      ensures ring.Holding(list[i].tail, hub.readers[i].tail)
    {
      assert SlotTails(list)[i] == list[i].tail && Tails(hub.readers)[i] == hub.readers[i].tail;
    }

    lemma TracksIfHeld()
      requires ring.Valid() && ring.slots == QUEUELEN && ring.elementLen == MESSAGE_SIZE && ring.log == hub.log && rxEnabled == hub.rx
      requires |list| == |hub.readers|
      requires forall i :: 0 <= i < |list| ==>
                 Agrees(list[i], hub.readers[i]) && ring.Holding(list[i].tail, hub.readers[i].tail)
      ensures Tracks()
    {
    }

    /** LWS_CALLBACK_ESTABLISHED, on an instance created for the connection */
    constructor (name: string, id: nat)
      ensures Valid() && fresh(ring) && fresh(ring.buf)
      ensures this.name == name && hub == Join(Fresh, id)
    {
      this.name := name;
      var r := new Buffer(MESSAGE_SIZE, QUEUELEN);
      ring := r;
      list := [Pss(id, r.oldestTail, [], false, true, false)];
      rxEnabled := true;
      hub := Join(Fresh, id);
      new;
      OldestIs(Fresh, 0, 0);
      FreshIsInv();
      JoinKeepsInv(Fresh, id);
      TracksIfHeld();
    }

    /** LWS_CALLBACK_ESTABLISHED, on an instance that is already there */
    method Established(id: nat)
      requires Valid() && forall i :: 0 <= i < |list| ==> list[i].id != id
      modifies this
      ensures Valid()
      ensures hub == Join(old(hub), id)
    {
      JoinKeepsInv(hub, id);
      list := [Pss(id, ring.oldestTail, [], false, true, false)] + list;
      hub := Join(hub, id);
      forall i | 0 <= i < |list|
        ensures Agrees(list[i], hub.readers[i]) && ring.Holding(list[i].tail, hub.readers[i].tail)
      {
        if i > 0 {
          assert list[i] == old(list)[i - 1] && hub.readers[i] == old(hub).readers[i - 1];
          assert SlotTails(old(list))[i - 1] == list[i].tail;
          assert Tails(old(hub).readers)[i - 1] == hub.readers[i].tail;
        }
      }
      TracksIfHeld();
    }

    /** __mirror_rxflow_instance() */
    method RxFlow(enable: bool)
      requires Tracks()
      modifies this
      ensures Tracks()
      ensures hub == SetRx(old(hub), enable)
    {
      var i := 0;
      while i < |list|
        invariant 0 <= i <= |list| == |old(list)|
        invariant forall j :: 0 <= j < |list| ==>
                    list[j] == if j < i then old(list)[j].(rxOn := enable) else old(list)[j]
        modifies this`list
      {
        list := list[i := list[i].(rxOn := enable)];
        i := i + 1;
      }
      rxEnabled := enable;
      hub := SetRx(hub, enable);
      assert SlotTails(list) == SlotTails(old(list));
      TogglesKeepTails(old(hub), enable, 0);
    }

    /** __mirror_callback_all_in_mi_on_writable() */
    method CallbackAllOnWritable()
      requires Tracks()
      modifies this
      ensures Tracks()
      ensures hub == WantAll(old(hub))
    {
      var i := 0;
      while i < |list|
        invariant 0 <= i <= |list| == |old(list)|
        invariant forall j :: 0 <= j < |list| ==>
                    list[j] == if j < i then old(list)[j].(wants := true) else old(list)[j]
        modifies this`list
      {
        list := list[i := list[i].(wants := true)];
        i := i + 1;
      }
      hub := WantAll(hub);
      assert SlotTails(list) == SlotTails(old(list));
      TogglesKeepTails(old(hub), false, 0);
    }

    /** The last loop of __mirror_update_worst_tail() */
    method TimeThoseAt(worstTail: nat, ghost worstAt: nat)
      requires Tracks() && ring.Holding(worstTail, worstAt)
      modifies this
      ensures Tracks()
      ensures hub == SetTimers(old(hub), worstAt)
    {
      forall i | 0 <= i < |list|
        ensures list[i].tail == worstTail <==> hub.readers[i].tail == worstAt
      {
        TailAt(i);
        if list[i].tail == worstTail {
          if hub.readers[i].tail <= worstAt {
            SlotDeterminesPosition(QUEUELEN, hub.readers[i].tail, worstAt);
          } else {
            SlotDeterminesPosition(QUEUELEN, worstAt, hub.readers[i].tail);
          }
        }
      }
      var i := 0;
      while i < |list|
        invariant 0 <= i <= |list| == |old(list)|
        invariant forall j :: 0 <= j < |list| ==>
                    list[j] == if j < i && old(list)[j].tail == worstTail
                               then old(list)[j].(timed := true) else old(list)[j]
        modifies this`list
      {
        if list[i].tail == worstTail {
          list := list[i := list[i].(timed := true)];
        }
        i := i + 1;
      }
      hub := SetTimers(hub, worstAt);
      assert SlotTails(list) == SlotTails(old(list));
      TogglesKeepTails(old(hub), false, worstAt);
    }

    /** __mirror_update_worst_tail(): whatever has happened since the oldest tail was last right, one
        scan puts it right again and settles flow control and timers. */
    method UpdateWorstTail() returns (moved: bool)
      requires Tracks() && hub.readers != []
      modifies this, ring, ring.buf
      ensures Tracks()
      ensures hub == Settle(old(hub), old(ring.base))
      ensures ring.base == Oldest(hub)
      ensures moved <==> old(ring.base) != ring.base
    {
      var oldest := ring.oldestTail;
      ghost var before := ring.base;
      ghost var hub0 := hub;
      SettleKeepsTails(hub, before);
      var worst, worstTail := ring.MoveOldestTail(SlotTails(list), 0, Tails(hub.readers));
      assert ring.base == Oldest(hub);
      if oldest == ring.oldestTail {
        SlotDeterminesPosition(QUEUELEN, before, ring.base);
        return false;
      }
      if !rxEnabled {
        var free := ring.FreeCount();
        if free >= RXFLOW_MAX {
          RxFlow(true);
        }
      }
      if worst == 0 {
        return true;
      }
      TimeThoseAt(worstTail, ring.base);
      return true;
    }

    /** lws_ll_fwd_remove() of a session from the instance's list */
    method Unlink(who: nat)
      requires Tracks() && who < |list|
      modifies this
      ensures Tracks()
      ensures hub == Detach(old(hub), who)
    {
      RemoveKeepsOthers(hub.readers, who);
      list := list[..who] + list[who + 1..];
      hub := Detach(hub, who);
      forall i | 0 <= i < |list|
        ensures Agrees(list[i], hub.readers[i]) && ring.Holding(list[i].tail, hub.readers[i].tail)
      {
        var was := if i < who then i else i + 1;
        assert list[i] == old(list)[was] && hub.readers[i] == old(hub).readers[was];
        assert SlotTails(old(list))[was] == list[i].tail;
        assert Tails(old(hub).readers)[was] == hub.readers[i].tail;
      }
      TracksIfHeld();
    }

    /** LWS_CALLBACK_CLOSED after the session is off the list.  The last one to go takes the instance
        with it, and the ring's destruction frees whatever nobody will read now. */
    method AfterUnlink()
      requires Tracks()
      modifies this, ring, ring.buf
      ensures hub == Settle(old(hub), old(ring.base))
      ensures hub.readers != [] ==> Tracks() && ring.base == Oldest(hub)
      ensures hub.readers == [] ==> list == [] && ring.retired == ring.log == hub.log
    {
      if list != [] {
        var _ := UpdateWorstTail();
      } else {
        ring.Destroy();
      }
    }

    /** A session may close between callbacks, or after a failed write has moved its tail on without a look for the
        oldest. */
    ghost predicate Closable()
      reads this, ring, ring.buf
    {
      Tracks() && Unsettled(hub, ring.base)
    }

    lemma ValidIsClosable()
      requires Valid()
      ensures Closable()
    {
      InvIsUnsettled(hub);
    }

    /** LWS_CALLBACK_CLOSED.  Between callbacks, where the oldest tail is the furthest-behind position, this is the
        specification's Leave. */
    method Closed(who: nat)
      requires Closable() && who < |list|
      modifies this, ring, ring.buf
      ensures hub == Settle(Detach(old(hub), who), old(ring.base))
      ensures old(Valid()) ==> hub == Leave(old(hub), who)
      ensures hub.readers != [] ==> Valid()
      ensures hub.readers == [] ==> list == [] && ring.retired == ring.log == hub.log
    {
      RemoveIsUnsettled(hub, who, ring.base);
      SettleFinishes(Detach(hub, who), ring.base);
      Unlink(who);
      AfterUnlink();
    }

    /** What is next to send from a tail, and the tail once that is consumed.  A waiting slot is never
        NULL, so the plugin's guard against that has nothing to do. */
    method NextMessage(tail: nat, ghost at: nat) returns (msg: Option<Message>, tail': nat)
      requires ring.Valid() && ring.Holding(tail, at)
      ensures at == |ring.log| ==> msg == None
      ensures at < |ring.log| ==> msg == Some(ring.log[at]) && ring.Holding(tail', at + 1)
    {
      msg, tail' := None, tail;
      var slot := ring.GetElement(tail, at);
      if slot != None {
        msg := Some(slot.value.value);
        var n;
        tail', n := ring.Consume(tail, 1, at);
      }
    }

    /** The do-while loop of LWS_CALLBACK_SERVER_WRITEABLE, from absolute position `at`: write, then
        consume, until there is nothing left, the pipe is choked (after `budget` writes) or a write
        (number `failing`) fails. */
    method SendWaiting(tail: nat, ghost at: nat, budget: nat, failing: nat)
      returns (tail': nat, out: seq<Message>, failed: bool)
      requires ring.Valid() && ring.Holding(tail, at) && 1 <= budget
      ensures var most := if |ring.log| - at < budget then |ring.log| - at else budget;
              failed == (failing < most) && |out| == if failed then failing else most
      ensures at + |out| <= |ring.log| && out == ring.log[at..at + |out|]
      ensures ring.Holding(tail', at + |out|)
    {
      tail', out, failed := tail, [], false;
      ghost var pos := at;
      while |out| < budget
        invariant |out| <= budget && |out| <= failing
        invariant at + |out| == pos <= |ring.log| && out == ring.log[at..pos]
        invariant ring.Holding(tail', pos)
      {
        var msg, next := NextMessage(tail', pos);
        if msg == None {
          return;
        }
        if |out| == failing {
          failed := true;
          return;
        }
        OneMore(ring.log, at, pos);
        tail', out, pos := next, out + [msg.value], pos + 1;
      }
    }

    /** A session's entry is rewritten after it has been sent `out`. */
    method Update(who: nat, tail: nat, out: seq<Message>, timed: bool, wants: bool)
      requires Tracks() && who < |list|
      requires Sendable(who, tail, out)
      requires var r := hub.readers[who];
               timed == (r.timed && out == []) && wants == (r.tail + |out| < |hub.log|)
      modifies this`list, this`hub
      ensures Tracks()
      ensures hub == Advance(old(hub), who, |out|)
    {
      var pss := list[who];
      list := list[who := pss.(tail := tail, wire := pss.wire + out, timed := timed, wants := wants)];
      hub := Advance(hub, who, |out|);
      forall i | 0 <= i < |list|
        ensures Agrees(list[i], hub.readers[i]) && ring.Holding(list[i].tail, hub.readers[i].tail)
      {
        if i != who {
          assert SlotTails(old(list))[i] == list[i].tail;
          assert Tails(old(hub).readers)[i] == hub.readers[i].tail;
        }
      }
      TracksIfHeld();
    }

    /** `out` is the next run of messages for session `who`, and `tail` is past it. */
    ghost predicate Sendable(who: nat, tail: nat, out: seq<Message>)
      requires ring.slots > 0
      reads this, ring
    {
      && who < |hub.readers|
      && var r := hub.readers[who];
      && r.tail + |out| <= |hub.log| && out == hub.log[r.tail..r.tail + |out|]
      && ring.Holding(tail, r.tail + |out|)
    }

    /** The end of LWS_CALLBACK_SERVER_WRITEABLE: the oldest tail is reconsidered only if this session
        was on it and sent something. */
    method FinishWriting(who: nat, tail: nat, out: seq<Message>)
      requires Valid() && who < |list| && Sendable(who, tail, out)
      modifies this, ring, ring.buf
      ensures Tracks() && ring.base == Oldest(hub)
      ensures hub == Settle(Advance(old(hub), who, |out|), Oldest(old(hub)))
    {
      TailAt(who);
      assert ReaderOk(hub.log, hub.rx, Oldest(hub), hub.readers[who]);
      var updateWorst := ring.oldestTail == list[who].tail;
      if updateWorst {
        SlotDeterminesPosition(QUEUELEN, ring.base, hub.readers[who].tail);
      }
      var left := ring.WaitingCount(tail, hub.readers[who].tail + |out|);
      if out == [] || !updateWorst {
        OthersHoldTheOldest(hub, who, |out|);
        Update(who, tail, out, list[who].timed, left > 0);
      } else {
        Update(who, tail, out, false, left > 0);
        var _ := UpdateWorstTail();
      }
    }

    /** A failed write closes the connection: this is the callback's -1 and the LWS_CALLBACK_CLOSED
        that follows it. */
    method FailWriting(who: nat, tail: nat, out: seq<Message>)
      requires Valid() && who < |list| && Sendable(who, tail, out)
      requires hub.readers[who].tail + |out| < |hub.log|
      modifies this, ring, ring.buf
      ensures hub == WriteFails(old(hub), who, |out|)
      ensures hub.readers != [] ==> Valid()
      ensures hub.readers == [] ==> list == [] && ring.retired == ring.log == hub.log
    {
      AdvanceIsUnsettled(hub, who, |out|);
      Update(who, tail, out, list[who].timed && out == [], true);
      Closed(who);
    }

    /** LWS_CALLBACK_SERVER_WRITEABLE */
    method Writeable(who: nat, budget: nat, failing: nat) returns (ret: int)
      requires Valid() && who < |list| && 1 <= budget
      modifies this, ring, ring.buf
      ensures ret == if failing < budget && failing < Unread(old(hub), who) then -1 else 0
      ensures ret == -1 ==> hub == WriteFails(old(hub), who, failing)
      ensures ret == 0 ==> hub == Write(old(hub), who, budget)
      ensures hub.readers != [] ==> Valid()
      ensures hub.readers == [] ==> list == [] && ring.retired == ring.log == hub.log
    {
      TailAt(who);
      var tail, out, failed := SendWaiting(list[who].tail, hub.readers[who].tail, budget, failing);
      assert Sendable(who, tail, out);
      if failed {
        FailWriting(who, tail, out);
        ret := -1;
      } else {
        WriteKeepsInv(hub, who, budget);
        WriteSends(hub, who, budget, |out|);
        FinishWriting(who, tail, out);
        ret := 0;
      }
    }

    /** The message goes into the ring, which has room for it. */
    method Store(msg: Message)
      requires Valid() && ring.FreeSlots() > 0
      modifies this`hub, ring, ring.buf
      ensures Tracks() && ring.base == old(ring.base) == Oldest(hub)
      ensures hub == old(hub).(log := old(hub).log + [msg])
    {
      AcceptedMessageWaits(hub, msg);
      var _ := ring.Insert([msg]);
      hub := hub.(log := hub.log + [msg]);
    }

    /** What follows: rx goes off if there is little room left, and everybody is to write. */
    method Throttle()
      requires Tracks() && ring.base == Oldest(hub)
      modifies this
      ensures Tracks()
      ensures var h := old(hub);
              hub == WantAll(if h.rx && FreeRoom(h) < RXFLOW_MIN then SetRx(h, false) else h)
    {
      var free := ring.FreeCount();
      if rxEnabled && free < RXFLOW_MIN {
        RxFlow(false);
      }
      CallbackAllOnWritable();
    }

    /** LWS_CALLBACK_RECEIVE; `memory` is whether the payload could be allocated.  The insertion that
        follows cannot fail: there was room. */
    method Received(msg: Message, memory: bool)
      requires Valid()
      modifies this, ring, ring.buf
      ensures Valid()
      ensures hub == Receive(old(hub), msg, memory)
    {
      ReceiveKeepsInv(hub, msg, memory);
      var n := ring.FreeCount();
      if n == 0 {
        // The plugin would switch rx off here, but with no room left it is off already.
        CallbackAllOnWritable();
      } else if memory {
        Store(msg);
        Throttle();
      }
    }
  }
}
