/** The poll table as `lib/core/pollfd.c` keeps it: an array of pollfds packed into its first
    `fdsCount` slots, a lookup from descriptor to connection, and in each connection its place in the
    array.  `poll` is the ghost specification state of PollSpec. */
module PollTable {
  import opened PollSpec
  import opened Sequences

  datatype PollFd = PollFd(fd: nat, events: Events)

  /** struct lws_foreign_thread_pollfd: it names a slot, not a descriptor */
  datatype ForeignChange = ForeignChange(slot: nat, clear: Events, add: Events)

  /** Which of the protocol callbacks around an insertion or a removal fail: LOCK_POLL, ADD_POLL_FD or DEL_POLL_FD,
      and UNLOCK_POLL */
  datatype Callbacks = Callbacks(lockFails: bool, changeFails: bool, unlockFails: bool)

  const LWS_NO_FDS_POS := -1

  class Wsi {
    const fd: nat
    var pos: int
    var handlingPollout: bool
    var leavePolloutActive: bool

    constructor (fd: nat)
      ensures this.fd == fd && pos == LWS_NO_FDS_POS && !handlingPollout && !leavePolloutActive
    {
      this.fd := fd;
      pos, handlingPollout, leavePolloutActive := LWS_NO_FDS_POS, false, false;
    }
  }

  class Pt {
    const fds: array<PollFd>
    const lookup: array<Wsi?>
    var fdsCount: nat
    var insidePoll: bool
    var foreign: seq<ForeignChange>
    var listeners: seq<Wsi>  // the vhosts' lserv_wsi

    ghost var poll: Poll
    ghost var members: set<Wsi>  // the registered connections

    /** Slot `i` and the connection registered there point at each other. */
    ghost predicate SlotOk(i: nat)
      reads this, fds, lookup, members
      requires i < fds.Length
    {
      var f := fds[i].fd;
      && f < lookup.Length && lookup[f] != null && lookup[f] in members
      && lookup[f].fd == f && lookup[f].pos == i
      && f in poll.table && poll.table[f] == fds[i].events
    }

    /** So do descriptor `f` and its slot; and the connection's flags are those of the specification. */
    ghost predicate FdOk(f: nat)
      reads this, fds, lookup, members
      requires f < lookup.Length
    {
      && (lookup[f] != null <==> f in poll.table)
      && (lookup[f] != null ==>
            && lookup[f] in members && lookup[f].fd == f
            && 0 <= lookup[f].pos < fdsCount <= fds.Length && fds[lookup[f].pos].fd == f
            && (lookup[f].handlingPollout <==> f in poll.handling)
            && (lookup[f].leavePolloutActive <==> f in poll.leave))
    }

    ghost predicate Valid()
      reads this, fds, lookup, members
    {
      && fds.Length == poll.limit && lookup.Length == poll.maxFds
      && fdsCount == |poll.table| <= fds.Length
      && (forall i :: 0 <= i < fdsCount ==> SlotOk(i))
      && (forall f :: 0 <= f < lookup.Length ==> FdOk(f))
      && (forall f :: f in poll.table ==> f < lookup.Length)
      && (forall w :: w in members ==> w.fd < lookup.Length && lookup[w.fd] == w)
      && poll.handling <= poll.table.Keys && poll.leave <= poll.table.Keys
      && insidePoll == poll.insidePoll && (insidePoll ==> poll.handling == {})
      && |foreign| == |poll.foreign|
      && (forall k :: 0 <= k < |foreign| ==>
            && foreign[k].slot < fdsCount && fds[foreign[k].slot].fd == poll.foreign[k].fd
            && foreign[k].clear == poll.foreign[k].clear && foreign[k].add == poll.foreign[k].add)
    }

    /** The connection is registered here, or is nowhere and its descriptor unused. */
    ghost predicate Knows(wsi: Wsi)
      reads this, wsi
    {
      if wsi in members then wsi.pos != LWS_NO_FDS_POS
      else wsi.pos == LWS_NO_FDS_POS && wsi.fd !in poll.table
    }

    constructor (limit: nat, maxFds: nat)
      ensures Valid() && ListenersOk() && fresh(fds) && fresh(lookup)
      ensures poll == Empty(limit, maxFds)
    {
      fds := new PollFd[limit](_ => PollFd(0, NONE));
      lookup := new Wsi?[maxFds](_ => null);
      fdsCount, insidePoll, foreign, listeners := 0, false, [], [];
      poll, members := Empty(limit, maxFds), {};
    }

    /** A registered connection's slot and lookup entry */
    lemma Registered(wsi: Wsi)
      requires Valid() && Knows(wsi) && wsi.pos != LWS_NO_FDS_POS
      ensures wsi.fd < lookup.Length && lookup[wsi.fd] == wsi && wsi.fd in poll.table
      ensures 0 <= wsi.pos < fdsCount && fds[wsi.pos] == PollFd(wsi.fd, poll.table[wsi.fd])
      ensures wsi.handlingPollout <==> wsi.fd in poll.handling
    {
      assert FdOk(wsi.fd);
      assert SlotOk(wsi.pos);
    }

    /** "leave POLLOUT active on exit" */
    method SetLeaveActive(wsi: Wsi)
      requires Valid() && wsi in members
      modifies this`poll, wsi`leavePolloutActive
      ensures Valid()
      ensures poll == old(poll).(leave := old(poll).leave + {wsi.fd})
    {
      assert FdOk(wsi.fd);
      wsi.leavePolloutActive := true;
      poll := poll.(leave := poll.leave + {wsi.fd});
      forall i | 0 <= i < fdsCount ensures SlotOk(i) { assert old(SlotOk(i)); }
      forall f | 0 <= f < lookup.Length ensures FdOk(f) { assert old(FdOk(f)); }
    }

    /** A change asked for from another thread goes on the end of the list. */
    method Defer(wsi: Wsi, clear: Events, add: Events)
      requires Valid() && Knows(wsi) && wsi.pos != LWS_NO_FDS_POS
      modifies this`poll, this`foreign
      ensures Valid()
      ensures poll == old(poll).(foreign := old(poll).foreign + [Change(wsi.fd, clear, add)])
    {
      Registered(wsi);
      foreign := foreign + [ForeignChange(wsi.pos, clear, add)];
      poll := poll.(foreign := poll.foreign + [Change(wsi.fd, clear, add)]);
      forall i | 0 <= i < fdsCount ensures SlotOk(i) { assert old(SlotOk(i)); }
      forall f | 0 <= f < lookup.Length ensures FdOk(f) { assert old(FdOk(f)); }
    }

    method SetEvents(wsi: Wsi, events: Events)
      requires Valid() && Knows(wsi) && wsi.pos != LWS_NO_FDS_POS
      modifies this`poll, fds
      ensures Valid()
      ensures poll == old(poll).(table := old(poll).table[wsi.fd := events])
    {
      Registered(wsi);
      TableSize(poll.table, wsi.fd, events);
      fds[wsi.pos] := PollFd(wsi.fd, events);
      poll := poll.(table := poll.table[wsi.fd := events]);
      forall i | 0 <= i < fdsCount ensures SlotOk(i) { assert old(SlotOk(i)); }
      forall f | 0 <= f < lookup.Length ensures FdOk(f) { assert old(FdOk(f)); }
    }

    /** _lws_change_pollfd() */
    method ChangePollfd(wsi: Wsi, clear: Events, add: Events, fate: Fate) returns (ret: int)
      requires Valid() && Knows(wsi)
      modifies this`foreign, this`poll, fds, wsi`leavePolloutActive
      ensures Valid()
      ensures poll == PollSpec.ChangePollfd(old(poll), wsi.fd, clear, add, fate.memory)
      ensures ret == if ChangeFails(old(poll), wsi.fd, clear, add, fate) then -1 else 0
    {
      if wsi.pos == LWS_NO_FDS_POS {
        return 0;
      }
      Registered(wsi);
      if wsi.handlingPollout && clear == NONE && add == POLLOUT {
        SetLeaveActive(wsi);
        return 0;
      }
      if insidePoll {
        if !fate.memory {
          return -1;
        }
        Defer(wsi, clear, add);
        return 0;
      }
      SetEvents(wsi, Masked(fds[wsi.pos].events, clear, add));
      ret := if fate.modeFails then -1 else 0;
    }

    /** __lws_change_pollfd() */
    method TryChange(wsi: Wsi, clear: Events, add: Events, fate: Fate) returns (ret: int)
      requires Valid() && Knows(wsi)
      modifies this`foreign, this`poll, fds, wsi`leavePolloutActive
      ensures Valid()
      ensures poll == PollSpec.TryChange(old(poll), wsi.fd, clear, add, fate)
      ensures ret == if wsi.fd !in old(poll).table then 0
                     else if fate.unbound then 0
                     else if fate.lockFails || fate.unlockFails then -1
                     else if ChangeFails(old(poll), wsi.fd, clear, add, fate) then -1 else 0
    {
      if wsi.pos == LWS_NO_FDS_POS {
        return 0;
      }
      Registered(wsi);
      if fate.unbound {
        return 0;
      }
      if fate.lockFails {
        return -1;
      }
      ret := ChangePollfd(wsi, clear, add, fate);
      if fate.unlockFails {
        ret := -1;
      }
    }

    /** lws_callback_on_writable(), where the role has no say of its own.  Unless the connection is past writing, a
        wake-up is then to come if and only if one was already or the request gets through, the drain that lies ahead
        included.  A returned 1 does not promise that: a connection without a protocol gets it for nothing, and a
        request that was queued may still be refused. */
    method CallbackOnWritable(wsi: Wsi, shutdown: bool, unusable: bool, fate: Fate, ghost drain: seq<Fate>)
      returns (ret: int)
      requires Valid() && Knows(wsi) && QueueOk(poll) && |poll.foreign| < |drain|
      modifies this`foreign, this`poll, fds, wsi`leavePolloutActive
      ensures Valid() && QueueOk(poll) && |poll.foreign| <= |drain|
      ensures poll == if shutdown || unusable then old(poll) else AskWritable(old(poll), wsi.fd, fate)
      ensures shutdown || unusable ==> ret == 0
      ensures !shutdown && !unusable && wsi.fd !in old(poll).table ==> ret == -1
      ensures !shutdown && !unusable && wsi.fd in old(poll).table ==>
                && (Wakes(poll, wsi.fd, drain)
                    <==> Wakes(old(poll), wsi.fd, drain) || GetsThrough(old(poll), wsi.fd, fate, drain))
                && (ret == 1 || ret == -1)
                && (ret == 1 && !fate.unbound && (|poll.foreign| == |old(poll).foreign| || !Dropped(drain[|old(poll).foreign|]))
                    ==> Wakes(poll, wsi.fd, drain))
    {
      if shutdown || unusable {
        return 0;
      }
      if wsi.pos == LWS_NO_FDS_POS {
        return -1;
      }
      Registered(wsi);
      AskingWakesIff(poll, wsi.fd, fate, drain);
      var failed := TryChange(wsi, NONE, POLLOUT, fate);
      ret := if failed != 0 then -1 else 1;
    }

    // ----- the writable event's flags -----

    /** The flags of one connection are set to what the specification has for it. */
    method SetFlags(wsi: Wsi, handling: bool, leave: bool)
      requires Valid() && wsi in members && (handling ==> !insidePoll)
      modifies this`poll, wsi`handlingPollout, wsi`leavePolloutActive
      ensures Valid()
      ensures poll == old(poll).(handling := if handling then old(poll).handling + {wsi.fd} else old(poll).handling - {wsi.fd},
                                 leave := if leave then old(poll).leave + {wsi.fd} else old(poll).leave - {wsi.fd})
    {
      assert FdOk(wsi.fd);
      wsi.handlingPollout, wsi.leavePolloutActive := handling, leave;
      poll := poll.(handling := if handling then poll.handling + {wsi.fd} else poll.handling - {wsi.fd},
                    leave := if leave then poll.leave + {wsi.fd} else poll.leave - {wsi.fd});
      forall i | 0 <= i < fdsCount ensures SlotOk(i) { assert old(SlotOk(i)); }
      forall f | 0 <= f < lookup.Length ensures FdOk(f) { assert old(FdOk(f)); }
    }

    /** lws_handle_POLLOUT_event() begins: leave_pollout_active is cleared and handling_pollout set. */
    method BeginHandling(wsi: Wsi)
      requires Valid() && wsi in members && !insidePoll
      modifies this`poll, wsi`handlingPollout, wsi`leavePolloutActive
      ensures Valid() && poll == PollSpec.BeginHandling(old(poll), wsi.fd)
    {
      SetFlags(wsi, true, false);
    }

    /** handling_pollout is cleared. */
    method EndHandling(wsi: Wsi)
      requires Valid() && wsi in members
      modifies this`poll, wsi`handlingPollout, wsi`leavePolloutActive
      ensures Valid() && poll == PollSpec.EndHandling(old(poll), wsi.fd)
    {
      assert FdOk(wsi.fd);
      SetFlags(wsi, false, wsi.leavePolloutActive);
    }

    /** leave_pollout_active is cleared. */
    method ForgetLeave(wsi: Wsi)
      requires Valid() && wsi in members && (wsi.handlingPollout ==> !insidePoll)
      modifies this`poll, wsi`handlingPollout, wsi`leavePolloutActive
      ensures Valid() && poll == PollSpec.ForgetLeave(old(poll), wsi.fd)
    {
      assert FdOk(wsi.fd);
      SetFlags(wsi, wsi.handlingPollout, false);
    }

    // ----- accept gating -----

    ghost predicate ListenersOk()
      reads this, listeners
    {
      && (forall l :: l in listeners ==> Knows(l))
      && (forall i, j :: 0 <= i < j < |listeners| ==> listeners[i].fd != listeners[j].fd)
      && poll.listeners == FdsOf(listeners)
    }

    ghost function FdsOf(some: seq<Wsi>): (fdsOf: set<nat>) {
      set l | l in some :: l.fd
    }

    ghost function Gated(table: map<nat, Events>, some: seq<Wsi>, allow: bool): (t: map<nat, Events>) {
      map f | f in table :: if f in FdsOf(some) then table[f].(pollin := allow) else table[f]
    }

    /** One listener fewer */
    lemma FdsWithout(some: seq<Wsi>, k: nat)
      requires k < |some| && forall i, j :: 0 <= i < j < |some| ==> some[i].fd != some[j].fd
      ensures var rest := some[..k] + some[k + 1..];
              && some[k] !in rest
              && (forall i, j :: 0 <= i < j < |rest| ==> rest[i].fd != rest[j].fd)
              && FdsOf(rest) == FdsOf(some) - {some[k].fd}
    {
      var rest := some[..k] + some[k + 1..];
      assert forall i :: 0 <= i < |rest| ==> rest[i] == some[if i < k then i else i + 1];
      forall l | l in some && l.fd != some[k].fd ensures l in rest {
        var i :| 0 <= i < |some| && some[i] == l;
        assert rest[if i < k then i else i - 1] == l;
      }
    }

    /** One more listener gated, on top of those before it */
    lemma GatedOneMore(table: map<nat, Events>, some: seq<Wsi>, l: Wsi, allow: bool)
      ensures var t := Gated(table, some, allow);
              Gated(table, some + [l], allow)
              == if l.fd in t then t[l.fd := t[l.fd].(pollin := allow)] else t
    {
      assert FdsOf(some + [l]) == FdsOf(some) + {l.fd};
    }

    method ModulateOne(l: Wsi, allow: bool, fate: Fate)
      requires Valid() && Knows(l) && !insidePoll
      modifies this`poll, this`foreign, fds, l`leavePolloutActive
      ensures Valid()
      ensures var t := old(poll).table;
              poll == old(poll).(table := if l.fd in t then t[l.fd := t[l.fd].(pollin := allow)] else t)
      ensures poll.table.Keys == old(poll).table.Keys
    {
      if allow {
        var _ := ChangePollfd(l, NONE, POLLIN, fate);
      } else {
        var _ := ChangePollfd(l, POLLIN, NONE, fate);
      }
    }

    /** One turn of the loop of lws_accept_modulation() */
    method ModulateNext(i: nat, allow: bool, fate: Fate, ghost before: Poll)
      requires Valid() && ListenersOk() && !insidePoll && i < |listeners|
      requires poll == before.(table := Gated(before.table, listeners[..i], allow))
      modifies this`poll, this`foreign, fds, listeners`leavePolloutActive
      ensures Valid() && ListenersOk()
      ensures poll == before.(table := Gated(before.table, listeners[..i + 1], allow))
    {
      var l := listeners[i];
      assert l in listeners && Knows(l);
      GatedOneMore(before.table, listeners[..i], l, allow);
      OneMore(listeners, 0, i);
      assert listeners[0..i] == listeners[..i] && listeners[0..i + 1] == listeners[..i + 1];
      ModulateOne(l, allow, fate);
    }

    /** lws_accept_modulation(): every vhost's listener, in turn.  It does not look at what becomes of the changes,
        and outside poll() they are made in any case. */
    method AcceptModulation(allow: bool, fate: Fate)
      requires Valid() && ListenersOk() && !insidePoll
      modifies this`poll, this`foreign, fds, listeners`leavePolloutActive
      ensures Valid() && ListenersOk()
      ensures poll == Modulated(old(poll), allow)
    {
      assert Gated(poll.table, listeners[..0], allow) == poll.table;
      var i := 0;
      while i < |listeners|
        invariant 0 <= i <= |listeners|
        invariant Valid() && ListenersOk() && !insidePoll
        invariant poll == old(poll).(table := Gated(old(poll.table), listeners[..i], allow))
      {
        ModulateNext(i, allow, fate, old(poll));
        i := i + 1;
      }
      assert listeners[..|listeners|] == listeners;
    }

    // ----- registering and removing -----

    /** The lookup side of a registration */
    twostate lemma FdsAfterRegister(wsi: Wsi)
      requires old(Valid()) && wsi !in old(members) && wsi.fd !in old(poll).table && wsi.fd < lookup.Length
      requires !wsi.handlingPollout && !wsi.leavePolloutActive
      requires fdsCount == old(fdsCount) + 1 <= fds.Length && wsi.pos == old(fdsCount)
      requires members == old(members) + {wsi}
      requires poll == old(poll).(table := old(poll).table[wsi.fd := POLLIN])
      requires lookup[wsi.fd] == wsi && forall f :: 0 <= f < lookup.Length && f != wsi.fd ==> lookup[f] == old(lookup[f])
      requires fds[old(fdsCount)].fd == wsi.fd && forall i :: 0 <= i < old(fdsCount) ==> fds[i] == old(fds[i])
      requires forall w :: w in old(members) ==> unchanged(w)
      ensures forall f :: 0 <= f < lookup.Length ==> FdOk(f)
    {
      assert old(FdOk(wsi.fd));
      forall f | 0 <= f < lookup.Length ensures FdOk(f) {
        assert old(FdOk(f));
      }
    }

    /** The table part of __insert_wsi_socket_into_fds(): the new entry goes after the last. */
    method Register(wsi: Wsi)
      requires Valid() && !insidePoll && foreign == []
      requires wsi !in members && wsi.fd !in poll.table && !wsi.handlingPollout && !wsi.leavePolloutActive
      requires fdsCount < fds.Length && wsi.fd < lookup.Length
      modifies this`poll, this`fdsCount, this`members, fds, lookup, wsi`pos
      ensures Valid()
      ensures members == old(members) + {wsi} && wsi.pos == old(fdsCount)
      ensures poll == old(poll).(table := old(poll).table[wsi.fd := POLLIN])
    {
      TableSize(poll.table, wsi.fd, POLLIN);
      assert FdOk(wsi.fd);
      lookup[wsi.fd] := wsi;
      wsi.pos := fdsCount;
      fds[wsi.pos] := PollFd(wsi.fd, POLLIN);
      fdsCount := fdsCount + 1;
      members := members + {wsi};
      poll := poll.(table := poll.table[wsi.fd := POLLIN]);
      forall i | 0 <= i < fdsCount ensures SlotOk(i) {
        if i < fdsCount - 1 {
          assert old(SlotOk(i));
          assert fds[i].fd != wsi.fd;
        }
      }
      FdsAfterRegister(wsi);
    }

    /** The table part of __remove_wsi_socket_from_fds(): the last entry takes the vacant slot, and is told
        so; the entry removed may itself be the last. */
    method Unregister(wsi: Wsi)
      requires Valid() && !insidePoll && foreign == [] && wsi in members
      modifies this`poll, this`fdsCount, this`members, fds, lookup, members`pos
      ensures Valid()
      ensures members == old(members) - {wsi} && wsi.pos == LWS_NO_FDS_POS
      ensures poll == Deleted(old(poll), wsi.fd)
    {
      assert FdOk(wsi.fd);
      var m := wsi.pos;
      ghost var last := fds[fdsCount - 1];
      assert SlotOk(m) && SlotOk(fdsCount - 1);
      assert m < fdsCount - 1 ==> last.fd != wsi.fd;
      TableSize(poll.table, wsi.fd, NONE);
      fds[m] := fds[fdsCount - 1];
      fdsCount := fdsCount - 1;
      var endWsi := lookup[fds[m].fd];
      endWsi.pos := m;
      lookup[wsi.fd] := null;
      wsi.pos := LWS_NO_FDS_POS;
      members := members - {wsi};
      poll := Deleted(poll, wsi.fd);
      forall i | 0 <= i < fdsCount ensures SlotOk(i) {
        assert old(SlotOk(i));
        if i != m {
          assert fds[i].fd != wsi.fd && fds[i].fd != last.fd;
        }
      }
      forall f | 0 <= f < lookup.Length ensures FdOk(f) {
        assert old(FdOk(f));
        if f != wsi.fd && f != last.fd && lookup[f] != null {
          assert lookup[f].pos != m;
        }
      }
    }

    /** __insert_wsi_socket_into_fds().  Of the protocol callbacks only LOCK_POLL's stops the insertion. */
    method Insert(wsi: Wsi, cb: Callbacks, fate: Fate) returns (ret: int)
      requires Valid() && ListenersOk() && !insidePoll && foreign == []
      requires wsi !in members && wsi.fd !in poll.table && wsi.fd !in poll.listeners
      requires !wsi.handlingPollout && !wsi.leavePolloutActive
      modifies this`poll, this`fdsCount, this`members, this`foreign, fds, lookup, wsi`pos, listeners`leavePolloutActive
      ensures Valid() && ListenersOk() && foreign == []
      ensures ret == if Refuses(old(poll), wsi.fd) then 1
                     else if cb.lockFails || cb.changeFails || cb.unlockFails then -1 else 0
      ensures poll == if cb.lockFails then old(poll) else PollSpec.Insert(old(poll), wsi.fd)
      ensures members == if Refuses(old(poll), wsi.fd) || cb.lockFails then old(members) else old(members) + {wsi}
    {
      if fdsCount >= fds.Length {
        return 1;
      }
      if wsi.fd >= lookup.Length {
        return 1;
      }
      if cb.lockFails {
        return -1;
      }
      Register(wsi);
      if fdsCount == fds.Length - 1 {
        AcceptModulation(false, fate);
      }
      ret := if cb.changeFails || cb.unlockFails then -1 else 0;
    }

    /** __remove_wsi_socket_from_fds() */
    method Remove(wsi: Wsi, beingDestroyed: bool, cb: Callbacks, fate: Fate) returns (ret: int)
      requires Valid() && ListenersOk() && !insidePoll && foreign == []
      requires Knows(wsi)
      modifies this`poll, this`fdsCount, this`members, this`foreign, fds, lookup, members`pos, listeners`leavePolloutActive
      ensures Valid() && ListenersOk() && foreign == []
      ensures ret == if wsi.fd > lookup.Length then 1
                     else if cb.lockFails || cb.changeFails || cb.unlockFails then -1 else 0
      ensures poll == if cb.lockFails then old(poll) else PollSpec.Remove(old(poll), wsi.fd, beingDestroyed)
    {
      if wsi.fd > lookup.Length {
        return 1;
      }
      if cb.lockFails {
        return -1;
      }
      if wsi.pos != LWS_NO_FDS_POS {
        Unregister(wsi);
        forall l | l in listeners ensures Knows(l) {
          assert old(Knows(l));
          if l in members { assert FdOk(l.fd); }
        }
      } else {
        assert poll == Deleted(poll, wsi.fd);
      }
      if !beingDestroyed && fdsCount < fds.Length - 1 {
        AcceptModulation(true, fate);
      }
      ret := if cb.changeFails || cb.unlockFails then -1 else 0;
    }

    // ----- listening -----

    /** The end of lws_context_init_server(): a listening socket is registered, then made its vhost's lserv_wsi, and
        given up again if listen() fails.  One whose registration reports a failure is closed where it is, even if
        only a later callback failed and it is in the table. */
    method Listen(wsi: Wsi, cb: Callbacks, fate: Fate, listenFails: bool, undo: Callbacks) returns (ret: int)
      requires Valid() && ListenersOk() && !insidePoll && foreign == []
      requires wsi !in members && wsi.pos == LWS_NO_FDS_POS && wsi.fd !in poll.table && wsi.fd !in poll.listeners
      requires !wsi.handlingPollout && !wsi.leavePolloutActive
      modifies this`poll, this`fdsCount, this`members, this`foreign, this`listeners, fds, lookup
      modifies members`pos, wsi`pos, listeners`leavePolloutActive, wsi`leavePolloutActive
      ensures Valid() && ListenersOk()
      ensures ret == 0 <==> !Refuses(old(poll), wsi.fd) && cb == Callbacks(false, false, false) && !listenFails
      ensures ret == 0 ==> poll == Step(old(poll), Listens(wsi.fd)) && listeners == old(listeners) + [wsi]
      ensures ret != 0 ==> ret == -1 && listeners == old(listeners)
      ensures ret != 0 ==>
                var p := if cb.lockFails then old(poll) else PollSpec.Insert(old(poll), wsi.fd);
                var registered := !Refuses(old(poll), wsi.fd) && cb == Callbacks(false, false, false);
                poll == if registered && !undo.lockFails then PollSpec.Remove(p, wsi.fd, false) else p
    {
      var failed := Insert(wsi, cb, fate);
      if failed != 0 {
        return -1;
      }
      assert wsi in members && FdOk(wsi.fd);
      if listenFails {
        var _ := Remove(wsi, false, undo, fate);
        return -1;
      }
      AddListener(wsi);
      ret := 0;
    }

    /** lserv_wsi is set. */
    method AddListener(wsi: Wsi)
      requires Valid() && ListenersOk() && Knows(wsi) && wsi.fd !in poll.listeners
      modifies this`poll, this`listeners
      ensures Valid() && ListenersOk()
      ensures listeners == old(listeners) + [wsi]
      ensures poll == old(poll).(listeners := old(poll).listeners + {wsi.fd})
    {
      assert forall l :: l in listeners ==> l.fd in poll.listeners;
      listeners := listeners + [wsi];
      poll := poll.(listeners := poll.listeners + {wsi.fd});
      forall i | 0 <= i < fdsCount ensures SlotOk(i) { assert old(SlotOk(i)); }
      forall f | 0 <= f < lookup.Length ensures FdOk(f) { assert old(FdOk(f)); }
      assert FdsOf(listeners) == old(poll).listeners + {wsi.fd};
    }

    /** lserv_wsi is cleared when the listening connection is freed. */
    method Unlisten(wsi: Wsi)
      requires Valid() && ListenersOk() && wsi in listeners
      modifies this`poll, this`listeners
      ensures Valid() && ListenersOk() && wsi !in listeners
      ensures poll == old(poll).(listeners := old(poll).listeners - {wsi.fd})
    {
      var k := 0;
      while listeners[k] != wsi
        invariant 0 <= k < |listeners| && wsi in listeners[k..]
        decreases |listeners| - k
      {
        k := k + 1;
      }
      FdsWithout(listeners, k);
      listeners := listeners[..k] + listeners[k + 1..];
      poll := poll.(listeners := poll.listeners - {wsi.fd});
      forall i | 0 <= i < fdsCount ensures SlotOk(i) { assert old(SlotOk(i)); }
      forall f | 0 <= f < lookup.Length ensures FdOk(f) { assert old(FdOk(f)); }
    }

    /** Once the registrations have followed a run in which the listeners found room, each registered listener's
        slot has POLLIN exactly while the table is below limit - 1. */
    lemma ListenerAcceptsExactlyWhileThereIsRoom(l: Wsi, events: seq<Event>)
      requires Valid() && ListenersOk() && l in listeners && l in members
      requires var p := Empty(fds.Length, lookup.Length);
               CanRun(p, events) && ListenersFindRoom(p, events) && poll == Run(p, events)
      ensures 0 <= l.pos < fdsCount && fds[l.pos].fd == l.fd
      ensures fds[l.pos].events.pollin <==> fdsCount < fds.Length - 1
    {
      Registered(l);
      ListenersAcceptExactlyWhileThereIsRoom(fds.Length, lookup.Length, events, l.fd);
    }

    // ----- poll() -----

    /** The service thread goes into poll() with no writable event half handled. */
    method EnterPoll()
      requires Valid() && !insidePoll && foreign == [] && poll.handling == {}
      modifies this`insidePoll, this`poll
      ensures Valid() && poll == old(poll).(insidePoll := true)
    {
      insidePoll := true;
      poll := poll.(insidePoll := true);
      forall i | 0 <= i < fdsCount ensures SlotOk(i) { assert old(SlotOk(i)); }
      forall f | 0 <= f < lookup.Length ensures FdOk(f) { assert old(FdOk(f)); }
    }

    /** The first entry of the foreign change list is taken off it. */
    method TakeFirst() returns (ftp: ForeignChange)
      requires Valid() && !insidePoll && foreign != []
      modifies this`foreign, this`poll
      ensures Valid() && ftp == old(foreign)[0] && |foreign| == |old(foreign)| - 1
      ensures poll == old(poll).(foreign := old(poll).foreign[1..])
      ensures ftp.slot < fdsCount && SlotOk(ftp.slot)
      ensures Change(fds[ftp.slot].fd, ftp.clear, ftp.add) == old(poll).foreign[0]
    {
      ftp := foreign[0];
      foreign := foreign[1..];
      poll := poll.(foreign := poll.foreign[1..]);
      forall i | 0 <= i < fdsCount ensures SlotOk(i) { assert old(SlotOk(i)); }
      forall f | 0 <= f < lookup.Length ensures FdOk(f) { assert old(FdOk(f)); }
    }

    /** One entry of the foreign change list: its slot still holds the descriptor it was made for, and the change is
        tried once more.  Nobody looks at what becomes of it. */
    method ApplyFirst(fate: Fate)
      requires Valid() && !insidePoll && foreign != [] && poll.handling == {}
      modifies this`foreign, this`poll, fds, members`leavePolloutActive
      ensures Valid() && !insidePoll && |foreign| == |old(foreign)| - 1
      ensures var c := old(poll).foreign[0];
              && c.fd in old(poll).table
              && poll == old(poll).(foreign := old(poll).foreign[1..], table := Apply(old(poll).table, c, fate))
    {
      var ftp := TakeFirst();
      var pfd := fds[ftp.slot];
      assert FdOk(pfd.fd);
      var wsi := lookup[pfd.fd];
      var _ := TryChange(wsi, ftp.clear, ftp.add, fate);
    }

    /** Coming out of poll(), the service thread tries the changes other threads asked for meanwhile; `drain[i]` is what
        the i-th of them meets with. */
    method LeavePoll(drain: seq<Fate>)
      requires Valid() && insidePoll && |drain| == |foreign|
      modifies this`insidePoll, this`foreign, this`poll, fds, members`leavePolloutActive
      ensures Valid() && foreign == []
      ensures poll == PollSpec.LeavePoll(old(poll), drain)
    {
      insidePoll := false;
      poll := poll.(insidePoll := false);
      forall i | 0 <= i < fdsCount ensures SlotOk(i) { assert old(SlotOk(i)); }
      forall f | 0 <= f < lookup.Length ensures FdOk(f) { assert old(FdOk(f)); }
      var k := 0;
      while foreign != []
        invariant Valid() && !insidePoll && poll.handling == {}
        invariant |foreign| == |drain| - k && 0 <= k <= |drain|
        invariant PollSpec.LeavePoll(poll, drain[k..]) == PollSpec.LeavePoll(old(poll), drain)
        decreases |foreign|
      {
        ApplyFirstThenRest(poll.table, poll.foreign, drain[k..]);
        ApplyFirst(drain[k]);
        assert drain[k..][1..] == drain[k + 1..];
        k := k + 1;
      }
    }
  }
}
