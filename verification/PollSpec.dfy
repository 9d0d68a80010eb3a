/** What the poll table of one service thread means, without its array: which descriptors are
    registered, and for which events (`lib/core/pollfd.c`, `lib/plat/unix/unix-service.c`).  Module
    PollTable has the array, the back-pointers and the lookup, and is proved to follow this. */
module PollSpec {
  /** A set of poll events, as in `events`, `_and` and `_or` */
  datatype Events = Events(pollin: bool, pollout: bool)

  const NONE := Events(false, false)
  const POLLIN := Events(true, false)
  const POLLOUT := Events(false, true)

  /** (events & ~_and) | _or */
  function Masked(events: Events, clear: Events, add: Events): (r: Events) {
    Events((events.pollin && !clear.pollin) || add.pollin, (events.pollout && !clear.pollout) || add.pollout)
  }

  /** A change kept back while the service thread is inside poll() */
  datatype Change = Change(fd: nat, clear: Events, add: Events)

  /** `table` is the registered descriptors and their events.  `handling` and `leave` are the connections
      with handling_pollout and leave_pollout_active set; `listeners` the vhosts' lserv_wsi; `limit` is
      fd_limit_per_thread. */
  datatype Poll = Poll(table: map<nat, Events>, handling: set<nat>, leave: set<nat>, listeners: set<nat>,
                       limit: nat, maxFds: nat, insidePoll: bool, foreign: seq<Change>)

  /** What a change meets with: whether its connection has no protocol and is not the event pipe, whether the
      LOCK_POLL callback refuses it, whether there is memory to keep it back, whether a callback or the platform fails
      once it is made, and whether the UNLOCK_POLL callback fails */
  datatype Fate = Fate(unbound: bool, lockFails: bool, memory: bool, modeFails: bool, unlockFails: bool)

  /** __lws_change_pollfd() does not get as far as the change; for an unbound connection it does not even say so. */
  predicate Dropped(fate: Fate) {
    fate.unbound || fate.lockFails
  }

  /** A request for POLLOUT while the connection's writable event is being handled */
  predicate LeavesActive(p: Poll, fd: nat, clear: Events, add: Events) {
    fd in p.handling && clear == NONE && add == POLLOUT
  }

  /** _lws_change_pollfd() */
  function ChangePollfd(p: Poll, fd: nat, clear: Events, add: Events, memory: bool): (p': Poll) {
    if fd !in p.table then p
    else if LeavesActive(p, fd, clear, add) then p.(leave := p.leave + {fd})
    else if p.insidePoll then if memory then p.(foreign := p.foreign + [Change(fd, clear, add)]) else p
    else p.(table := p.table[fd := Masked(p.table[fd], clear, add)])
  }

  predicate ChangeFails(p: Poll, fd: nat, clear: Events, add: Events, fate: Fate) {
    && fd in p.table && !LeavesActive(p, fd, clear, add)
    && if p.insidePoll then !fate.memory else fate.modeFails
  }

  /** __lws_change_pollfd() */
  function TryChange(p: Poll, fd: nat, clear: Events, add: Events, fate: Fate): (p': Poll) {
    if Dropped(fate) then p else ChangePollfd(p, fd, clear, add, fate.memory)
  }

  /** lws_callback_on_writable(), for a connection that is neither shut down nor unusable */
  function AskWritable(p: Poll, fd: nat, fate: Fate): (p': Poll) {
    TryChange(p, fd, NONE, POLLOUT, fate)
  }

  /** The start of lws_handle_POLLOUT_event() */
  function BeginHandling(p: Poll, fd: nat): (p': Poll) {
    p.(handling := p.handling + {fd}, leave := p.leave - {fd})
  }

  /** handling_pollout is cleared. */
  function EndHandling(p: Poll, fd: nat): (p': Poll) {
    p.(handling := p.handling - {fd})
  }

  /** leave_pollout_active is cleared. */
  function ForgetLeave(p: Poll, fd: nat): (p': Poll) {
    p.(leave := p.leave - {fd})
  }

  /** lws_accept_modulation(), outside poll() */
  function Modulated(p: Poll, allow: bool): (p': Poll) {
    p.(table := map fd | fd in p.table ::
                  if fd in p.listeners then p.table[fd].(pollin := allow) else p.table[fd])
  }

  predicate Refuses(p: Poll, fd: nat) {
    |p.table| >= p.limit || fd >= p.maxFds
  }

  /** __insert_wsi_socket_into_fds() once its LOCK_POLL callback has let it through */
  function Insert(p: Poll, fd: nat): (p': Poll) {
    if Refuses(p, fd) then p
    else
      var p1 := p.(table := p.table[fd := POLLIN]);
      if |p1.table| == p1.limit - 1 then Modulated(p1, false) else p1
  }

  function Deleted(p: Poll, fd: nat): (p': Poll) {
    p.(table := p.table - {fd}, handling := p.handling - {fd}, leave := p.leave - {fd})
  }

  /** __remove_wsi_socket_from_fds() once its LOCK_POLL callback has let it through */
  function Remove(p: Poll, fd: nat, beingDestroyed: bool): (p': Poll) {
    if fd > p.maxFds then p
    else
      var p1 := Deleted(p, fd);
      if !beingDestroyed && |p1.table| < p1.limit - 1 then Modulated(p1, true) else p1
  }

  // ----- the changes kept back -----

  /** One change kept back is tried again, now outside poll(). */
  function Apply(table: map<nat, Events>, c: Change, fate: Fate): (table': map<nat, Events>)
    ensures table'.Keys == table.Keys
  {
    if c.fd in table && !Dropped(fate) then table[c.fd := Masked(table[c.fd], c.clear, c.add)] else table
  }

  /** All of them, in the order they were asked for; `drain[i]` is what the i-th meets with. */
  function ApplyAll(table: map<nat, Events>, changes: seq<Change>, drain: seq<Fate>): (table': map<nat, Events>)
    requires |changes| <= |drain|
    ensures table'.Keys == table.Keys
  {
    if changes == [] then table
    else
      var last := |changes| - 1;
      Apply(ApplyAll(table, changes[..last], drain), changes[last], drain[last])
  }

  /** Coming out of poll(), the service thread tries the changes kept back, and does not look at what becomes of
      them. */
  function LeavePoll(p: Poll, drain: seq<Fate>): (p': Poll)
    requires |p.foreign| <= |drain|
  {
    p.(insidePoll := false, table := ApplyAll(p.table, p.foreign, drain), foreign := [])
  }

  lemma {:induction false} ApplyFirstThenRest(table: map<nat, Events>, changes: seq<Change>, drain: seq<Fate>)
    requires changes != [] && |changes| <= |drain|
    ensures ApplyAll(table, changes, drain)
         == ApplyAll(Apply(table, changes[0], drain[0]), changes[1..], drain[1..])
  {
    var last := |changes| - 1;
    if last == 0 {
      assert changes[..0] == [];
    } else {
      ApplyFirstThenRest(table, changes[..last], drain);
      assert changes[..last][1..] == changes[1..][..last - 1];
    }
  }

  /** The i-th change sets the descriptor's POLLOUT, or clears it, if it is not dropped. */
  predicate Sets(changes: seq<Change>, drain: seq<Fate>, fd: nat, i: nat)
    requires i < |changes| <= |drain|
  {
    changes[i].fd == fd && changes[i].add.pollout && !Dropped(drain[i])
  }

  predicate Clears(changes: seq<Change>, drain: seq<Fate>, fd: nat, i: nat)
    requires i < |changes| <= |drain|
  {
    changes[i].fd == fd && !changes[i].add.pollout && changes[i].clear.pollout && !Dropped(drain[i])
  }

  /** Nothing from the i-th change on clears it. */
  predicate Unchallenged(changes: seq<Change>, drain: seq<Fate>, fd: nat, i: nat)
    requires |changes| <= |drain|
  {
    forall j :: i <= j < |changes| ==> !Clears(changes, drain, fd, j)
  }

  /** After the drain a descriptor is polled for writability if and only if it was before, or some queued request was
      not dropped, and no later change that was not dropped clears it. */
  lemma {:induction false} DrainedPolloutIff(table: map<nat, Events>, changes: seq<Change>, drain: seq<Fate>, fd: nat)
    requires |changes| <= |drain| && fd in table
    ensures ApplyAll(table, changes, drain)[fd].pollout
            <==> || (table[fd].pollout && Unchallenged(changes, drain, fd, 0))
                 || exists i :: 0 <= i < |changes| && Sets(changes, drain, fd, i) && Unchallenged(changes, drain, fd, i)
  {
    if changes != [] {
      var last := |changes| - 1;
      var init := changes[..last];
      DrainedPolloutIff(table, init, drain, fd);
      assert forall i :: 0 <= i < last ==>
               (Sets(init, drain, fd, i) <==> Sets(changes, drain, fd, i)) &&
               (Clears(init, drain, fd, i) <==> Clears(changes, drain, fd, i));
      assert forall i :: 0 <= i <= last ==>
               (Unchallenged(changes, drain, fd, i)
                <==> Unchallenged(init, drain, fd, i) && !Clears(changes, drain, fd, last));
      if Sets(changes, drain, fd, last) {
        assert Unchallenged(changes, drain, fd, last);
      }
    }
  }

  /** A writable event is still to come, if the drain goes that way: the descriptor will be polled for it, or, if one is
      being handled now, the service thread has been told to leave it that way. */
  predicate Wakes(p: Poll, fd: nat, drain: seq<Fate>)
    requires |p.foreign| <= |drain|
  {
    fd in p.table && if fd in p.handling then fd in p.leave else LeavePoll(p, drain).table[fd].pollout
  }

  /** Changes are kept back only while the service thread is inside poll(). */
  predicate QueueOk(p: Poll) {
    !p.insidePoll ==> p.foreign == []
  }

  /** The request is not dropped; and if it has to be kept back, there is memory for it and the drain does not drop
      it. */
  predicate GetsThrough(p: Poll, fd: nat, fate: Fate, drain: seq<Fate>)
    requires |p.foreign| < |drain|
  {
    !Dropped(fate) && (p.insidePoll && fd !in p.handling ==> fate.memory && !Dropped(drain[|p.foreign|]))
  }

  /** However the asking finds the service thread and whatever the drain does, a wake-up is then to come if and only if
      one was already or the request gets through; and nobody else's is lost. */
  lemma AskingWakesIff(p: Poll, fd: nat, fate: Fate, drain: seq<Fate>)
    requires fd in p.table && QueueOk(p) && |p.foreign| < |drain|
    ensures var p' := AskWritable(p, fd, fate);
            && QueueOk(p') && |p'.foreign| <= |drain|
            && (Wakes(p', fd, drain) <==> Wakes(p, fd, drain) || GetsThrough(p, fd, fate, drain))
            && (forall other :: Wakes(p, other, drain) ==> Wakes(p', other, drain))
  {
    var queue := p.foreign + [Change(fd, NONE, POLLOUT)];
    assert queue[..|p.foreign|] == p.foreign;
  }

  /** A request of a connection without a protocol, one that the LOCK_POLL callback refuses, and one that finds no
      memory while the service thread is inside poll(), come to nothing. */
  lemma ARequestCanGoNowhere(drain: seq<Fate>)
    ensures var p := Empty(10, 10).(table := map[3 := POLLIN]);
            var ok := Fate(false, false, true, false, false);
            && !Wakes(AskWritable(p, 3, ok.(unbound := true)), 3, drain)
            && !Wakes(AskWritable(p, 3, ok.(lockFails := true)), 3, drain)
            && !Wakes(AskWritable(p.(insidePoll := true), 3, ok.(memory := false)), 3, drain)
  {
  }

  /** One that is queued then, but dropped on the way out of poll(), comes to nothing too. */
  lemma DroppedByTheDrain(p: Poll, fd: nat, fate: Fate, later: Fate)
    requires p.insidePoll && p.foreign == [] && p.handling == {} && fd in p.table && !p.table[fd].pollout
    requires !Dropped(fate) && fate.memory && Dropped(later)
    ensures AskWritable(p, fd, fate).foreign == [Change(fd, NONE, POLLOUT)]
    ensures LeavePoll(AskWritable(p, fd, fate), [later]).table == p.table
  {
    var queue := [Change(fd, NONE, POLLOUT)];
    assert [] + queue == queue && queue[..0] == [];
    assert ApplyAll(p.table, queue, [later]) == Apply(ApplyAll(p.table, [], [later]), queue[0], later);
  }

  lemma AQueuedRequestCanBeDropped()
    ensures var ok := Fate(false, false, true, false, false);
            var p := AskWritable(Empty(10, 10).(table := map[3 := POLLIN], insidePoll := true), 3, ok);
            && p.foreign == [Change(3, NONE, POLLOUT)]
            && LeavePoll(p, [ok.(lockFails := true)]).table == map[3 := POLLIN]
  {
    var ok := Fate(false, false, true, false, false);
    DroppedByTheDrain(Empty(10, 10).(table := map[3 := POLLIN], insidePoll := true), 3, ok, ok.(lockFails := true));
  }

  // ----- accepting connections only while there is room -----

  /** Every listener is polled for connections exactly while at least one more descriptor than the one
      kept back fits. */
  ghost predicate Gated(p: Poll) {
    forall fd :: fd in p.listeners && fd in p.table ==> (p.table[fd].pollin <==> |p.table| < p.limit - 1)
  }

  datatype Event =
    | Inserts(fd: nat)          // a connection is registered
    | Removes(fd: nat)          // a descriptor is removed
    | Listens(fd: nat)          // a listening socket is registered, then made its vhost's lserv_wsi
    | Unlistens(fd: nat)        // a vhost gives up its lserv_wsi
    | Asks(fd: nat, fate: Fate)           // lws_callback_on_writable()
    | ClearsPollout(fd: nat, fate: Fate)  // the one-shot writable request is used up
    | Handles(fd: nat)          // a writable event is handled ...
    | Unhandles(fd: nat)        // ... and no longer
    | Forgets(fd: nat)          // leave_pollout_active is cleared

  /** Everything here happens outside poll(); a descriptor is registered once at a time. */
  predicate Possible(p: Poll, e: Event) {
    && !p.insidePoll
    && (e.Inserts? || e.Listens? ==> e.fd !in p.table && e.fd !in p.listeners)
  }

  function Step(p: Poll, e: Event): (p': Poll) {
    match e
    case Inserts(fd) => Insert(p, fd)
    case Removes(fd) => Remove(p, fd, false)
    case Listens(fd) => if Refuses(p, fd) then p else Insert(p, fd).(listeners := p.listeners + {fd})
    case Unlistens(fd) => p.(listeners := p.listeners - {fd})
    case Asks(fd, fate) => AskWritable(p, fd, fate)
    case ClearsPollout(fd, fate) => TryChange(p, fd, POLLOUT, NONE, fate)
    case Handles(fd) => BeginHandling(p, fd)
    case Unhandles(fd) => EndHandling(p, fd)
    case Forgets(fd) => ForgetLeave(p, fd)
  }

  /** A new listener finds room for itself and at least one connection beside the one kept back. */
  predicate EntersWithRoom(p: Poll) {
    |p.table| + 1 < p.limit - 1
  }

  lemma ModulatedGates(p: Poll, allow: bool)
    requires allow <==> |p.table| < p.limit - 1
    ensures Gated(Modulated(p, allow))
  {
    assert Modulated(p, allow).table.Keys == p.table.Keys;
    assert |Modulated(p, allow).table| == |p.table|;
  }

  /** The table counts distinct descriptors. */
  lemma TableSize(table: map<nat, Events>, fd: nat, events: Events)
    ensures fd !in table ==> |table[fd := events]| == |table| + 1
    ensures fd in table ==> |table[fd := events]| == |table|
    ensures fd in table ==> |table - {fd}| == |table| - 1
    ensures fd !in table ==> table - {fd} == table
  {
    assert table[fd := events].Keys == table.Keys + {fd};
    assert (table - {fd}).Keys == table.Keys - {fd};
  }

  lemma InsertKeepsGated(p: Poll, fd: nat)
    requires Gated(p) && fd !in p.table && fd !in p.listeners
    ensures Gated(Insert(p, fd))
  {
    if !Refuses(p, fd) {
      TableSize(p.table, fd, POLLIN);
      var p1 := p.(table := p.table[fd := POLLIN]);
      if |p1.table| == p1.limit - 1 {
        ModulatedGates(p1, false);
      }
    }
  }

  lemma RemoveKeepsGated(p: Poll, fd: nat)
    requires Gated(p) && |p.table| <= p.limit
    ensures Gated(Remove(p, fd, false))
  {
    TableSize(p.table, fd, NONE);
    var p1 := Deleted(p, fd);
    if |p1.table| < p1.limit - 1 {
      ModulatedGates(p1, true);
    }
  }

  /** Registering a listener keeps the gating if and only if it finds room: one that does not is left
      polling for connections although there is none. */
  lemma ListeningKeepsGatedIffThereIsRoom(p: Poll, fd: nat)
    requires Gated(p) && fd !in p.table && fd !in p.listeners && !Refuses(p, fd)
    ensures Gated(Step(p, Listens(fd))) <==> EntersWithRoom(p)
  {
    InsertKeepsGated(p, fd);
    TableSize(p.table, fd, POLLIN);
    var p1 := p.(table := p.table[fd := POLLIN]);
    var p2 := Insert(p, fd);
    assert p2.table.Keys == p1.table.Keys;
    assert |p2.table| == |p1.table|;
    assert p2.table[fd].pollin;
    var p3 := Step(p, Listens(fd));
    assert fd in p3.listeners && fd in p3.table;
  }

  /** In a table of two, the first listener finds no room for a connection, and is polled for one all the same. */
  lemma AListenerCanComeTooLate()
    ensures var p := Step(Empty(2, 10), Listens(3));
            3 in p.listeners && p.table == map[3 := POLLIN] && p.limit == 2 && !Gated(p)
  {
    var p := Step(Empty(2, 10), Listens(3));
    assert p.table.Keys == {3};
    assert p.table == map[3 := POLLIN];
    assert p.table[3].pollin;
  }

  lemma InsertedSize(p: Poll, fd: nat)
    requires |p.table| <= p.limit
    ensures |Insert(p, fd).table| <= p.limit
    ensures |Remove(p, fd, false).table| <= p.limit
  {
    TableSize(p.table, fd, POLLIN);
    var p1 := p.(table := p.table[fd := POLLIN]);
    assert Modulated(p1, false).table.Keys == p1.table.Keys;
    var p2 := Deleted(p, fd);
    assert Modulated(p2, true).table.Keys == p2.table.Keys;
    assert |Modulated(p1, false).table| == |p1.table| && |Modulated(p2, true).table| == |p2.table|;
  }

  ghost predicate Inv(p: Poll) {
    Gated(p) && |p.table| <= p.limit
  }

  /** No change of POLLOUT touches the gating. */
  lemma ChangeKeepsInv(p: Poll, fd: nat, clear: Events, add: Events, fate: Fate)
    requires Inv(p) && !clear.pollin && !add.pollin
    ensures Inv(TryChange(p, fd, clear, add, fate))
  {
    if fd in p.table {
      TableSize(p.table, fd, Masked(p.table[fd], clear, add));
    }
  }

  lemma InsertKeepsInv(p: Poll, fd: nat)
    requires Inv(p) && fd !in p.table && fd !in p.listeners
    ensures Inv(Insert(p, fd))
  {
    InsertedSize(p, fd);
    InsertKeepsGated(p, fd);
    assert Insert(p, fd).limit == p.limit;
  }

  lemma RemoveKeepsInv(p: Poll, fd: nat)
    requires Inv(p)
    ensures Inv(Remove(p, fd, false))
  {
    InsertedSize(p, fd);
    RemoveKeepsGated(p, fd);
    assert Remove(p, fd, false).limit == p.limit;
  }

  lemma ListensKeepsInv(p: Poll, fd: nat)
    requires Inv(p) && Possible(p, Listens(fd)) && (!Refuses(p, fd) ==> EntersWithRoom(p))
    ensures Inv(Step(p, Listens(fd)))
  {
    InsertedSize(p, fd);
    if !Refuses(p, fd) {
      ListeningKeepsGatedIffThereIsRoom(p, fd);
    }
  }

  lemma StepKeepsGated(p: Poll, e: Event)
    requires Inv(p) && Possible(p, e) && (e.Listens? && !Refuses(p, e.fd) ==> EntersWithRoom(p))
    ensures Inv(Step(p, e))
  {
    match e
    case Inserts(fd) => InsertKeepsInv(p, fd);
    case Removes(fd) => RemoveKeepsInv(p, fd);
    case Listens(fd) => ListensKeepsInv(p, fd);
    case Asks(fd, fate) => ChangeKeepsInv(p, fd, NONE, POLLOUT, fate);
    case ClearsPollout(fd, fate) => ChangeKeepsInv(p, fd, POLLOUT, NONE, fate);
    case _ =>
  }

  predicate CanRun(p: Poll, events: seq<Event>)
    decreases |events|
  {
    events == [] || (Possible(p, events[0]) && CanRun(Step(p, events[0]), events[1..]))
  }

  function Run(p: Poll, events: seq<Event>): (p': Poll)
    requires CanRun(p, events)
    decreases |events|
  {
    if events == [] then p else Run(Step(p, events[0]), events[1..])
  }

  /** Every listener of the run that gets in finds room. */
  predicate ListenersFindRoom(p: Poll, events: seq<Event>)
    requires CanRun(p, events)
    decreases |events|
  {
    events == [] ||
    ((events[0].Listens? && !Refuses(p, events[0].fd) ==> EntersWithRoom(p)) &&
     ListenersFindRoom(Step(p, events[0]), events[1..]))
  }

  lemma {:induction false} RunKeepsInv(p: Poll, events: seq<Event>)
    requires Inv(p) && CanRun(p, events) && ListenersFindRoom(p, events)
    ensures Inv(Run(p, events))
    decreases |events|
  {
    if events != [] {
      StepKeepsGated(p, events[0]);
      RunKeepsInv(Step(p, events[0]), events[1..]);
    }
  }

  function Empty(limit: nat, maxFds: nat): (p: Poll) {
    Poll(map[], {}, {}, {}, limit, maxFds, false, [])
  }

  /** Over every run of registrations and removals outside poll() and teardown, whatever the limit: a
      listener that found room when it came is accepting exactly while the table is below limit - 1. */
  lemma ListenersAcceptExactlyWhileThereIsRoom(limit: nat, maxFds: nat, events: seq<Event>, listener: nat)
    requires CanRun(Empty(limit, maxFds), events) && ListenersFindRoom(Empty(limit, maxFds), events)
    requires var p := Run(Empty(limit, maxFds), events); listener in p.listeners && listener in p.table
    ensures var p := Run(Empty(limit, maxFds), events);
            p.table[listener].pollin <==> |p.table| < p.limit - 1
  {
    RunKeepsInv(Empty(limit, maxFds), events);
  }

  // ----- who is registered, from the events alone -----

  /** Only listeners' interest in connections is touched; everybody else's events stay as they are. */
  ghost predicate OthersKept(p: Poll, p': Poll, fd: nat) {
    forall other :: other in p.table && other != fd ==>
      && other in p'.table
      && p'.table[other].pollout == p.table[other].pollout
      && (other !in p.listeners ==> p'.table[other] == p.table[other])
  }

  /** A descriptor gets in if and only if there is room below the limit and it is below the largest there can be; it
      is then polled for input, and nobody else comes or goes. */
  lemma InsertGetsInIff(p: Poll, fd: nat)
    requires fd !in p.table && fd !in p.listeners
    ensures var p' := Insert(p, fd);
            && (fd in p'.table <==> |p.table| < p.limit && fd < p.maxFds)
            && (fd in p'.table ==> p'.table.Keys == p.table.Keys + {fd} && p'.table[fd] == POLLIN)
            && (fd !in p'.table ==> p' == p)
            && OthersKept(p, p', fd)
  {
    if !Refuses(p, fd) {
      var p1 := p.(table := p.table[fd := POLLIN]);
      assert p1.table.Keys == p.table.Keys + {fd};
      assert Modulated(p1, false).table.Keys == p1.table.Keys;
    }
  }

  /** A removal takes out exactly the one descriptor, unless that is above the largest there can be. */
  lemma RemoveTakesOutOne(p: Poll, fd: nat, beingDestroyed: bool)
    ensures var p' := Remove(p, fd, beingDestroyed);
            && p'.table.Keys == (if fd <= p.maxFds then p.table.Keys - {fd} else p.table.Keys)
            && OthersKept(p, p', fd)
  {
    var p1 := Deleted(p, fd);
    assert p1.table.Keys == p.table.Keys - {fd};
    assert Modulated(p1, true).table.Keys == p1.table.Keys;
  }

  function Registered(fds: set<nat>, limit: nat, maxFds: nat, e: Event): (fds': set<nat>) {
    match e
    case Inserts(fd) => if |fds| < limit && fd < maxFds then fds + {fd} else fds
    case Listens(fd) => if |fds| < limit && fd < maxFds then fds + {fd} else fds
    case Removes(fd) => if fd <= maxFds then fds - {fd} else fds
    case _ => fds
  }

  function AllRegistered(fds: set<nat>, limit: nat, maxFds: nat, events: seq<Event>): (fds': set<nat>)
    decreases |events|
  {
    if events == [] then fds else AllRegistered(Registered(fds, limit, maxFds, events[0]), limit, maxFds, events[1..])
  }

  lemma InsertRegisters(p: Poll, fd: nat)
    requires fd !in p.table && fd !in p.listeners
    ensures Insert(p, fd).table.Keys == Registered(p.table.Keys, p.limit, p.maxFds, Inserts(fd))
  {
    assert |p.table.Keys| == |p.table|;
    InsertGetsInIff(p, fd);
  }

  lemma StepKeepsLimits(p: Poll, e: Event)
    ensures Step(p, e).limit == p.limit && Step(p, e).maxFds == p.maxFds
  {
  }

  lemma ChangeRegistersNobody(p: Poll, fd: nat, clear: Events, add: Events, fate: Fate)
    ensures TryChange(p, fd, clear, add, fate).table.Keys == p.table.Keys
  {
    if fd in p.table {
      assert p.table[fd := Masked(p.table[fd], clear, add)].Keys == p.table.Keys;
    }
  }

  lemma StepRegisters(p: Poll, e: Event)
    requires Possible(p, e)
    ensures Step(p, e).table.Keys == Registered(p.table.Keys, p.limit, p.maxFds, e)
  {
    match e
    case Inserts(fd) => InsertRegisters(p, fd);
    case Listens(fd) => InsertRegisters(p, fd);
    case Removes(fd) => RemoveTakesOutOne(p, fd, false);
    case Asks(fd, fate) => ChangeRegistersNobody(p, fd, NONE, POLLOUT, fate);
    case ClearsPollout(fd, fate) => ChangeRegistersNobody(p, fd, POLLOUT, NONE, fate);
    case _ =>
  }

  /** Over every run the table holds exactly the descriptors that got in and have not been removed. */
  lemma {:induction false} TheTableIsWhoGotIn(p: Poll, events: seq<Event>)
    requires CanRun(p, events)
    ensures Run(p, events).table.Keys == AllRegistered(p.table.Keys, p.limit, p.maxFds, events)
    decreases |events|
  {
    if events != [] {
      StepRegisters(p, events[0]);
      StepKeepsLimits(p, events[0]);
      TheTableIsWhoGotIn(Step(p, events[0]), events[1..]);
    }
  }
}
