/** Writable events on one connection: lws_handle_POLLOUT_event() of `lib/core/service.c`, statement by
    statement, with sends on the connection's own thread and with other threads calling
    lws_callback_on_writable() at any moment.  Those other threads are not locked out: each first looks
    at handling_pollout, then at whether the service thread is inside poll(), and only later does what it decided
    on.  The connection has a protocol, as lws_issue_raw() takes for granted. */
module Pollout {
  import opened Basics
  import opened Output
  import PollSpec

  /** Where the service thread is.  Between Handling and Callback it goes by one of two ways: a backlog
      is drained, or the one-shot POLLOUT is used up and the user called back. */
  datatype Phase =
    | Idle          // in the event loop
    | Entered       // leave_pollout_active cleared
    | Handling      // handling_pollout set
    | Bailing       // on the way out by bail_ok, with POLLOUT as it was
    | Letting       // ... and handling_pollout cleared again
    | Sampled       // leave_pollout_active sampled
    | Shot          // POLLOUT disabled, unless the sample said not to
    | Unhandled     // handling_pollout cleared
    | Rechecked     // POLLOUT put back if leave_pollout_active turned up meanwhile
    | Ready         // leave_pollout_active cleared
    | Callback      // in the user's writable callback
    | Dead          // the connection is to be closed

  /** `owed` is set when somebody asks for a writable callback and cleared when one is given.
      `deciding` and `deciding'` count the other threads that have looked at handling_pollout, found it
      clear or set, and have yet to go on; `direct` those of the first that have also found the service thread outside
      poll() and are about to set POLLOUT.  `inPoll` is inside_poll, and `queued` the requests that are on the foreign
      change list.  A request that fails before it is on its way, because of its LOCK_POLL callback or for lack of
      memory, is reported to whoever made it, and is no step here; but lws_issue_raw() does not look at the report, and
      a queued request that is refused on the way out of poll() is reported to nobody. */
  datatype State = State(conn: Conn, phase: Phase, pollout: bool, handling: bool, leave: bool, eff: bool,
                         owed: bool, deciding: nat, deciding': nat, direct: nat, inPoll: bool, queued: nat)

  /** lws_callback_on_writable() on the service thread itself */
  function Ask(s: State): (s': State) {
    if s.handling then s.(leave := true, owed := true) else s.(pollout := true, owed := true)
  }

  /** lws_issue_raw() and what its caller does next; `through` is whether the request for a callback, if it makes
      one, gets through. */
  function Send(s: State, buf: Option<seq<byte>>, env: Env, through: bool, next: Phase): (s': State) {
    Sent(s, Issue(s.conn, buf, env), through, next)
  }

  function Sent(s: State, r: Issued, through: bool, next: Phase): (s': State) {
    if r.ret < 0 then s.(conn := r.conn, phase := Dead)
    else
      var s1 := s.(conn := r.conn, phase := next);
      if r.asks && through then Ask(s1) else s1
  }

  datatype Action =
    | AppWrite(buf: seq<byte>, env: Env, through: bool)  // from any other callback
    | AppAsk
    | BeginFlush
    | EnterPoll
    | LeavePoll
    | DrainOne(refused: bool)      // a queued request is tried again
    | Enter
    | SetHandling
    | DrainBacklog(env: Env, through: bool)
    | GiveUp                       // a flush is done
    | RoleBails(dies: bool)        // the role has no handle_POLLOUT(), or it says to bail
    | LetGo
    | ForgetLeave
    | Sample
    | Disable(fails: bool)
    | ClearHandling
    | Recheck(fails: bool)
    | ClearLeave
    | HandshakeBails               // a client that is still handshaking has no callback yet
    | CallUser
    | UserReturns(dies: bool, through: bool)
    | OtherLooks
    | OtherFindsOutside
    | OtherSetsPollout
    | OtherQueues
    | OtherSetsLeave

  /** The service thread is in the event loop, out of poll() and done with what was queued. */
  predicate InTheLoop(s: State) {
    s.phase == Idle && !s.inPoll && s.queued == 0
  }

  predicate Enabled(s: State, a: Action) {
    match a
    case AppWrite(buf, _, _) => (InTheLoop(s) || s.phase == Callback) && Output.Sendable(s.conn, buf)
    case AppAsk => InTheLoop(s) || s.phase == Callback
    case BeginFlush => InTheLoop(s)
    case EnterPoll => InTheLoop(s)
    case LeavePoll => s.phase == Idle && s.inPoll
    case DrainOne(_) => s.phase == Idle && !s.inPoll && s.queued > 0
    case Enter => InTheLoop(s) && s.pollout
    case SetHandling => s.phase == Entered
    case DrainBacklog(_, _) => s.phase == Handling && s.conn.segs != []
    case GiveUp => s.phase == Handling && s.conn.segs == [] && s.conn.flushing
    case RoleBails(_) => s.phase == Handling && s.conn.segs == [] && !s.conn.flushing
    case LetGo => s.phase == Bailing
    case ForgetLeave => s.phase == Letting
    case Sample => s.phase == Handling && s.conn.segs == [] && !s.conn.flushing
    case Disable(fails) => s.phase == Sampled && (fails ==> !s.eff)
    case ClearHandling => s.phase == Shot
    case Recheck(fails) => s.phase == Unhandled && (fails ==> !s.eff && s.leave)
    case ClearLeave => s.phase == Rechecked
    case HandshakeBails => s.phase == Ready
    case CallUser => s.phase == Ready
    case UserReturns(_, _) => s.phase == Callback
    case OtherLooks => s.phase != Dead
    case OtherFindsOutside => s.phase != Dead && s.deciding > 0 && !s.inPoll
    case OtherSetsPollout => s.phase != Dead && s.direct > 0
    case OtherQueues => s.phase != Dead && s.deciding > 0 && s.inPoll
    case OtherSetsLeave => s.phase != Dead && s.deciding' > 0
  }

  function Do(s: State, a: Action): (s': State)
    requires Enabled(s, a)
  {
    match a
    case AppWrite(buf, env, through) => Send(s, Some(buf), env, through, s.phase)
    case AppAsk => Ask(s)
    case BeginFlush => s.(conn := s.conn.(flushing := true))
    case EnterPoll => s.(inPoll := true)
    case LeavePoll => s.(inPoll := false)
    case DrainOne(refused) => s.(queued := s.queued - 1, pollout := s.pollout || !refused)
    case Enter => s.(phase := Entered, leave := false)
    case SetHandling => s.(phase := Handling, handling := true)
    case DrainBacklog(env, through) => Send(s, None, env, through, Bailing)
    case GiveUp => s.(phase := Dead)
    case RoleBails(dies) => s.(phase := if dies then Dead else Bailing)
    case LetGo => s.(phase := Letting, handling := false)
    case ForgetLeave => s.(phase := Idle, leave := false)
    case Sample => s.(phase := Sampled, eff := s.leave)
    case Disable(fails) => if fails then s.(phase := Dead) else s.(phase := Shot, pollout := s.pollout && s.eff)
    case ClearHandling => s.(phase := Unhandled, handling := false)
    case Recheck(fails) =>
      if fails then s.(phase := Dead) else s.(phase := Rechecked, pollout := s.pollout || (!s.eff && s.leave))
    case ClearLeave => s.(phase := Ready, leave := false)
    case HandshakeBails => s.(phase := Idle, leave := false)
    case CallUser => s.(phase := Callback, owed := false)
    case UserReturns(dies, through) => s.(phase := if dies then Dead else Idle, pollout := s.pollout || (s.leave && through))
    case OtherLooks =>
      if s.handling then s.(owed := true, deciding' := s.deciding' + 1) else s.(owed := true, deciding := s.deciding + 1)
    case OtherFindsOutside => s.(deciding := s.deciding - 1, direct := s.direct + 1)
    case OtherSetsPollout => s.(pollout := true, direct := s.direct - 1)
    case OtherQueues => s.(deciding := s.deciding - 1, queued := s.queued + 1)
    case OtherSetsLeave => s.(leave := true, deciding' := s.deciding' - 1)
  }

  // ----- what is not to be lost -----

  /** The service thread has used POLLOUT up and is on its way to the user's callback. */
  predicate CallbackIsComing(s: State) {
    s.phase in {Shot, Unhandled, Rechecked, Ready}
  }

  /** Somebody is about to enable POLLOUT or to queue that, or has it queued. */
  predicate OnItsWay(s: State) {
    s.deciding > 0 || s.direct > 0 || s.queued > 0
  }

  /** A live connection that has a backlog has POLLOUT enabled, and a writable callback that has been asked for by
      anyone is still to come: POLLOUT is enabled, or that is on its way, or the service thread is past using it up and
      about to call back. */
  predicate Awake(s: State) {
    s.phase != Dead ==>
      && (s.conn.segs != [] ==> s.pollout)
      && (s.owed ==> s.pollout || OnItsWay(s) || CallbackIsComing(s))
  }

  ghost predicate Inv(s: State) {
    && Awake(s)
    && (s.phase != Dead ==>
          && Output.Inv(s.conn) && !s.conn.unusable
          && (s.inPoll || s.queued > 0 ==> s.phase == Idle)
          && (s.handling <==> s.phase in {Handling, Bailing, Sampled, Shot})
          && (s.phase in {Entered, Handling, Bailing, Letting, Sampled} ==> s.pollout)
          && (CallbackIsComing(s) || s.phase == Sampled ==> s.conn.segs == []))
  }

  /** A send that starts a backlog: the socket takes only part of the buffer, and the rest has a segment. */
  predicate StartsBacklog(c: Conn, buf: seq<byte>, env: Env) {
    c.segs == [] && !c.flushing && env.sock != Fails && env.memory && TakenOf(buf, env) < |buf|
  }

  /** The three ways to lose a wake-up: the request that goes with a new backlog fails, and lws_issue_raw() does not
      notice; a client is still handshaking when a callback that was asked for falls due; or the last request there is
      was queued, and is refused on the way out of poll(). */
  predicate Loses(s: State, a: Action) {
    match a
    case AppWrite(buf, env, through) => !through && !s.pollout && StartsBacklog(s.conn, buf, env)
    case HandshakeBails => s.owed && !s.pollout && s.deciding == 0 && s.direct == 0
    case DrainOne(refused) =>
      refused && s.owed && !s.pollout && s.queued == 1 && s.deciding == 0 && s.direct == 0
    case _ => false
  }

  lemma StartsBacklogIff(c: Conn, buf: seq<byte>, env: Env)
    requires c.segs == [] && !c.unusable
    ensures var r := Issue(c, Some(buf), env);
            r.ret >= 0 && r.conn.segs != [] <==> StartsBacklog(c, buf, env)
  {
  }

  /** Whatever the send did: all is well if it leaves no backlog, or POLLOUT was on, or the request gets through. */
  lemma SentLosesIff(s: State, r: Issued, through: bool, next: Phase)
    requires Inv(s) && s.phase != Dead
    requires (s.phase == next && next in {Idle, Callback}) || (s.phase == Handling && next == Bailing)
    requires r.ret >= 0 ==> Output.Inv(r.conn) && !r.conn.unusable && (r.conn.segs != [] ==> r.asks)
    ensures var s' := Sent(s, r, through, next);
            var loses := r.ret >= 0 && r.conn.segs != [] && !through && !s.pollout;
            (loses ==> !Awake(s')) && (!loses ==> Inv(s'))
  {
  }

  lemma SendLosesIff(s: State, buf: Option<seq<byte>>, env: Env, through: bool, next: Phase)
    requires Inv(s) && s.phase != Dead && (buf.Some? ==> Output.Sendable(s.conn, buf.value))
    requires (s.phase == next && next in {Idle, Callback}) || (s.phase == Handling && next == Bailing)
    ensures var s' := Send(s, buf, env, through, next);
            var loses := buf.Some? && !through && !s.pollout && StartsBacklog(s.conn, buf.value, env);
            (loses ==> !Awake(s')) && (!loses ==> Inv(s'))
  {
    IssueRawKeepsStream(s.conn, buf, env);
    SentLosesIff(s, Issue(s.conn, buf, env), through, next);
    if s.conn.segs == [] && buf.Some? {
      StartsBacklogIff(s.conn, buf.value, env);
    }
  }

  /** An action keeps the wake-ups if and only if it is not one of the three. */
  lemma ActionLosesIff(s: State, a: Action)
    requires Inv(s) && Enabled(s, a)
    ensures if Loses(s, a) then !Awake(Do(s, a)) else Inv(Do(s, a))
  {
    match a
    case AppWrite(buf, env, through) => SendLosesIff(s, Some(buf), env, through, s.phase);
    case DrainBacklog(env, through) => SendLosesIff(s, None, env, through, Bailing);
    case _ =>
  }

  /** A request makes a callback owed, and only a callback settles it. */
  lemma OnlyACallbackSettles(s: State, a: Action)
    requires Enabled(s, a)
    ensures a.AppAsk? || a.OtherLooks? ==> Do(s, a).owed
    ensures s.owed ==> (Do(s, a).owed <==> !a.CallUser?)
    ensures a.CallUser? ==> Do(s, a).phase == Callback
  {
  }

  // ----- runs -----

  predicate CanRun(s: State, actions: seq<Action>)
    decreases |actions|
  {
    actions == [] || (Enabled(s, actions[0]) && CanRun(Do(s, actions[0]), actions[1..]))
  }

  /** Wake-ups are kept at every moment of the run. */
  predicate AlwaysAwake(s: State, actions: seq<Action>)
    requires CanRun(s, actions)
    decreases |actions|
  {
    Awake(s) && (actions != [] ==> AlwaysAwake(Do(s, actions[0]), actions[1..]))
  }

  predicate NoneLoses(s: State, actions: seq<Action>)
    requires CanRun(s, actions)
    decreases |actions|
  {
    actions != [] ==> !Loses(s, actions[0]) && NoneLoses(Do(s, actions[0]), actions[1..])
  }

  lemma {:induction false} RunLosesIff(s: State, actions: seq<Action>)
    requires Inv(s) && CanRun(s, actions)
    ensures AlwaysAwake(s, actions) <==> NoneLoses(s, actions)
    decreases |actions|
  {
    if actions == [] {
    } else {
      ActionLosesIff(s, actions[0]);
      if !Loses(s, actions[0]) {
        RunLosesIff(Do(s, actions[0]), actions[1..]);
      }
    }
  }

  const Start := State(Fresh, Idle, false, false, false, false, false, 0, 0, 0, false, 0)

  /** In every interleaving no wake-up is ever lost, if and only if no request that goes with a new backlog fails,
      no client is still handshaking when a callback falls due, and no last queued request is refused. */
  lemma NoWakeUpIsLostIff(actions: seq<Action>)
    ensures CanRun(Start, actions) ==> (AlwaysAwake(Start, actions) <==> NoneLoses(Start, actions))
  {
    if CanRun(Start, actions) {
      RunLosesIff(Start, actions);
    }
  }

  /** One send that the socket takes nothing of, with its request failing: there is a backlog and nothing that will
      ever send it. */
  lemma AFailedRequestStrandsABacklog()
    ensures var a := AppWrite([0], Env(Sizes(1, 0, 0), Later, false, true), false);
            && Enabled(Start, a)
            && var s := Do(Start, a);
               InTheLoop(s) && s.conn.segs == [Segment([0], 0)] && !s.pollout && !OnItsWay(s)
  {
    assert [0 as byte][0..] == [0];
  }

  /** A run that loses a wake-up */
  predicate Losing(s: State, actions: seq<Action>) {
    CanRun(s, actions) && !NoneLoses(s, actions)
  }

  lemma Last(s: State, a: Action)
    requires Enabled(s, a) && Loses(s, a)
    ensures Losing(s, [a])
  {
    assert [a][1..] == [];
  }

  lemma Prepend(s: State, a: Action, s': State, rest: seq<Action>)
    requires Enabled(s, a) && Do(s, a) == s' && Losing(s', rest)
    ensures Losing(s, [a] + rest)
  {
    assert ([a] + rest)[1..] == rest;
  }

  /** With POLLOUT used up and a callback asked for */
  lemma ReadyForNothing(ready: State) returns (actions: seq<Action>)
    requires ready == Ask(Start).(phase := Ready, pollout := false)
    ensures Losing(ready.(phase := Unhandled), actions)
  {
    actions := [HandshakeBails];
    Last(ready, HandshakeBails);
    Prepend(ready.(phase := Rechecked), ClearLeave, ready, actions);
    actions := [ClearLeave] + actions;
    Prepend(ready.(phase := Unhandled), Recheck(false), ready.(phase := Rechecked), actions);
    actions := [Recheck(false)] + actions;
  }

  /** From the sample on */
  lemma ShotForNothing(asked: State) returns (actions: seq<Action>)
    requires asked == Ask(Start)
    ensures Losing(asked.(phase := Sampled, handling := true), actions)
  {
    var unhandled := asked.(phase := Unhandled, pollout := false);
    var shot := unhandled.(phase := Shot, handling := true);
    actions := ReadyForNothing(unhandled.(phase := Ready));
    Prepend(shot, ClearHandling, unhandled, actions);
    actions := [ClearHandling] + actions;
    Prepend(asked.(phase := Sampled, handling := true), Disable(false), shot, actions);
    actions := [Disable(false)] + actions;
  }

  /** From the request on */
  lemma AskedForNothing(asked: State) returns (actions: seq<Action>)
    requires asked == Ask(Start)
    ensures Losing(asked, actions)
  {
    var handling := asked.(phase := Handling, handling := true);
    actions := ShotForNothing(asked);
    Prepend(handling, Sample, asked.(phase := Sampled, handling := true), actions);
    actions := [Sample] + actions;
    Prepend(asked.(phase := Entered), SetHandling, handling, actions);
    actions := [SetHandling] + actions;
    Prepend(asked, Enter, asked.(phase := Entered), actions);
    actions := [Enter] + actions;
  }

  /** A client asks for a callback while it is handshaking, and the writable event uses its POLLOUT up for nothing. */
  lemma AHandshakeDropsACallback() returns (actions: seq<Action>)
    ensures CanRun(Start, actions) && !AlwaysAwake(Start, actions)
  {
    actions := AskedForNothing(Ask(Start));
    Prepend(Start, AppAsk, Ask(Start), actions);
    actions := [AppAsk] + actions;
    NoWakeUpIsLostIff(actions);
  }

  /** From the queued request on */
  lemma QueuedForNothing(waiting: State) returns (actions: seq<Action>)
    requires waiting == Start.(owed := true, queued := 1)
    ensures Losing(waiting.(inPoll := true), actions)
  {
    actions := [DrainOne(true)];
    Last(waiting, DrainOne(true));
    Prepend(waiting.(inPoll := true), LeavePoll, waiting, actions);
    actions := [LeavePoll] + actions;
  }

  /** Another thread's request is accepted and queued while the service thread is inside poll(), and then refused. */
  lemma ARefusedDrainDropsACallback() returns (actions: seq<Action>)
    ensures CanRun(Start, actions) && !AlwaysAwake(Start, actions)
  {
    var asleep := Start.(inPoll := true);
    var looking := asleep.(owed := true, deciding := 1);
    actions := QueuedForNothing(Start.(owed := true, queued := 1));
    Prepend(looking, OtherQueues, asleep.(owed := true, queued := 1), actions);
    actions := [OtherQueues] + actions;
    Prepend(asleep, OtherLooks, looking, actions);
    actions := [OtherLooks] + actions;
    Prepend(Start, EnterPoll, asleep, actions);
    actions := [EnterPoll] + actions;
    NoWakeUpIsLostIff(actions);
  }

  // ----- the same in the poll table -----

  /** Requests for POLLOUT on a descriptor, as the foreign change list has them */
  function Queue(fd: nat, n: nat): (changes: seq<PollSpec.Change>) {
    if n == 0 then [] else [PollSpec.Change(fd, PollSpec.NONE, PollSpec.POLLOUT)] + Queue(fd, n - 1)
  }

  /** What the poll table has for the connection's descriptor, with nothing else on the change list */
  predicate Shows(s: State, p: PollSpec.Poll, fd: nat) {
    && fd in p.table && p.table[fd].pollout == s.pollout
    && (fd in p.handling <==> s.handling) && (fd in p.leave <==> s.leave)
    && p.insidePoll == s.inPoll && p.foreign == Queue(fd, s.queued)
  }

  /** Nothing goes wrong with a change. */
  const SMOOTH := PollSpec.Fate(false, false, true, false, false)

  function AskedIf(asks: bool, p: PollSpec.Poll, fd: nat): (p': PollSpec.Poll) {
    if asks then PollSpec.AskWritable(p, fd, SMOOTH) else p
  }

  /** What an action of the service thread does to the poll table */
  function Effect(s: State, a: Action, p: PollSpec.Poll, fd: nat): (p': PollSpec.Poll)
    requires Enabled(s, a) && Shows(s, p, fd)
  {
    match a
    case AppWrite(buf, env, through) => AskedIf(Issue(s.conn, Some(buf), env).asks && through, p, fd)
    case DrainBacklog(env, through) => AskedIf(Issue(s.conn, None, env).asks && through, p, fd)
    case AppAsk => AskedIf(true, p, fd)
    case EnterPoll => p.(insidePoll := true)
    case LeavePoll => p.(insidePoll := false)
    case DrainOne(refused) =>
      p.(foreign := p.foreign[1..], table := PollSpec.Apply(p.table, p.foreign[0], SMOOTH.(lockFails := refused)))
    case Enter => PollSpec.ForgetLeave(p, fd)
    case SetHandling => p.(handling := p.handling + {fd})
    case LetGo => PollSpec.EndHandling(p, fd)
    case ClearHandling => PollSpec.EndHandling(p, fd)
    case ForgetLeave => PollSpec.ForgetLeave(p, fd)
    case ClearLeave => PollSpec.ForgetLeave(p, fd)
    case HandshakeBails => PollSpec.ForgetLeave(p, fd)
    case Disable(_) => if s.eff then p else PollSpec.TryChange(p, fd, PollSpec.POLLOUT, PollSpec.NONE, SMOOTH)
    case Recheck(_) => AskedIf(!s.eff && s.leave, p, fd)
    case UserReturns(_, through) => AskedIf(s.leave && through, p, fd)
    case _ => OtherEffect(s, a, p, fd)
  }

  /** ... and one of another thread, which sets POLLOUT or leave_pollout_active as it decided to, whatever has become of
      handling_pollout and inside_poll since */
  function OtherEffect(s: State, a: Action, p: PollSpec.Poll, fd: nat): (p': PollSpec.Poll)
    requires Shows(s, p, fd)
  {
    match a
    case OtherQueues => AskedIf(true, p, fd)
    case OtherSetsPollout =>
      p.(table := p.table[fd := PollSpec.Masked(p.table[fd], PollSpec.NONE, PollSpec.POLLOUT)])
    case OtherSetsLeave => p.(leave := p.leave + {fd})
    case _ => p
  }

  lemma {:induction false} QueueOneMore(fd: nat, n: nat)
    ensures Queue(fd, n) + [PollSpec.Change(fd, PollSpec.NONE, PollSpec.POLLOUT)] == Queue(fd, n + 1)
  {
    if n > 0 {
      QueueOneMore(fd, n - 1);
    }
  }

  /** Outside poll() the service thread's own request is lws_callback_on_writable() on the table. */
  lemma AskShows(s: State, p: PollSpec.Poll, fd: nat)
    requires Shows(s, p, fd) && !s.inPoll
    ensures Shows(Ask(s), AskedIf(true, p, fd), fd)
  {
  }

  lemma SentShows(s: State, r: Issued, through: bool, next: Phase, p: PollSpec.Poll, fd: nat)
    requires Shows(s, p, fd) && !s.inPoll && r.ret >= 0
    ensures Shows(Sent(s, r, through, next), AskedIf(r.asks && through, p, fd), fd)
  {
    AskShows(s.(conn := r.conn, phase := next), p, fd);
  }

  lemma DrainOneShows(s: State, refused: bool, p: PollSpec.Poll, fd: nat)
    requires Enabled(s, DrainOne(refused)) && Shows(s, p, fd)
    ensures Shows(Do(s, DrainOne(refused)), Effect(s, DrainOne(refused), p, fd), fd)
  {
    assert p.foreign[1..] == Queue(fd, s.queued - 1);
  }

  lemma OtherShows(s: State, a: Action, p: PollSpec.Poll, fd: nat)
    requires Inv(s) && Enabled(s, a) && Shows(s, p, fd)
    requires a in {OtherLooks, OtherFindsOutside, OtherSetsPollout, OtherQueues, OtherSetsLeave}
    ensures Shows(Do(s, a), OtherEffect(s, a, p, fd), fd)
  {
    QueueOneMore(fd, s.queued);
  }

  /** The actions that set or clear a flag */
  lemma FlagShows(s: State, a: Action, p: PollSpec.Poll, fd: nat)
    requires Inv(s) && Enabled(s, a) && Shows(s, p, fd)
    requires a in {Enter, SetHandling, LetGo, ClearHandling, ForgetLeave, ClearLeave, HandshakeBails}
    ensures Shows(Do(s, a), Effect(s, a, p, fd), fd)
  {
  }

  lemma DisableShows(s: State, p: PollSpec.Poll, fd: nat)
    requires Inv(s) && Enabled(s, Disable(false)) && Shows(s, p, fd)
    ensures Shows(Do(s, Disable(false)), Effect(s, Disable(false), p, fd), fd)
  {
  }

  /** The actions that put POLLOUT back */
  lemma BackShows(s: State, a: Action, p: PollSpec.Poll, fd: nat)
    requires Inv(s) && Enabled(s, a) && Shows(s, p, fd) && Do(s, a).phase != Dead && (a.Recheck? || a.UserReturns?)
    ensures Shows(Do(s, a), Effect(s, a, p, fd), fd)
  {
    AskShows(s, p, fd);
  }

  /** Every action on a live connection is that on the table: what is proved of the actions holds of it. */
  lemma ActionsAreTableSteps(s: State, a: Action, p: PollSpec.Poll, fd: nat)
    requires Inv(s) && Enabled(s, a) && Shows(s, p, fd) && Do(s, a).phase != Dead
    ensures Shows(Do(s, a), Effect(s, a, p, fd), fd)
  {
    if a in {OtherLooks, OtherFindsOutside, OtherSetsPollout, OtherQueues, OtherSetsLeave} {
      OtherShows(s, a, p, fd);
    } else if a in {Enter, SetHandling, LetGo, ClearHandling, ForgetLeave, ClearLeave, HandshakeBails} {
      FlagShows(s, a, p, fd);
    } else if a.Recheck? || a.UserReturns? {
      BackShows(s, a, p, fd);
    } else {
      OwnShows(s, a, p, fd);
    }
  }

  /** The rest of the service thread's actions */
  lemma OwnShows(s: State, a: Action, p: PollSpec.Poll, fd: nat)
    requires Inv(s) && Enabled(s, a) && Shows(s, p, fd) && Do(s, a).phase != Dead
    requires a !in {OtherLooks, OtherFindsOutside, OtherSetsPollout, OtherQueues, OtherSetsLeave}
    requires a !in {Enter, SetHandling, LetGo, ClearHandling, ForgetLeave, ClearLeave, HandshakeBails}
    requires !a.Recheck? && !a.UserReturns?
    ensures Shows(Do(s, a), Effect(s, a, p, fd), fd)
  {
    match a
    case AppWrite(buf, env, through) => SentShows(s, Issue(s.conn, Some(buf), env), through, s.phase, p, fd);
    case DrainBacklog(env, through) => SentShows(s, Issue(s.conn, None, env), through, Bailing, p, fd);
    case AppAsk => AskShows(s, p, fd);
    case DrainOne(refused) => DrainOneShows(s, refused, p, fd);
    case Disable(_) => DisableShows(s, p, fd);
    case _ =>
  }

  /** In the event loop, outside poll() or inside, a connection's wake-up is to come in the table if and only if it has
      POLLOUT on or a request queued that is not to be dropped. */
  lemma {:induction false} WakesIff(s: State, p: PollSpec.Poll, fd: nat, drain: seq<PollSpec.Fate>)
    requires Shows(s, p, fd) && !s.handling && |drain| == s.queued == |p.foreign|
    ensures PollSpec.Wakes(p, fd, drain) <==> s.pollout || exists i :: 0 <= i < s.queued && !PollSpec.Dropped(drain[i])
  {
    QueueAt(fd, s.queued);
    PollSpec.DrainedPolloutIff(p.table, p.foreign, drain, fd);
    assert forall i :: 0 <= i <= s.queued ==> PollSpec.Unchallenged(p.foreign, drain, fd, i);
    assert forall i :: 0 <= i < s.queued ==> (PollSpec.Sets(p.foreign, drain, fd, i) <==> !PollSpec.Dropped(drain[i]));
  }

  lemma {:induction false} QueueAt(fd: nat, n: nat)
    ensures |Queue(fd, n)| == n
    ensures forall i :: 0 <= i < n ==> Queue(fd, n)[i] == PollSpec.Change(fd, PollSpec.NONE, PollSpec.POLLOUT)
  {
    if n > 0 {
      QueueAt(fd, n - 1);
    }
  }
}
