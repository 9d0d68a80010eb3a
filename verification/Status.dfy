/** The lws-status protocol (`plugins/protocol_lws_status.c`): every connection is sent, as one
    fragmented websocket message, the list of live connections, and is sent it again whenever the
    list has changed.  A message takes many writable events to send, during which connections come
    and go. */
module Status {
  import opened Basics

  /** What one write adds to the message: the opening with its connection count, a separating comma,
      one connection's details, the closing brackets. */
  datatype Token = Head(wsi: nat) | Comma | Peer(info: string) | Tail

  datatype Opcode = Text | Continuation

  datatype Frame = Frame(opcode: Opcode, fin: bool, body: seq<Token>)

  datatype Walk = NoWalk | Initial | List | Final

  /** per_session_data__lws_status.  `addr` is the address of the session's memory, which may be used
      again once the session has gone; `info` is its peer, time and user agent; `frames` is what has
      been written to it, `wants` whether it is due a writable callback. */
  datatype Pss = Pss(addr: nat, info: string, walk: Walk, walkNext: Option<nat>,
                     subsequent: bool, changedPartway: bool, frames: seq<Frame>, wants: bool)

  /** live_pss_list and count_live_pss */
  datatype Vhost = Vhost(live: seq<Pss>, count: nat)

  // ----- the plugin's steps -----

  function FirstOf(live: seq<Pss>): (a: Option<nat>) {
    if live == [] then None else Some(live[0].addr)
  }

  /** trigger_resend(), for one session of the list */
  function Retrigger(p: Pss, first: Option<nat>): (p': Pss) {
    if p.walk == NoWalk
    then p.(subsequent := false, walkNext := first, walk := Initial, wants := true)
    else p.(changedPartway := true, wants := true)
  }

  function TriggerResend(live: seq<Pss>): (live': seq<Pss>)
    ensures |live'| == |live|
    ensures forall i :: 0 <= i < |live| ==> live'[i] == Retrigger(live[i], FirstOf(live))
  {
    seq(|live|, i requires 0 <= i < |live| => Retrigger(live[i], FirstOf(live)))
  }

  function Connect(v: Vhost, addr: nat, info: string): (v': Vhost) {
    Vhost(TriggerResend([Pss(addr, info, NoWalk, None, false, false, [], false)] + v.live), v.count + 1)
  }

  function Close(v: Vhost, i: nat): (v': Vhost)
    requires i < |v.live|
  {
    v.(live := TriggerResend(v.live[..i] + v.live[i + 1..]))
  }

  /** Where in the list a session address is, or the list's length */
  function Find(live: seq<Pss>, addr: nat): (k: nat)
    ensures k <= |live|
    ensures k < |live| ==> live[k].addr == addr
    ensures forall j :: 0 <= j < k ==> live[j].addr != addr
  {
    if live == [] then 0
    else if live[0].addr == addr then 0
    else 1 + Find(live[1..], addr)
  }

  function NextOf(live: seq<Pss>, k: nat): (a: Option<nat>)
    requires k < |live|
  {
    if k + 1 < |live| then Some(live[k + 1].addr) else None
  }

  function Sent(p: Pss, f: Frame): (p': Pss) {
    p.(frames := p.frames + [f], wants := p.walk != NoWalk)
  }

  /** The WALK_FINAL state: close the message, and start again if the list changed on the way. */
  function WriteFinal(v: Vhost, p: Pss): (p': Pss) {
    var f := Frame(Continuation, true, [Tail]);
    if p.changedPartway
    then Sent(p.(changedPartway := false, subsequent := false, walkNext := FirstOf(v.live), walk := Initial), f)
    else Sent(p.(walk := NoWalk), f)
  }

  /** LWS_CALLBACK_SERVER_WRITEABLE for session `p` */
  function Written(v: Vhost, p: Pss): (p': Pss) {
    match p.walk
    case NoWalk => p.(wants := false)
    case Initial =>
      Sent(p.(walk := List, walkNext := FirstOf(v.live)), Frame(Text, false, [Head(v.count)]))
    case List =>
      if p.walkNext == None then WriteFinal(v, p)
      else
        var comma := if p.subsequent then [Comma] else [];
        var k := Find(v.live, p.walkNext.value);
        if k == |v.live| then
          Sent(p.(subsequent := true, walk := Final, changedPartway := true), Frame(Continuation, false, comma))
        else
          var next := NextOf(v.live, k);
          Sent(p.(subsequent := true, walkNext := next, walk := if next == None then Final else List),
               Frame(Continuation, false, comma + [Peer(v.live[k].info)]))
    case Final => WriteFinal(v, p)
  }

  function Write(v: Vhost, i: nat): (v': Vhost)
    requires i < |v.live|
  {
    v.(live := v.live[i := Written(v, v.live[i])])
  }

  datatype Event =
    | Connects(addr: nat, info: string)
    | Closes(i: nat)
    | Writable(i: nat)
    | WritableFails(i: nat)  // the write fails and the connection is closed

  predicate Possible(v: Vhost, e: Event) {
    match e
    case Connects(addr, _) => Find(v.live, addr) == |v.live|
    case _ => e.i < |v.live|
  }

  function Step(v: Vhost, e: Event): (v': Vhost)
    requires Possible(v, e)
  {
    match e
    case Connects(addr, info) => Connect(v, addr, info)
    case Closes(i) => Close(v, i)
    case Writable(i) => Write(v, i)
    case WritableFails(i) => Close(v, i)
  }

  // ----- the receiving end -----

  /** What a websocket receiver makes of the frames (section 5.4 of RFC 6455): a message is a
      TEXT frame and CONTINUATION frames, the last and only the last with FIN. */
  datatype Reception = Idle(messages: seq<seq<Token>>) | Open(messages: seq<seq<Token>>, body: seq<Token>) | Broken

  function Take(r: Reception, f: Frame): (r': Reception) {
    match r
    case Idle(messages) =>
      if f.opcode != Text then Broken
      else if f.fin then Idle(messages + [f.body])
      else Open(messages, f.body)
    case Open(messages, body) =>
      if f.opcode != Continuation then Broken
      else if f.fin then Idle(messages + [body + f.body])
      else Open(messages, body + f.body)
    case Broken => Broken
  }

  function Receive(frames: seq<Frame>): (r: Reception) {
    if frames == [] then Idle([]) else Take(Receive(frames[..|frames| - 1]), frames[|frames| - 1])
  }

  /** The first `k` connections of the list, comma-separated */
  function Listing(live: seq<Pss>, k: nat): (tokens: seq<Token>)
    requires k <= |live|
  {
    if k == 0 then []
    else Listing(live, k - 1) + (if k == 1 then [] else [Comma]) + [Peer(live[k - 1].info)]
  }

  /** The opening, then exactly the first `k` connections of the list, in list order */
  predicate Opens(body: seq<Token>, v: Vhost, k: nat)
    requires k <= |v.live|
  {
    body != [] && body[0] == Head(v.count) && body[1..] == Listing(v.live, k)
  }

  /** A complete message that gives the count and lists exactly the connections there are, in order */
  predicate Snapshot(message: seq<Token>, v: Vhost) {
    message != [] && message[|message| - 1] == Tail && Opens(message[..|message| - 1], v, |v.live|)
  }

  // ----- what every step keeps -----

  /** How far one session has got.  Unless it knows that the list changed under it, what it has sent of
      the message is the start of the list as it is now. */
  predicate InWalk(v: Vhost, p: Pss) {
    var r := Receive(p.frames);
    && (p.walk != NoWalk ==> p.wants)
    && match p.walk
       case NoWalk => r.Idle? && !p.changedPartway && r.messages != [] && Snapshot(r.messages[|r.messages| - 1], v)
       case Initial => r.Idle? && !p.subsequent
       case List =>
         && r.Open? && p.walkNext.Some?
         && (!p.changedPartway ==>
               var k := Find(v.live, p.walkNext.value);
               k < |v.live| && Opens(r.body, v, k) && (p.subsequent <==> k > 0))
       case Final => r.Open? && (!p.changedPartway ==> Opens(r.body, v, |v.live|))
  }

  ghost predicate Distinct(live: seq<Pss>) {
    forall i, j :: 0 <= i < j < |live| ==> live[i].addr != live[j].addr
  }

  ghost predicate Inv(v: Vhost) {
    Distinct(v.live) && forall i :: 0 <= i < |v.live| ==> InWalk(v, v.live[i])
  }

  /** Two lists of the same connections, whatever their walks */
  ghost predicate SameConnections(a: seq<Pss>, b: seq<Pss>) {
    |a| == |b| && forall i :: 0 <= i < |a| ==> a[i].addr == b[i].addr && a[i].info == b[i].info
  }

  lemma {:induction false} SameListing(a: seq<Pss>, b: seq<Pss>, k: nat)
    requires SameConnections(a, b) && k <= |a|
    ensures Listing(a, k) == Listing(b, k)
  {
    if k > 0 {
      SameListing(a, b, k - 1);
    }
  }

  lemma {:induction false} SameFind(a: seq<Pss>, b: seq<Pss>, addr: nat)
    requires SameConnections(a, b)
    ensures Find(a, addr) == Find(b, addr)
  {
    if a != [] {
      SameFind(a[1..], b[1..], addr);
    }
  }

  lemma SameInWalk(a: Vhost, b: Vhost, p: Pss)
    requires SameConnections(a.live, b.live) && a.count == b.count && InWalk(a, p)
    ensures InWalk(b, p)
  {
    SameListing(a.live, b.live, |a.live|);
    if p.walk == List && p.walkNext.Some? {
      SameFind(a.live, b.live, p.walkNext.value);
      SameListing(a.live, b.live, Find(a.live, p.walkNext.value));
    }
  }

  /** A list change undoes nothing that has been sent: the session is told to walk again. */
  lemma RetriggerInWalk(was: Vhost, v: Vhost, p: Pss, first: Option<nat>)
    requires InWalk(was, p)
    ensures InWalk(v, Retrigger(p, first)) && Retrigger(p, first).walk != NoWalk
  {
  }

  lemma ReceiveNext(frames: seq<Frame>, f: Frame)
    ensures Receive(frames + [f]) == Take(Receive(frames), f)
  {
    assert (frames + [f])[..|frames|] == frames;
  }

  lemma FindDistinct(live: seq<Pss>, k: nat)
    requires Distinct(live) && k < |live|
    ensures Find(live, live[k].addr) == k
  {
  }

  lemma ListingNext(body: seq<Token>, v: Vhost, k: nat)
    requires k < |v.live| && Opens(body, v, k)
    ensures Opens(body + (if k > 0 then [Comma] else []) + [Peer(v.live[k].info)], v, k + 1)
  {
    var live := v.live;
    var more := (if k > 0 then [Comma] else []) + [Peer(live[k].info)];
    assert body + (if k > 0 then [Comma] else []) + [Peer(live[k].info)] == body + more;
    assert (body + more)[1..] == body[1..] + more;
    assert Listing(live, k + 1) == Listing(live, k) + more;
  }

  lemma WriteFinalInWalk(v: Vhost, p: Pss)
    requires InWalk(v, p) && p.walk == Final
    ensures InWalk(v, WriteFinal(v, p))
  {
    var f := Frame(Continuation, true, [Tail]);
    ReceiveNext(p.frames, f);
    var body := Receive(p.frames).body;
    assert (body + [Tail])[..|body|] == body;
  }

  lemma WriteInitialInWalk(v: Vhost, p: Pss)
    requires InWalk(v, p) && p.walk == Initial && v.live != []
    ensures InWalk(v, Written(v, p))
  {
    ReceiveNext(p.frames, Frame(Text, false, [Head(v.count)]));
    assert Find(v.live, v.live[0].addr) == 0;
  }

  lemma WriteGoneInWalk(v: Vhost, p: Pss)
    requires InWalk(v, p) && p.walk == List && Find(v.live, p.walkNext.value) == |v.live|
    ensures InWalk(v, Written(v, p))
  {
    ReceiveNext(p.frames, Frame(Continuation, false, if p.subsequent then [Comma] else []));
  }

  lemma WritePeerInWalk(v: Vhost, p: Pss, k: nat)
    requires InWalk(v, p) && p.walk == List && Distinct(v.live)
    requires k == Find(v.live, p.walkNext.value) < |v.live|
    ensures InWalk(v, Written(v, p))
  {
    var body := Receive(p.frames).body;
    var comma := if p.subsequent then [Comma] else [];
    var add := comma + [Peer(v.live[k].info)];
    ReceiveNext(p.frames, Frame(Continuation, false, add));
    if k + 1 < |v.live| {
      FindDistinct(v.live, k + 1);
    }
    if !p.changedPartway {
      assert Opens(body + add, v, k + 1) by {
        ListingNext(body, v, k);
        assert body + comma + [Peer(v.live[k].info)] == body + add;
      }
    }
  }

  lemma WriteListInWalk(v: Vhost, p: Pss)
    requires InWalk(v, p) && p.walk == List && Distinct(v.live)
    ensures InWalk(v, Written(v, p))
  {
    var k := Find(v.live, p.walkNext.value);
    if k == |v.live| {
      WriteGoneInWalk(v, p);
    } else {
      WritePeerInWalk(v, p, k);
    }
  }

  lemma WrittenInWalk(v: Vhost, i: nat)
    requires Inv(v) && i < |v.live|
    ensures InWalk(v, Written(v, v.live[i]))
    ensures Written(v, v.live[i]).addr == v.live[i].addr && Written(v, v.live[i]).info == v.live[i].info
  {
    var p := v.live[i];
    assert InWalk(v, p);
    match p.walk
    case NoWalk =>
    case Initial => WriteInitialInWalk(v, p);
    case List => WriteListInWalk(v, p);
    case Final => WriteFinalInWalk(v, p);
  }

  lemma WriteKeepsInv(v: Vhost, i: nat)
    requires Inv(v) && i < |v.live|
    ensures Inv(Write(v, i))
  {
    var v' := Write(v, i);
    WrittenInWalk(v, i);
    assert SameConnections(v.live, v'.live);
    forall j | 0 <= j < |v'.live| ensures InWalk(v', v'.live[j]) {
      assert InWalk(v, v'.live[j]);
      SameInWalk(v, v', v'.live[j]);
    }
  }

  /** Any list whose sessions were each in some walk, once triggered */
  lemma TriggeredInv(was: Vhost, live: seq<Pss>, count: nat)
    requires Distinct(live)
    requires forall i :: 0 <= i < |live| ==> InWalk(was, live[i]) || (live[i].walk == NoWalk && live[i].frames == [] && !live[i].changedPartway)
    ensures Inv(Vhost(TriggerResend(live), count))
    ensures forall i :: 0 <= i < |live| ==> TriggerResend(live)[i].walk != NoWalk
  {
    var live' := TriggerResend(live);
    var v := Vhost(live', count);
    forall i | 0 <= i < |live'| ensures InWalk(v, live'[i]) && live'[i].walk != NoWalk {
      if InWalk(was, live[i]) {
        RetriggerInWalk(was, v, live[i], FirstOf(live));
      }
    }
    assert SameConnections(live, live');
  }

  lemma ConnectKeepsInv(v: Vhost, addr: nat, info: string)
    requires Inv(v) && Find(v.live, addr) == |v.live|
    ensures Inv(Connect(v, addr, info))
  {
    var live := [Pss(addr, info, NoWalk, None, false, false, [], false)] + v.live;
    forall i | 0 < i < |live| ensures live[i] == v.live[i - 1] { }
    TriggeredInv(v, live, v.count + 1);
  }

  lemma CloseKeepsInv(v: Vhost, i: nat)
    requires Inv(v) && i < |v.live|
    ensures Inv(Close(v, i))
  {
    var live := v.live[..i] + v.live[i + 1..];
    forall j | 0 <= j < |live| ensures live[j] == v.live[if j < i then j else j + 1] { }
    TriggeredInv(v, live, v.count);
  }

  lemma StepKeepsInv(v: Vhost, e: Event)
    requires Inv(v) && Possible(v, e)
    ensures Inv(Step(v, e))
  {
    match e
    case Connects(addr, info) => ConnectKeepsInv(v, addr, info);
    case Closes(i) => CloseKeepsInv(v, i);
    case Writable(i) => WriteKeepsInv(v, i);
    case WritableFails(i) => CloseKeepsInv(v, i);
  }

  // ----- runs -----

  const Empty := Vhost([], 0)

  predicate CanRun(v: Vhost, events: seq<Event>)
    decreases |events|
  {
    events == [] || (Possible(v, events[0]) && CanRun(Step(v, events[0]), events[1..]))
  }

  function Run(v: Vhost, events: seq<Event>): (v': Vhost)
    requires CanRun(v, events)
    decreases |events|
  {
    if events == [] then v else Run(Step(v, events[0]), events[1..])
  }

  lemma {:induction false} RunKeepsInv(v: Vhost, events: seq<Event>)
    requires Inv(v) && CanRun(v, events)
    ensures Inv(Run(v, events))
    decreases |events|
  {
    if events != [] {
      StepKeepsInv(v, events[0]);
      RunKeepsInv(Step(v, events[0]), events[1..]);
    }
  }

  // ----- who is connected, from the events alone -----

  datatype Session = Session(addr: nat, info: string)

  /** A newcomer goes in front; one that closes, or whose write fails, goes out and the others stay as they are. */
  function Attended(sessions: seq<Session>, e: Event): (sessions': seq<Session>) {
    match e
    case Connects(addr, info) => [Session(addr, info)] + sessions
    case Closes(i) => if i < |sessions| then sessions[..i] + sessions[i + 1..] else sessions
    case Writable(i) => sessions
    case WritableFails(i) => if i < |sessions| then sessions[..i] + sessions[i + 1..] else sessions
  }

  function Attendance(sessions: seq<Session>, events: seq<Event>): (sessions': seq<Session>)
    decreases |events|
  {
    if events == [] then sessions else Attendance(Attended(sessions, events[0]), events[1..])
  }

  /** How many have ever connected */
  function Arrivals(events: seq<Event>): (n: nat) {
    if events == [] then 0 else (if events[0].Connects? then 1 else 0) + Arrivals(events[1..])
  }

  function Sessions(live: seq<Pss>): (sessions: seq<Session>) {
    seq(|live|, i requires 0 <= i < |live| => Session(live[i].addr, live[i].info))
  }

  lemma TriggerKeepsSessions(live: seq<Pss>)
    ensures Sessions(TriggerResend(live)) == Sessions(live)
  {
  }

  lemma CloseSessions(v: Vhost, i: nat)
    requires i < |v.live|
    ensures Sessions(Close(v, i).live) == Sessions(v.live)[..i] + Sessions(v.live)[i + 1..]
  {
    var rest := v.live[..i] + v.live[i + 1..];
    TriggerKeepsSessions(rest);
    assert Sessions(rest) == Sessions(v.live)[..i] + Sessions(v.live)[i + 1..];
  }

  lemma StepSessions(v: Vhost, e: Event)
    requires Possible(v, e)
    ensures Sessions(Step(v, e).live) == Attended(Sessions(v.live), e)
    ensures Step(v, e).count == v.count + if e.Connects? then 1 else 0
  {
    match e
    case Connects(addr, info) =>
      var live := [Pss(addr, info, NoWalk, None, false, false, [], false)] + v.live;
      TriggerKeepsSessions(live);
      assert Sessions(live) == [Session(addr, info)] + Sessions(v.live);
    case Closes(i) => CloseSessions(v, i);
    case Writable(i) => assert Sessions(Write(v, i).live) == Sessions(v.live);
    case WritableFails(i) => CloseSessions(v, i);
  }

  /** Over every run the live list is exactly who has connected and not closed, newest first, and the count is of all
      who ever connected. */
  lemma {:induction false} TheListIsWhoIsConnected(v: Vhost, events: seq<Event>)
    requires CanRun(v, events)
    ensures Sessions(Run(v, events).live) == Attendance(Sessions(v.live), events)
    ensures Run(v, events).count == v.count + Arrivals(events)
    decreases |events|
  {
    if events != [] {
      StepSessions(v, events[0]);
      TheListIsWhoIsConnected(Step(v, events[0]), events[1..]);
    }
  }

  /** The message that says so */
  function Items(sessions: seq<Session>): (tokens: seq<Token>) {
    if sessions == [] then []
    else
      var last := |sessions| - 1;
      Items(sessions[..last]) + (if last == 0 then [] else [Comma]) + [Peer(sessions[last].info)]
  }

  function Announcement(arrivals: nat, sessions: seq<Session>): (message: seq<Token>) {
    [Head(arrivals)] + Items(sessions) + [Tail]
  }

  lemma {:induction false} ListingIsItems(live: seq<Pss>, k: nat)
    requires k <= |live|
    ensures Listing(live, k) == Items(Sessions(live)[..k])
  {
    if k > 0 {
      ListingIsItems(live, k - 1);
      assert Sessions(live)[..k][..k - 1] == Sessions(live)[..k - 1];
    }
  }

  lemma SnapshotIsAnnouncement(message: seq<Token>, v: Vhost)
    ensures Snapshot(message, v) <==> message == Announcement(v.count, Sessions(v.live))
  {
    ListingIsItems(v.live, |v.live|);
    var all := Sessions(v.live);
    assert all[..|v.live|] == all;
    var said := Announcement(v.count, all);
    assert said[..|said| - 1] == [Head(v.count)] + Items(all);
    assert said[..|said| - 1][1..] == Items(all);
    if Snapshot(message, v) {
      var body := message[..|message| - 1];
      assert body == [body[0]] + body[1..];
      assert message == body + [Tail];
    }
  }

  /** At rest, it was last sent the announcement; otherwise it is due a callback.  What it was sent was well
      fragmented. */
  predicate UpToDate(p: Pss, arrivals: nat, sessions: seq<Session>) {
    var r := Receive(p.frames);
    && !r.Broken?
    && (p.walk == NoWalk ==>
          && r.Idle? && r.messages != []
          && r.messages[|r.messages| - 1] == Announcement(arrivals, sessions))
    && (p.walk != NoWalk ==> p.wants)
  }

  lemma InWalkIsUpToDate(v: Vhost, p: Pss)
    requires InWalk(v, p)
    ensures UpToDate(p, v.count, Sessions(v.live))
  {
    var r := Receive(p.frames);
    if p.walk == NoWalk {
      SnapshotIsAnnouncement(r.messages[|r.messages| - 1], v);
    }
  }

  /** Over every interleaving of connects, closes and writable events: a connection that is at rest was
      last sent exactly who is connected, in order, and how many ever were; one that is not at rest is due
      a callback; and nobody has been sent a badly fragmented message. */
  lemma ConnectionsAtRestAreUpToDate(events: seq<Event>, i: nat)
    requires CanRun(Empty, events)
    requires i < |Run(Empty, events).live|
    ensures UpToDate(Run(Empty, events).live[i], Arrivals(events), Attendance([], events))
  {
    RunKeepsInv(Empty, events);
    TheListIsWhoIsConnected(Empty, events);
    assert Sessions(Empty.live) == [];
    var v := Run(Empty, events);
    InWalkIsUpToDate(v, v.live[i]);
  }

  // ----- a list that stops changing gets through -----

  /** Writable events session `p` still needs before it is at rest, if the list stays as it is */
  function Remaining(live: seq<Pss>, p: Pss): (n: nat) {
    var again := if p.changedPartway then |live| + 2 else 0;
    match p.walk
    case NoWalk => 0
    case Initial => |live| + 2 + again
    case List =>
      if p.walkNext == None then 1 + again
      else
        var k := Find(live, p.walkNext.value);
        if k == |live| then 2 + |live| + 2 else |live| - k + 1 + again
    case Final => 1 + again
  }

  /** The write itself, before the session goes back on the list */
  lemma WrittenMakesProgress(v: Vhost, i: nat)
    requires Inv(v) && i < |v.live| && v.live[i].walk != NoWalk
    ensures Remaining(v.live, Written(v, v.live[i])) == Remaining(v.live, v.live[i]) - 1
  {
    var p := v.live[i];
    assert InWalk(v, p);
    if Written(v, p).walk == List {
      if p.walk == Initial {
        FindDistinct(v.live, 0);
      } else {
        FindDistinct(v.live, Find(v.live, p.walkNext.value) + 1);
      }
    }
  }

  lemma SameRemaining(a: seq<Pss>, b: seq<Pss>, p: Pss)
    requires SameConnections(a, b)
    ensures Remaining(a, p) == Remaining(b, p)
  {
    if p.walkNext != None {
      SameFind(a, b, p.walkNext.value);
    }
  }

  lemma WriteMakesProgress(v: Vhost, i: nat)
    requires Inv(v) && i < |v.live| && v.live[i].walk != NoWalk
    ensures Remaining(Write(v, i).live, Write(v, i).live[i]) == Remaining(v.live, v.live[i]) - 1
  {
    WrittenMakesProgress(v, i);
    SameRemaining(v.live, Write(v, i).live, Written(v, v.live[i]));
  }

  function WriteTimes(v: Vhost, i: nat, n: nat): (v': Vhost)
    requires i < |v.live|
    ensures |v'.live| == |v.live|
    decreases n
  {
    if n == 0 then v else WriteTimes(Write(v, i), i, n - 1)
  }

  lemma RemainingIsBounded(v: Vhost, i: nat)
    requires Inv(v) && i < |v.live|
    ensures Remaining(v.live, v.live[i]) <= 2 * (|v.live| + 2)
  {
    assert InWalk(v, v.live[i]);
  }

  lemma {:induction false} SettlesAfter(v: Vhost, i: nat, n: nat)
    requires Inv(v) && i < |v.live| && n == Remaining(v.live, v.live[i])
    ensures var v' := WriteTimes(v, i, n); Inv(v') && v'.live[i].walk == NoWalk
    decreases n
  {
    assert InWalk(v, v.live[i]);
    if v.live[i].walk != NoWalk {
      WriteMakesProgress(v, i);
      WriteKeepsInv(v, i);
      SettlesAfter(Write(v, i), i, n - 1);
    }
  }

  /** With nobody coming or going, a connection is at rest after exactly `Remaining` writable events,
      which is never more than two walks of the list. */
  lemma FrozenListSettles(v: Vhost, i: nat)
    requires Inv(v) && i < |v.live|
    ensures exists n ::
              && 0 <= n <= 2 * (|v.live| + 2)
              && WriteTimes(v, i, n).live[i].walk == NoWalk
              && Inv(WriteTimes(v, i, n))
  {
    RemainingIsBounded(v, i);
    SettlesAfter(v, i, Remaining(v.live, v.live[i]));
  }

  // ----- the plugin's callbacks -----

  class StatusVhost {
    var live: seq<Pss>
    var count: nat

    ghost function View(): (v: Vhost)
      reads this
    {
      Vhost(live, count)
    }

    constructor ()
      ensures View() == Empty
    {
      live, count := [], 0;
    }

    /** trigger_resend() */
    method Trigger()
      modifies this`live
      ensures live == TriggerResend(old(live))
    {
      var first := FirstOf(live);
      var i := 0;
      while i < |live|
        invariant 0 <= i <= |live| == |old(live)|
        invariant forall j :: 0 <= j < |live| ==>
                    live[j] == if j < i then Retrigger(old(live)[j], first) else old(live)[j]
      {
        var p := live[i];
        if p.walk == NoWalk {
          live := live[i := p.(subsequent := false, walkNext := first, walk := Initial, wants := true)];
        } else {
          live := live[i := p.(changedPartway := true, wants := true)];
        }
        i := i + 1;
      }
    }

    /** LWS_CALLBACK_ESTABLISHED */
    method Established(addr: nat, info: string)
      modifies this
      ensures View() == Connect(old(View()), addr, info)
    {
      count := count + 1;
      live := [Pss(addr, info, NoWalk, None, false, false, [], false)] + live;
      Trigger();
    }

    /** The list search that every use of `walk_next` and every removal starts with */
    method Search(addr: nat) returns (k: nat)
      ensures k == Find(live, addr)
    {
      k := 0;
      while k < |live|
        invariant 0 <= k <= |live|
        invariant Find(live, addr) == k + Find(live[k..], addr)
      {
        if live[k].addr == addr {
          return;
        }
        k := k + 1;
      }
    }

    /** LWS_CALLBACK_CLOSED; a session that is not on the list only causes a resend */
    method Closed(addr: nat)
      modifies this`live
      ensures var i := Find(old(live), addr);
              if i < |old(live)| then View() == Close(old(View()), i)
              else live == TriggerResend(old(live))
    {
      var i := Search(addr);
      if i < |live| {
        live := live[..i] + live[i + 1..];
      }
      Trigger();
    }

    /** LWS_CALLBACK_SERVER_WRITEABLE.  `walk_next` is looked into only once it has been found on the
        list, so a session that has gone is never touched. */
    method Writeable(i: nat)
      requires i < |live|
      modifies this`live
      ensures View() == Write(old(View()), i)
    {
      var p := live[i];
      var opcode, fin, body := Continuation, false, [];
      var final := false;
      match p.walk {
        case NoWalk =>
          live := live[i := p.(wants := false)];
          return;
        case Initial =>
          opcode, body := Text, [Head(count)];
          p := p.(walk := List, walkNext := FirstOf(live));
        case List =>
          if p.walkNext == None {
            final := true;
          } else {
            if p.subsequent {
              body := [Comma];
            }
            p := p.(subsequent := true);
            var m := Search(p.walkNext.value);
            if m == |live| {
              p := p.(walk := Final, changedPartway := true);
            } else {
              body := body + [Peer(live[m].info)];
              p := p.(walkNext := NextOf(live, m));
              if p.walkNext == None {
                p := p.(walk := Final);
              }
            }
          }
        case Final =>
          final := true;
      }
      if final {
        fin, body := true, [Tail];
        if p.changedPartway {
          p := p.(changedPartway := false, subsequent := false, walkNext := FirstOf(live), walk := Initial);
        } else {
          p := p.(walk := NoWalk);
        }
      }
      live := live[i := p.(frames := p.frames + [Frame(opcode, fin, body)], wants := p.walk != NoWalk)];
    }
  }
}
