# A verified model of libwebsockets' buffering, broadcast and codec cores

Dafny models of the parts of the vendored libwebsockets where state is spread over several places and has to
stay consistent over whole runs:

- **Ring** (`lib/misc/lws-ring.c`): one ring buffer, any number of readers with tails of their own.
- **MirrorSpec, MirrorReference, Mirror, MirrorVhost** (`plugins/protocol_lws_mirror.c`): the broadcast plugin on that ring: oldest
  tail, receive flow control, slow-reader timers, instance lifetime.
- **Status** (`plugins/protocol_lws_status.c`): each connection sends, a fragment at a time, a list that changes
  while it is being sent.
- **Output** (`lib/core/output.c`, buflist in `lib/core/libwebsockets.c`): short socket writes and the backlog.
- **PollSpec, PollTable** (`lib/core/pollfd.c`, `lib/plat/unix/unix-service.c`): the poll table, its back-pointers and
  lookup, accept gating, and changes put off while poll() runs.
- **Pollout** (`lib/core/service.c`): the writable event, statement by statement, against other threads.
- **Base64, Base64Decoder** (`lib/misc/base64-decode.c`): the codec, against RFC 4648.
- **SelectionSort, WifiScan, WifiReference** (`plugins/protocol_esp32_lws_scan.c`): the list of known access points.
- **Crlf** (`test-apps/test-sshd.c`) and **Chunked** (`lib/core/dummy-callback.c`): two streaming transforms.

Most protocols come in two layers. A specification gives the state as values, a `Step` function with one case per
event, and an invariant that every step keeps; the main results are about every run from the initial state. A
class then has the fields and loops of the C code, and each of its methods is proved to take the specification
state through exactly the corresponding step. What a run is to leave is also worked out from its events alone, without
the steps: the messages a mirror instance accepts and where its readers stand, who is connected to the status page, who
is in the poll table, the records an access point's entry stands for, the pieces a proxied response is made of. The run
is proved to leave exactly that. What the modelled code does not decide (how much a socket takes, whether
an allocation succeeds, whether a callback around the poll table fails, what an uninitialised buffer holds) is a
parameter, and the results are for all of its values; where one of them decides whether a property holds, the result
says which.

## What turned out not to hold

Each of these has a lemma with the exact condition, and most have one with a concrete run.

- `lws_buflist_append_segment()` refuses a list of 1024 segments, and fails without memory, and `lws_issue_raw()`
  ignores both, so a buffer that needs a segment then is lost, or the part of it that the socket did not take
  (`Output.WireAndBacklogAreTheAcceptedBytes`, `Output.ALongBacklogLosesABuffer`, `Output.NoMemoryLosesABuffer`).
- `lws_callback_on_writable()` changes nothing if the LOCK_POLL callback refuses it, or if the service thread is inside
  poll() and there is no memory to queue the change; for a connection without a protocol it changes nothing and returns 1
  (`PollSpec.AskingWakesIff`, `PollSpec.ARequestCanGoNowhere`). `lws_issue_raw()` does not look at its result, so a
  backlog can be left with nothing to send it (`Pollout.NoWakeUpIsLostIff`, `Pollout.AFailedRequestStrandsABacklog`).
- A change that another thread had queued is tried again on the way out of poll(), where the LOCK_POLL callback can
  refuse it. Nobody looks at that, so a callback that was asked for with success can be dropped
  (`PollSpec.DrainedPolloutIff`, `PollSpec.AQueuedRequestCanBeDropped`, `Pollout.NoWakeUpIsLostIff`,
  `Pollout.ARefusedDrainDropsACallback`).
- A client that is still handshaking has its POLLOUT used up without a callback, so one that it asked for is dropped
  (`Pollout.NoWakeUpIsLostIff`, `Pollout.AHandshakeDropsACallback`).
- The comment at `lib/core/output.c:24-26` says that `lws_issue_raw()` returns the number of bytes consumed. Behind a
  backlog the code returns the number of bytes drained from the backlog; the model follows the code
  (`Output.IssueRawKeepsStream`).
- A mirror connection that joins while messages are buffered is given them to read but no writable callback is asked
  for, and it carries no timer. With flow control off, nothing then moves until that connection itself does something
  (`MirrorSpec.OnlyAJoinLeavesAReaderUnprompted`, `MirrorSpec.AJoinerCanWedgeAnInstance`).
- A mirror instance name of more than 28 characters is stored cut short, and the instance not found by its own name
  (`MirrorVhost.SecondConnectionSharesIffNameIsStored`).
- A listening socket registered when the table has no room left for a connection goes on polling for connections,
  because it becomes the vhost's listener only after its insertion
  (`PollSpec.ListeningKeepsGatedIffThereIsRoom`, `PollSpec.AListenerCanComeTooLate`).
- The access point sort never ends if some average is above zero (`SelectionSort.SortingEndsIffNoEntryIsPositive`).
- The base64 decoder's returned length is one short after a '=' in a group of its own
  (`Base64Decoder.ReturnedLengthIsExactUnlessLonePad`, `Base64Decoder.ALonePadIsMiscounted`).
- Stdout and stderr of the ssh test application share the flag for a 0x0d still to be written, so one of them can be
  given the other's (`Crlf.ChannelsAreExpandedUnlessTakenOver`, `Crlf.TakingOverHappens`). The newline expansion writes
  more than its ring has room for exactly when a 0x0d is owed, to whichever channel, and there is a single byte of room
  (`Crlf.OverrunsIff`). Until a 0x0d has been taken over that does not come about (`Crlf.NoOverrunUnlessTakenOver`);
  the read that takes one over can do it, and so can a later one that takes nothing over (`Crlf.AnOverrunHappens`,
  `Crlf.AnOverrunOfItsOwnHappens`).
- An empty proxied piece is written as the terminator of a chunked body, and the terminator also follows a body
  that has a content-length (`Chunked.ChunkedResponseIsReadBackIff`, `Chunked.AnEmptyPieceEndsTheBody`,
  `Chunked.UnchunkedResponseIsExactIff`, `Chunked.TheTerminatorFollowsAPlainBody`).
- A configured packet size of 2^32 - 20 wraps to a transmit limit of zero, and a backlog is then never drained
  (`Output.SomethingIsOfferedIff`, `Output.NothingOfferedNeverDrains`).
- A ring of one-byte elements reports its last free byte as no room (`Ring.FreeCountInBytes`).

## Model

| member | source | states |
|---|---|---|
| Ring.SlotDeterminesPosition | libwebsockets/lib/misc/lws-ring.c:66-120 | positions less than a lap apart that share a slot are the same position, so wrapped offsets are unambiguous while at most slots - 1 elements wait |
| Ring.CountsAreDistances | libwebsockets/lib/misc/lws-ring.c:66-120 | the wrapped waiting and free counts are the true distance between the positions, and slots - 1 minus it, whichever way the wrapped offsets compare |
| Ring.FreeCountInBytes | libwebsockets/lib/misc/lws-ring.c:66-94 | the byte formula for free space is the slot count, for every element size, except that a ring of one-byte elements reports its last free byte as none |
| Ring.WaitingCountInBytes | libwebsockets/lib/misc/lws-ring.c:96-120 | the byte formula for waiting elements is the slot count for every element size |
| Ring.FilledAfterCopy | libwebsockets/lib/misc/lws-ring.c:153-192 | a linear copy of new elements to the head touches no slot that is still waiting and extends the stored log by them |
| Ring.FilledAfterRetire | libwebsockets/lib/misc/lws-ring.c:262-275 | clearing the slot of the oldest element leaves every later element in its slot |
| Ring.Buffer.constructor | libwebsockets/lib/misc/lws-ring.c:24-47 | a new ring is empty, with nothing retired |
| Ring.Buffer.FreeCount | libwebsockets/lib/misc/lws-ring.c:66-94 | the byte formula gives slots - 1 less the elements not yet retired, with its cut-off for one-byte elements |
| Ring.Buffer.WaitingCount | libwebsockets/lib/misc/lws-ring.c:96-120 | the count is the number of logged elements past the tail's position |
| Ring.Buffer.CopyAtHead | libwebsockets/lib/misc/lws-ring.c:153-192 | one linear copy appends exactly its elements to the log and keeps everything waiting |
| Ring.Buffer.Insert | libwebsockets/lib/misc/lws-ring.c:153-192 | as many elements as the free count allows, and no more, are appended in order, across the wrap or not |
| Ring.Buffer.GetElement | libwebsockets/lib/misc/lws-ring.c:250-260 | a tail gets the logged element at its position, never one that has been destroyed, or none at the head |
| Ring.Buffer.Consume | libwebsockets/lib/misc/lws-ring.c:194-221 | a tail moves on by the lesser of what is asked and what waits |
| Ring.Buffer.UpdateOldestTail | libwebsockets/lib/misc/lws-ring.c:262-275 | exactly the elements before the new oldest tail have been destroyed, each once and in order |
| Ring.Buffer.Destroy | libwebsockets/lib/misc/lws-ring.c:49-64 | in the end every element ever inserted has been destroyed exactly once, in order |
| Ring.Buffer.FurthestBehind | libwebsockets/include/libwebsockets/lws-ring.h:261-289 | the scan by waiting counts finds the minimum of the absolute positions |
| Ring.Buffer.OthersHoldTheOldestTail | libwebsockets/include/libwebsockets/lws-ring.h:261-289 | a consumer that is not on the oldest tail does not change the furthest-behind position by moving on |
| Ring.Buffer.ConsumeAndUpdateOldestTail | libwebsockets/include/libwebsockets/lws-ring.h:261-289 | looking for the oldest tail only when the consumer was on it keeps it equal to the furthest-behind consumer's position |
| MirrorSpec.StepKeepsInv | libwebsockets/plugins/protocol_lws_mirror.c:207-447 | every join, leave, write, failed write and receive keeps the invariant, never moves the oldest position back and never rewrites the log |
| MirrorSpec.RunKeepsInv | libwebsockets/plugins/protocol_lws_mirror.c:207-447 | the same over every run |
| MirrorSpec.EveryReaderIsSentAContiguousRun | libwebsockets/plugins/protocol_lws_mirror.c:207-447 | over every run, each reader, present or gone, has been sent exactly the logged messages from its join position to its tail, in order, and what a present one has still to be sent is not destroyed |
| MirrorReference.RunFollowsLine | libwebsockets/plugins/protocol_lws_mirror.c:207-447 | over every run, what has been accepted, who is there and who has gone, in which order, and where each came in and got to are those computed from the events alone: a message is accepted if and only if fewer than QUEUELEN - 1 wait for the furthest behind and there is memory |
| MirrorReference.EveryReaderIsSentWhatWasAccepted | libwebsockets/plugins/protocol_lws_mirror.c:207-447 | over every run, each reader, present or gone, has been sent exactly the messages that the events say were accepted, from where it came in to where they say it has got |
| MirrorReference.StepSetsFlags | libwebsockets/plugins/protocol_lws_mirror.c:110-167 | from every state with the invariant, every event that leaves a reader leaves exactly these flags: rx off if and only if fewer are free than RXFLOW_MIN, or than RXFLOW_MAX if it was off; sockets switched when rx turns and only then; when the oldest position moves, the hang-up timer on exactly those who stand there with something to read, and otherwise kept until a reader moves on; callbacks asked for by a message that is stored or does not fit, and by a writer with more to write |
| MirrorReference.ASlowReaderIsTimed | libwebsockets/plugins/protocol_lws_mirror.c:144-164 | two readers, two messages, one sent one and the other both: the slower then carries the timer and the other does not |
| MirrorSpec.FlowControlNeverSticks | libwebsockets/plugins/protocol_lws_mirror.c:35-39 | over every run, rx on implies at least RXFLOW_MIN free and rx off less than RXFLOW_MAX; once all readers have caught up the instance and every member is listening |
| MirrorSpec.OnlyASlowestReaderIsTimed | libwebsockets/plugins/protocol_lws_mirror.c:144-164 | over every run, a reader that carries the hang-up timer has nobody behind it; who is given one is MirrorReference.StepSetsFlags |
| MirrorSpec.OthersHoldTheOldest | libwebsockets/plugins/protocol_lws_mirror.c:103-107 | a reader that was not at the oldest position, or sent nothing, leaves it where it was, which is what the plugin's skipped search relies on |
| MirrorSpec.SettleFinishes | libwebsockets/plugins/protocol_lws_mirror.c:110-167 | recomputing the oldest tail restores the invariant's part of flow control and timers from any state a write or a leave can hand it |
| MirrorSpec.WriteFailsKeepsInv | libwebsockets/plugins/protocol_lws_mirror.c:354-409 | a failed write and the close it leads to keep the invariant, although the tail moved without a search |
| MirrorSpec.OnlyAJoinLeavesAReaderUnprompted | libwebsockets/plugins/protocol_lws_mirror.c:207-447 | a step keeps every reader with unread messages due a callback if and only if it is not a join with messages buffered |
| MirrorSpec.QuietJoinsKeepReadersPrompted | libwebsockets/plugins/protocol_lws_mirror.c:207-447 | over every run whose joins find nothing buffered, every reader with unread messages is due a callback |
| MirrorSpec.AJoinerCanWedgeAnInstance | libwebsockets/plugins/protocol_lws_mirror.c:268-283 | a run after which one reader has 28 unread messages, rx is off, and nobody is due a callback or timed |
| Mirror.Instance.constructor | libwebsockets/plugins/protocol_lws_mirror.c:244-283 | a new instance holds the one reader that made it |
| Mirror.Instance.Established | libwebsockets/plugins/protocol_lws_mirror.c:268-283 | a joiner starts from the oldest message, as the specification's join |
| Mirror.Instance.RxFlow | libwebsockets/plugins/protocol_lws_mirror.c:76-86 | every member and the instance are switched |
| Mirror.Instance.CallbackAllOnWritable | libwebsockets/plugins/protocol_lws_mirror.c:169-177 | every member is due a callback |
| Mirror.Instance.UpdateWorstTail | libwebsockets/plugins/protocol_lws_mirror.c:110-167 | the scan over wrapped tails leaves the oldest tail on the furthest-behind reader, settles flow control and timers, and reports whether it moved |
| Mirror.Instance.Closed | libwebsockets/plugins/protocol_lws_mirror.c:285-329 | leaving, between callbacks or after a failed write, is the specification's step; after the last leave every message has been destroyed exactly once |
| Mirror.Instance.SendWaiting | libwebsockets/plugins/protocol_lws_mirror.c:354-379 | the loop sends exactly the next messages in order, up to the budget or a failure, and its tail stands after them |
| Mirror.Instance.FinishWriting | libwebsockets/plugins/protocol_lws_mirror.c:381-400 | searching only when this reader was on the oldest tail and moved gives the state that searching always would |
| Mirror.Instance.Writeable | libwebsockets/plugins/protocol_lws_mirror.c:348-409 | the callback is the specification's write or failed write, and the oldest tail is again the furthest-behind position |
| Mirror.Instance.Received | libwebsockets/plugins/protocol_lws_mirror.c:411-447 | the callback is the specification's receive: refused without room or memory, else logged once, with rx switched off below RXFLOW_MIN |
| MirrorVhost.Stored | libwebsockets/plugins/protocol_lws_mirror.c:260 | an instance keeps the first 28 characters of its name, which is the name if and only if it has no more |
| MirrorVhost.Place | libwebsockets/plugins/protocol_lws_mirror.c:223-243 | the first instance of exactly the name is found if there is one; a connection is refused if and only if there is none and three instances exist |
| MirrorVhost.SecondConnectionSharesIffNameIsStored | libwebsockets/plugins/protocol_lws_mirror.c:207-283 | the next connection with the same name shares the instance if and only if the name has at most 28 characters |
| MirrorVhost.OverlongNameExhaustsTheVhost | libwebsockets/plugins/protocol_lws_mirror.c:207-283 | three connections with one longer name fill the vhost and the fourth is refused |
| MirrorVhost.Vhost.Established | libwebsockets/plugins/protocol_lws_mirror.c:207-283 | the connection joins the instance found, or a new one at the front of the list, or gets -1, or 1 without memory; instances of other names are untouched |
| MirrorVhost.Vhost.Closed | libwebsockets/plugins/protocol_lws_mirror.c:285-329 | an instance goes from the vhost exactly when its last session leaves, between callbacks or after a failed write, and takes every message with it |
| MirrorVhost.Vhost.Writeable | libwebsockets/plugins/protocol_lws_mirror.c:348-409 | a writable event is the specification's write, or failed write and close; the instance goes exactly when that was its last session |
| Status.StepKeepsInv | libwebsockets/plugins/protocol_lws_status.c:63-224 | every connect, close, write and failed write keeps each session's sent fragments the start of the current list, unless the session knows that the list changed |
| Status.RunKeepsInv | libwebsockets/plugins/protocol_lws_status.c:63-224 | the same over every run |
| Status.TheListIsWhoIsConnected | libwebsockets/plugins/protocol_lws_status.c:106-224 | over every run the live list holds exactly the sessions that the events say have connected and not closed or failed, newest first, and the count is of all that ever connected |
| Status.SnapshotIsAnnouncement | libwebsockets/plugins/protocol_lws_status.c:129-205 | a complete walk of an unchanged list sends the one message that gives the count and lists those sessions, separated by commas |
| Status.ConnectionsAtRestAreUpToDate | libwebsockets/plugins/protocol_lws_status.c:63-224 | over every interleaving, a connection not in a walk was last sent exactly the message for those whom the events say are connected, in list order, and for how many ever were; one in a walk is due a callback; every stream is well fragmented under section 5.4 of RFC 6455 |
| Status.WriteMakesProgress | libwebsockets/plugins/protocol_lws_status.c:129-205 | a writable event in a walk brings the session exactly one event nearer to rest, whether or not the walk is stale |
| Status.FrozenListSettles | libwebsockets/plugins/protocol_lws_status.c:129-205 | with the list unchanging a session is at rest within 2 * (length + 2) writable events |
| Status.StatusVhost.Trigger | libwebsockets/plugins/protocol_lws_status.c:63-77 | every session is set to walk, or told that the list changed under its walk |
| Status.StatusVhost.Established | libwebsockets/plugins/protocol_lws_status.c:106-127 | the specification's connect |
| Status.StatusVhost.Closed | libwebsockets/plugins/protocol_lws_status.c:213-224 | the specification's close of the session found; a session that is not listed only causes a resend |
| Status.StatusVhost.Writeable | libwebsockets/plugins/protocol_lws_status.c:129-205 | the specification's write; `walk_next` is used only once found on the list |
| Output.UseTakesFromTheFront | libwebsockets/lib/core/libwebsockets.c:1152-1167 | using m bytes takes exactly the first m pending bytes and leaves no spent segment |
| Output.Limit | libwebsockets/lib/core/output.c:94-104 | no more than there is, and no more than 20 above the transmit packet size, or if that is zero the receive buffer size, or if both are the service buffer's, for sizes that do not wrap |
| Output.SomethingIsOfferedIff | libwebsockets/lib/core/output.c:94-104 | the socket is offered something of a non-empty buffer if and only if the configured size is not the one that wraps to zero in 32 bits |
| Output.IssueRawKeepsStream | libwebsockets/lib/core/output.c:27-208 | one call without a socket error adds exactly the offered buffer to wire and backlog, unless it came after the flush or could not have the segment it needed; what it returns; and a backlog left behind means a callback was asked for |
| Output.IssueOutcome | libwebsockets/lib/core/output.c:27-208 | exactly what the wire gains of what is offered, when the call fails, when the socket is given up, that a deferred transaction is no longer deferred once its completion has been tried, and when a callback is asked for: after every drain that does not end in a close or a completion, whether or not it empties the backlog, and after a partial send |
| Output.StepKeepsStream | libwebsockets/lib/core/output.c:27-208 | every send or drain without a socket error adds to wire and backlog a prefix of the buffer, the whole of it unless it was ignored or could not have the segment it needed |
| Output.StreamIsNoLongerThanAccepted | libwebsockets/lib/core/output.c:27-208 | over every run the stream has no more bytes than were accepted, and as many only if every buffer that needed a segment got one |
| Output.NothingIsLostIfSegmentsSuffice | libwebsockets/lib/core/output.c:27-208 | over every run in which every buffer that needs a segment gets one the stream is exactly the accepted bytes in order |
| Output.WireAndBacklogAreTheAcceptedBytes | libwebsockets/lib/core/output.c:27-208 | over every run up to a socket error, wire then backlog is exactly the accepted buffers in order if and only if every buffer that needed a segment found memory and fewer than 1024 segments |
| Output.ALongBacklogLosesABuffer | libwebsockets/lib/core/libwebsockets.c:1055-1094 | a run in which a buffer is lost behind 1024 segments |
| Output.NoMemoryLosesABuffer | libwebsockets/lib/core/libwebsockets.c:1055-1094 | a run in which a buffer is lost for lack of memory |
| Output.DrainTakesSomething | libwebsockets/lib/core/output.c:79-169 | a drain that the socket would take a byte of shortens the backlog if anything is offered and changes nothing otherwise, and signals a flushing connection's close exactly when it empties the backlog |
| Output.NothingOfferedNeverDrains | libwebsockets/lib/core/output.c:79-169 | with nothing offered no number of drains changes anything, so the flush below needs its condition on the configured size |
| Output.FlushEndsWithEverythingSent | libwebsockets/lib/core/output.c:79-151 | a connection flushing before close is told to close within as many drains as there are bytes pending, with every one of them on the wire, unless the configured size wraps to zero |
| Output.Wsi.BuflistAppendSegment | libwebsockets/lib/core/libwebsockets.c:1055-1094 | the segment goes last, or nowhere with -1 on a list of 1024 or without memory |
| Output.Wsi.BuflistNextSegment | libwebsockets/lib/core/libwebsockets.c:1124-1149 | the unsent rest of the first segment |
| Output.Wsi.BuflistUseSegment | libwebsockets/lib/core/libwebsockets.c:1152-1167 | the first segment's sent part grows, and the segment goes when all of it is sent |
| Output.Wsi.DrainBuflist | libwebsockets/lib/core/output.c:79-169 | state, return value and callback request are the specification's drain |
| Output.Wsi.SendDirect | libwebsockets/lib/core/output.c:88-207 | state, return value and callback request are the specification's direct send |
| Output.Wsi.IssueRaw | libwebsockets/lib/core/output.c:27-208 | state, return value and callback request are the specification's call |
| PollSpec.AskingWakesIff | libwebsockets/lib/core/pollfd.c:24-201 | after asking for a writable callback a wake-up is to come (set, left active, or queued and not dropped by the drain) if and only if one was already or the request gets through: it is not dropped, has memory if it has to be queued, and is then not dropped by the drain either; nobody else's is lost |
| PollSpec.ARequestCanGoNowhere | libwebsockets/lib/core/pollfd.c:380-407 | a request of a connection without a protocol, one refused by the LOCK_POLL callback, and one without memory inside poll() leave no wake-up |
| PollSpec.ApplyFirstThenRest | libwebsockets/lib/plat/unix/unix-service.c:108-122 | trying the queued changes one by one from the front, each with its own outcome, is trying them all in order |
| PollSpec.DrainedPolloutIff | libwebsockets/lib/plat/unix/unix-service.c:108-122 | after the drain a descriptor has POLLOUT if and only if it had, or some queued request for it was not dropped, and no later change that was not dropped clears it |
| PollSpec.AQueuedRequestCanBeDropped | libwebsockets/lib/plat/unix/unix-service.c:108-122 | an accepted and queued request that leaves nothing in the table |
| PollSpec.InsertGetsInIff | libwebsockets/lib/core/pollfd.c:229-291 | a descriptor gets in if and only if fewer than the limit are in and it is below the largest, is then polled for input, and nobody else comes, goes or has events changed but for listeners' POLLIN |
| PollSpec.RemoveTakesOutOne | libwebsockets/lib/core/pollfd.c:293-378 | a removal takes out exactly its descriptor, unless that is above the largest, and touches nobody else but for listeners' POLLIN |
| PollSpec.TheTableIsWhoGotIn | libwebsockets/lib/core/pollfd.c:229-378 | over every run the table holds exactly the descriptors that the events say got in and have not been removed |
| PollSpec.InsertKeepsGated | libwebsockets/lib/core/pollfd.c:229-291 | inserting a connection keeps listeners accepting exactly while there is room |
| PollSpec.RemoveKeepsGated | libwebsockets/lib/core/pollfd.c:293-378 | so does removing one |
| PollSpec.ListeningKeepsGatedIffThereIsRoom | libwebsockets/lib/roles/http/server/server.c:283-289 | so does registering a listener, if and only if it finds room for one connection more |
| PollSpec.AListenerCanComeTooLate | libwebsockets/lib/roles/http/server/server.c:283-289 | the first listener in a table of two is polled for connections with no room for one |
| PollSpec.RunKeepsInv | libwebsockets/lib/core/pollfd.c:208-378 | every run whose listeners find room keeps the gating and the limit |
| PollSpec.ListenersAcceptExactlyWhileThereIsRoom | libwebsockets/lib/core/pollfd.c:208-378 | after every such run from an empty table a listener polls for connections if and only if the table is below limit - 1 |
| PollTable.Pt.constructor | libwebsockets/lib/core/pollfd.c:229-291 | an empty table, array and lookup agreeing |
| PollTable.Pt.ChangePollfd | libwebsockets/lib/core/pollfd.c:24-201 | array, lookup and back-pointers stay mutually inverse, and the change is made, left active, queued or, without memory, dropped with -1 |
| PollTable.Pt.TryChange | libwebsockets/lib/core/pollfd.c:380-407 | the same for a connection with a protocol, behind the LOCK_POLL callback, which can refuse it, and the UNLOCK_POLL callback, whose failure comes too late; without a protocol nothing happens and 0 is returned |
| PollTable.Pt.CallbackOnWritable | libwebsockets/lib/core/pollfd.c:424-463 | on a registered connection that can still write a wake-up is then to come if and only if one was or the request gets through, whatever the drain ahead does; when a returned 1 can be relied on; return values for the other cases |
| PollTable.Pt.BeginHandling | libwebsockets/lib/core/service.c:61-62 | handling_pollout is set and leave_pollout_active cleared, in the connection and in the specification |
| PollTable.Pt.EndHandling | libwebsockets/lib/core/service.c:162 | handling_pollout is cleared in both |
| PollTable.Pt.ForgetLeave | libwebsockets/lib/core/service.c:177 | leave_pollout_active is cleared in both |
| PollTable.Pt.AcceptModulation | libwebsockets/lib/core/pollfd.c:208-226 | every vhost's registered listener, and nothing else, has POLLIN switched |
| PollTable.Pt.Register | libwebsockets/lib/core/pollfd.c:229-291 | the new entry goes last and table, lookup and back-pointers stay mutually inverse |
| PollTable.Pt.Unregister | libwebsockets/lib/core/pollfd.c:293-357 | exactly the one descriptor and its events go, the moved last entry's back-pointer follows it, also when the entry removed is the last |
| PollTable.Pt.Insert | libwebsockets/lib/core/pollfd.c:229-291 | refusals, callback failures and gating as specified, the three structures mutually inverse |
| PollTable.Pt.Remove | libwebsockets/lib/core/pollfd.c:293-378 | likewise for removal, including an unregistered connection |
| PollTable.Pt.Listen | libwebsockets/lib/roles/http/server/server.c:283-299 | a listener that gets in and listens is the specification's step; one that does not is no listener, and whether it stays in the table depends on which callback failed |
| PollTable.Pt.Unlisten | libwebsockets/lib/core/libwebsockets.c:181-182 | a freed listener is no vhost's listener any more, and the others still are |
| PollTable.Pt.ListenerAcceptsExactlyWhileThereIsRoom | libwebsockets/lib/core/pollfd.c:208-378 | in a table that has followed a run whose listeners found room, a registered listener's own slot has POLLIN exactly while fewer than limit - 1 slots are used |
| PollTable.Pt.ApplyFirst | libwebsockets/lib/plat/unix/unix-service.c:108-122 | a queued change names a slot, that slot still holds the descriptor it was made for, and the change is made there unless it is dropped |
| PollTable.Pt.LeavePoll | libwebsockets/lib/plat/unix/unix-service.c:88-124 | coming out of poll() tries every queued change once, in order, each with its own outcome, and leaves the list empty |
| Pollout.SendLosesIff | libwebsockets/lib/core/output.c:166-205 | a send from any callback or from the drain loses a wake-up if and only if it starts a backlog with POLLOUT off and its request fails |
| Pollout.ActionLosesIff | libwebsockets/lib/core/service.c:53-229 | a statement of the writable event, of the way out of poll() or of another thread's request loses a wake-up if and only if it is such a send, or the event of a handshaking client with a callback asked for, or the refusal of the last queued request |
| Pollout.OnlyACallbackSettles | libwebsockets/lib/core/service.c:53-229 | a request by anyone makes a callback owed, and nothing but a callback makes it no longer so |
| Pollout.RunLosesIff | libwebsockets/lib/core/service.c:53-229 | an interleaving keeps every wake-up at every moment if and only if it has no such step |
| Pollout.NoWakeUpIsLostIff | libwebsockets/lib/core/service.c:53-229 | from the start, in every interleaving, a live connection with a backlog always has POLLOUT on and a callback somebody asked for is always still to come, if and only if there is no such step |
| Pollout.AFailedRequestStrandsABacklog | libwebsockets/lib/core/output.c:166-205 | one send after which there is a backlog and nothing to wake it |
| Pollout.AHandshakeDropsACallback | libwebsockets/lib/core/service.c:180-185 | a run in which a handshaking client's callback is dropped |
| Pollout.ARefusedDrainDropsACallback | libwebsockets/lib/plat/unix/unix-service.c:108-122 | a run in which another thread's accepted and queued request is dropped |
| Pollout.ActionsAreTableSteps | libwebsockets/lib/core/pollfd.c:24-201 | every action on a live connection does to POLLOUT, the two flags and the change list what the poll table's own operations do |
| Pollout.WakesIff | libwebsockets/lib/core/pollfd.c:24-201 | the table's wake-up for the connection is to come if and only if POLLOUT is on or a queued request is not dropped |
| Base64.EncodeTableIsTheAlphabet | libwebsockets/lib/misc/base64-decode.c:45-48 | the two encode tables are tables 1 and 2 of RFC 4648 |
| Base64.ValueOfLetter | libwebsockets/lib/misc/base64-decode.c:45-50 | the decode table inverts both encode tables |
| Base64.OnlyLettersHaveValues | libwebsockets/lib/misc/base64-decode.c:49-50 | and has a value for no other character |
| Base64.ShiftsAreDigits | libwebsockets/lib/misc/base64-decode.c:72-81 | the encoder's shifts, masks and ors are the four 6-bit groups of 24 bits |
| Base64.EncodingLength | libwebsockets/lib/misc/base64-decode.c:52-92 | the encoding of n bytes is 4 * ceil(n / 3) characters |
| Base64.EncodingByQuartets | libwebsockets/lib/misc/base64-decode.c:58-84 | the encoder's groups of four, padded ones included, make up the encoding of RFC 4648 |
| Base64.EncodeGroups | libwebsockets/lib/misc/base64-decode.c:58-84 | the loop writes the whole encoding, or fails because it does not fit, and touches nothing beyond |
| Base64.EncodeString | libwebsockets/lib/misc/base64-decode.c:52-92 | it succeeds if and only if out_size is at least 4 * ceil(n / 3) + 2, leaves exactly the encoding and a NUL, and never writes at or past out_size |
| Base64Decoder.ForeignCharactersAreSkipped | libwebsockets/lib/misc/base64-decode.c:127-138 | characters of neither alphabet anywhere just before one that is make no difference |
| Base64Decoder.DecodingStaysInBounds | libwebsockets/lib/misc/base64-decode.c:114-176 | whatever the text and the uninitialised quad, every byte and the NUL are below out_size |
| Base64Decoder.ReturnedLengthIsExactUnlessLonePad | libwebsockets/lib/misc/base64-decode.c:114-176 | a decode that succeeds returns the number of bytes written, or one less exactly after a '=' in a group of its own |
| Base64Decoder.ALonePadIsMiscounted | libwebsockets/lib/misc/base64-decode.c:114-176 | "AAAA=" gives three bytes and returns two |
| Base64Decoder.BytesOfDigits | libwebsockets/lib/misc/base64-decode.c:160-165 | the decoder's shifts, cut to 8 bits, give back the one, two or three bytes of a group |
| Base64Decoder.DecodingUndoesEncoding | libwebsockets/lib/misc/base64-decode.c:114-176 | for all data, both alphabets, padding or none and any uninitialised quad, decoding an encoding gives back the data if out_size is at least n + 2 and fails otherwise |
| Base64Decoder.ReadValue | libwebsockets/lib/misc/base64-decode.c:127-138 | the innermost loop takes exactly one token off the text |
| Base64Decoder.ReadQuad | libwebsockets/lib/misc/base64-decode.c:122-145 | the quad loop takes up to four tokens and keeps the quad's stale entries where there was no value |
| Base64Decoder.WriteQuad | libwebsockets/lib/misc/base64-decode.c:160-165 | the counted values, and nothing after them, are written |
| Base64Decoder.DecodeGroups | libwebsockets/lib/misc/base64-decode.c:120-170 | the loop computes the specified decoding and touches nothing at or past out_size |
| Base64Decoder.DecodeString | libwebsockets/lib/misc/base64-decode.c:114-176 | return value, bytes and NUL are those of the specified decoding |
| SelectionSort.StableSortIsUnique | libwebsockets/plugins/protocol_esp32_lws_scan.c:300-332 | best first and stable determines the result, so the sort is pinned down by its properties |
| SelectionSort.SortIsStable | libwebsockets/plugins/protocol_esp32_lws_scan.c:300-332 | the specified sort is best first, stable and a permutation |
| SelectionSort.FindWorst | libwebsockets/plugins/protocol_esp32_lws_scan.c:312-321 | the scan finds the last of the worst entries, or nothing if every entry is above zero |
| SelectionSort.MoveWorst | libwebsockets/plugins/protocol_esp32_lws_scan.c:322-331 | moving that entry to the front of the new list keeps the whole a stable permutation |
| SelectionSort.SelectionSort | libwebsockets/plugins/protocol_esp32_lws_scan.c:306-332 | with no entry above zero the loop ends with the stable sort |
| SelectionSort.SortingEndsIffNoEntryIsPositive | libwebsockets/plugins/protocol_esp32_lws_scan.c:306-332 | the loop empties its list in as many passes as entries if and only if no entry is above zero, and never otherwise |
| WifiScan.MergedStaysWithin | libwebsockets/plugins/protocol_esp32_lws_scan.c:274-279 | adding a sample, with the halving of sum and count, keeps the sum within the bounds of its samples and the count within 1 to 128; what the sum is exactly is WifiReference.TotalOneMore |
| WifiScan.AverageIsBetween | libwebsockets/plugins/protocol_esp32_lws_scan.c:250-257 | the average lies between the lowest and the highest sample |
| WifiScan.TrimDropsOnlyAWorst | libwebsockets/plugins/protocol_esp32_lws_scan.c:286-294 | trimming a full list drops one entry, no better than any that is kept |
| WifiScan.UniqueIffAsManyKeys | libwebsockets/plugins/protocol_esp32_lws_scan.c:270-283 | no access point is listed twice exactly when there are as many keys as entries |
| WifiScan.SampleKeepsInv | libwebsockets/plugins/protocol_esp32_lws_scan.c:264-335 | every sample, known or new, with memory or without, keeps the list without repeats, within the limit and best first |
| WifiScan.KeyOf | libwebsockets/plugins/protocol_esp32_lws_scan.c:376-377 | a record is of the access point with its bssid and the first 31 characters of its ssid, or all of a shorter one |
| WifiScan.ScansFollowOn | libwebsockets/plugins/protocol_esp32_lws_scan.c:366-380 | one scan after another leaves what one run of all their samples would |
| WifiScan.ApList.InsertTrim | libwebsockets/plugins/protocol_esp32_lws_scan.c:264-335 | the search, trim, insert and sort leave the specified list, and fail only for a newcomer without memory |
| WifiScan.ApList.Trim | libwebsockets/plugins/protocol_esp32_lws_scan.c:286-294 | the in-place trim leaves the first entries up to one less than the limit |
| WifiScan.ApList.Accumulate | libwebsockets/plugins/protocol_esp32_lws_scan.c:366-380 | the loop takes in the records in order, each with its own luck in allocation |
| WifiScan.ApList.ScanFinished | libwebsockets/plugins/protocol_esp32_lws_scan.c:350-380 | at most the first ten records of a scan are taken in |
| WifiScan.NonPositiveSortsEnd | libwebsockets/plugins/protocol_esp32_lws_scan.c:366-380 | every sort of a run without positive signal strengths comes to an end |
| WifiReference.TotalOneMore | libwebsockets/plugins/protocol_esp32_lws_scan.c:274-279 | the closed form of an entry's sum and count, the plain sum up to 128 samples and after that half of what was there at each halving, follows the code's halve-then-add |
| WifiReference.TheListIsWhatWasSeen | libwebsockets/plugins/protocol_esp32_lws_scan.c:264-335 | over every run of samples the list is, entry for entry and in order, what the records of each access point since it came onto the list amount to: their sum and count, with the halving from the 129th on, and the first one's channel and authentication mode |
| WifiReference.HistoriesAreTheLatest | libwebsockets/plugins/protocol_esp32_lws_scan.c:264-335 | those records are the latest of all there have been of that access point, with none left out |
| WifiReference.SummaryStaysWithin | libwebsockets/plugins/protocol_esp32_lws_scan.c:274-279 | however often it is halved, an entry's sum stays within its lowest and highest record times its count |
| WifiReference.KnownApsStayInOrder | libwebsockets/plugins/protocol_esp32_lws_scan.c:264-335 | over every run of non-positive samples: unique keys, at most the limit, best first, counts in 1 to 128, every average between its lowest and highest record, and up to 128 records the plain sum and count of them |
| WifiReference.NewcomerIsListed | libwebsockets/plugins/protocol_esp32_lws_scan.c:284-304 | a newcomer with memory is on the list afterwards, with its record's own signal strength, channel and authentication mode, whoever has to go for it |
| WifiReference.NothingIsForgotten | libwebsockets/plugins/protocol_esp32_lws_scan.c:264-335 | over every run with memory and no more access points than the limit, every one heard of is listed, with every record of it |
| Crlf.EmittedConserves | libwebsockets/test-apps/test-sshd.c:504-523 | what one read leaves written and owed is what was owed and the expanded data |
| Crlf.EmittedFitsIff | libwebsockets/test-apps/test-sshd.c:482-523 | what is written fits the room offered if and only if it is not the case that one byte was offered and a 0x0d owed |
| Crlf.SingleByteOnlyAtTheWrap | libwebsockets/lib/misc/lws-ring.c:122-145 | a single byte is offered if and only if the head is on the last slot and two or more are free |
| Crlf.WrittenWaits | libwebsockets/lib/misc/lws-ring.c:147-151 | bytes written at the head within the room offered, and the head bumped, wait in the ring after what waited before |
| Crlf.ConsumedTakes | libwebsockets/lib/misc/lws-ring.c:194-248 | what is asked for, or all there is, comes off the front of what waits, across the wrap or not |
| Crlf.OverrunsIff | libwebsockets/test-apps/test-sshd.c:474-523 | in every state a read overruns its room if and only if a 0x0d is owed, to whichever channel, and there is a single byte of room |
| Crlf.OverrunTakesOver | libwebsockets/test-apps/test-sshd.c:474-523 | while a 0x0d is owed only at even positions, it is then the other channel's that is taken over |
| Crlf.StepKeepsOwedAtEven | libwebsockets/test-apps/test-sshd.c:474-523 | every step that takes over no 0x0d keeps it owed only at even positions |
| Crlf.StepKeepsExpanding | libwebsockets/test-apps/test-sshd.c:474-535 | every such step adds to what a channel's reader gets exactly the expansion of what was read from it, but for a 0x0d it is owed |
| Crlf.NoOverrunUnlessTakenOver | libwebsockets/test-apps/test-sshd.c:474-523 | over every run of reads and sends of two rings of 1024 bytes that takes over no 0x0d, no read overruns its room |
| Crlf.ChannelsAreExpandedUnlessTakenOver | libwebsockets/test-apps/test-sshd.c:474-535 | over every run of reads and sends, what has been sent on of each channel and what waits in its ring is always its own input with 0x0d after each 0x0a, but for one it is owed, if and only if no read comes while the other channel is owed one |
| Crlf.OneChannelIsExpanded | libwebsockets/test-apps/test-sshd.c:474-535 | in particular when only one channel is read, and then no read overruns |
| Crlf.TakingOverHappens | libwebsockets/test-apps/test-sshd.c:474-535 | a run after which stderr has stdout's 0x0d |
| Crlf.AnOverrunHappens | libwebsockets/test-apps/test-sshd.c:474-535 | a run whose last read overruns, so that stderr's reader gets a stale byte |
| Crlf.AnOverrunOfItsOwnHappens | libwebsockets/test-apps/test-sshd.c:474-535 | a run whose last read overruns and takes nothing over, after an earlier one did |
| Crlf.ByteRing.NextLinearInsertRange | libwebsockets/lib/misc/lws-ring.c:122-145 | the room offered is the specification's |
| Crlf.ByteRing.Consume | libwebsockets/lib/misc/lws-ring.c:194-248 | the one or two copies are the first bytes that wait, and the tail moves past them |
| Crlf.Priv.constructor | libwebsockets/test-apps/test-sshd.c:97-124 | two empty rings and nothing owed |
| Crlf.Priv.ChildProcessIo | libwebsockets/test-apps/test-sshd.c:455-540 | the expanding loop through the write pointer, the added 0x0d and the bumped head are the specified step on the ring's own storage |
| Crlf.Priv.Tx | libwebsockets/test-apps/test-sshd.c:166-188 | sending on is the specified step |
| Chunked.ChunkFitsTheBuffer | libwebsockets/lib/core/dummy-callback.c:243-258 | a chunk that passes the size check fits the buffer, and its size line is not cut |
| Chunked.ReadChunk | libwebsockets/lib/core/dummy-callback.c:253-258 | a reader of section 4.1 of RFC 7230 takes a non-empty chunk's data and goes on with the rest, readable or not, and stops at an empty one |
| Chunked.ReadChunks | libwebsockets/lib/core/dummy-callback.c:253-258 | a reader takes all the data of a sequence of non-empty chunks, and stops early at an empty one |
| Chunked.RunFollows | libwebsockets/lib/core/dummy-callback.c:47-82 | over every run of pieces and closes, their writes failing or not, the wire holds exactly the pieces that the events say were accepted, in order, with one terminator where the first close came if its write succeeded over http/1.1 |
| Chunked.WrittenBeforeAndAfter | libwebsockets/lib/core/dummy-callback.c:243-270 | the accepted pieces, those neither refused for their size nor failed, are those before the first close and then those after it |
| Chunked.ChunkedResponseIsReadBackIff | libwebsockets/lib/core/dummy-callback.c:243-265 | over every run a chunked response is read back as exactly the pieces that the events say were accepted, with nothing left over, if and only if the first close wrote the terminator, none was empty and none came after it, or it did not and the last of them, and no other, was empty |
| Chunked.AnEmptyPieceEndsTheBody | libwebsockets/lib/core/dummy-callback.c:243-265 | a response that a reader ends at its empty piece, leaving the next one over |
| Chunked.UnchunkedResponseIsExactIff | libwebsockets/lib/core/dummy-callback.c:47-82 | an unchunked response is exactly the pieces that the events say were accepted, joined, if and only if it goes over http/2 or the first close did not write |
| Chunked.TheTerminatorFollowsAPlainBody | libwebsockets/lib/core/dummy-callback.c:47-82 | a one-character body under a content-length is followed by the terminator |
| Chunked.Proxy.ReceiveClientHttpRead | libwebsockets/lib/core/dummy-callback.c:238-270 | the piece is framed and written as specified, or -1 returned exactly when it is to be chunked and longer than 8160 characters or the write fails |
| Chunked.Proxy.StreamClose | libwebsockets/lib/core/dummy-callback.c:47-82 | the terminator is written on the first close only, and -1 returned exactly when that write fails |

## Left out

- Linked lists (sessions, instances, segments, access points) are sequences; pointer manipulation and aliasing inside them are not modelled.
- Ring positions are counted in slots; two lemmas tie the byte formulas to them. Consuming with a copy out is modelled only for rings of single bytes with one tail.
- Mirror callbacks are atomic and on one service thread; a failed write and the close it leads to are one step.
- The status plugin's JSON text and its buffer limits: each item sent is a token. `count_live_pss` is never decremented, so it counts all that ever connected and is not the length of the list.
- TLS, UDP, http/2 streams, compression and file descriptors that are not sockets in `lws_issue_raw()`.
- Pollout: cgi, compression and roles with a perform_user_POLLOUT() of their own take other ways through the same function; platforms whose poll() writes back `events`, undoing a change made meanwhile, are not modelled; Pollout.ActionsAreTableSteps is for a change list with only this connection's requests on it.
- PollTable: event-loop back ends and more than one service thread; insertion and removal are on the service thread, outside poll().
- Base64Decoder: `text` is the input up to its length or first NUL.
- WifiScan.ApList.InsertTrim: requires that no average in the list to be sorted is above zero, because the loop does not end otherwise, as SelectionSort.SortingEndsIffNoEntryIsPositive states; a method here has to end.
- WifiScan.ApList.ScanFinished: requires the same of each of its sorts, for the same reason.
- SelectionSort.SelectionSort: requires the same, for the same reason.
- The hardware and flash access of the access point plugin.
- Crlf: a byte written past a ring's storage is written nowhere; what else it might damage is not modelled. Echo, which the application never turns on, and failing reads are not modelled either.
- Chunked: headers and http/2 framing; a write that fails puts nothing on the wire.
- Statistics, logging, configuration, connection setup and teardown, interfaces that are only headers here, the JavaScript and the demo programs.
