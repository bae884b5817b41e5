# Verification of the turbine load balancer and its kTLS handover

A Dafny model of the parts of turbine, a TCP/TLS load balancer, in which ordering,
buffering and concurrency decide correctness, and proofs about that model:

- the handover of a TLS connection from user space to the kernel: record framing under
  arbitrary short reads, corking at a record boundary, draining, and the exported record
  number, up to the statement that upstream receives exactly the peer's plaintext;
- the stream used after the handover: replay of drained bytes, filtering of control
  records, and the closing protocol;
- the supervisor that reconciles listeners with each configuration, its runners, and the
  counter that gates process exit, in every interleaving;
- the socket-map key computed in user space and in the eBPF program, round-robin fairness,
  routing from the configuration file, and concurrent reloads.

`dafny verify dfyconfig.toml` checks the whole project.

## How it is modelled

Bytes come from a source described by everything the peer ever sends and by a script of
turns (stall, fail, give up to so many bytes). Statements range over every wire stream and
every script, hence over every chunking and schedule. A ready read returns at least one byte
unless there is no room or the peer has nothing left, which is what end of stream means.
When the script is over the byte source stays pending forever.

Record headers decode when a given predicate on their type and version bytes says so; the
length field is always read. Decryption is a given function of sequence number and record.
`CorkStream` requires room in the caller's buffer for the header bytes a poll hands out,
without which the program aborts (ktls/src/cork_stream.rs:95 and 108); five free bytes are
always enough. Of `header_buf` the model keeps the filled part. Accepting and reading through
the session follow tokio-rustls 0.24: the byte source is polled only while no plaintext is
buffered, and a read without room does not wait.

Interleaved parts (listeners, task counter, round robin, reload) are transition systems: a
function applies one event, events come in any order, and an event that does not fit the
current state changes nothing. The watch channel reports an unseen rule before it reports
that its sender is gone; an accept that is not ready means an empty queue; a failed accept
takes no connection off the queue. Opaque values (addresses, rules, connections,
configurations, backends) are numbers.

The drain buffer of 128 KiB (ktls/src/lib.rs:245) always suffices: one poll completes at most
one record, so a session that polls only while it holds no plaintext never has more than two
records' plaintext to hand over, less than the buffer holds (`LazySessionFits`). This is why
`TerminateTls` delivers the whole plaintext without a condition on it. What `ConfigKtlsServer`
says of plaintext that does not fit concerns only sessions polled otherwise; `EagerPolling`
has runs of such a session that lose bytes.

Where the code does not do what it is meant to do:

- ktls/src/ktls_stream.rs:116 compares the absolute index with the length of the slice that
  remained before the read, so drained bytes can be dropped. `ReplayDropsIff` says exactly
  which read drops them, `ReplayIsCompleteIff` which sequences of buffer sizes replay
  everything, and `ConstantSizeReplaysAllIff` that one buffer size does so exactly when two
  buffers hold all drained bytes. turbine itself takes the drained bytes out before reading.
- ktls/src/cork_stream.rs:133-157 answers with an empty read behind the header of an empty
  record, which a reader takes for the end of the stream (`EmptyRecordLooksLikeTheEnd`).
  `EmptyReadMeansAtRestIff` says when an empty read is final; once corked it always is.
- ktls/src/ktls_stream.rs:228-232 answers with an empty read to an alert that does not close
  (`WarningLooksLikeTheEnd`). `FalseEndIff` says exactly which empty reads are not the end.
- turbine/src/main.rs:149 sees neither tasks that are spawned but not yet started
  (`UnstartedTaskIsNotWaitedFor`) nor connections in accept queues that are still to be
  drained (`QueuedConnectionIsNotWaitedFor`). `LeavesNothingBehindIff` says that these two are
  all that a wait which ends at zero can leave behind.
- turbine/src/config/mod.rs:127 puts the first watcher in place after it has begun to watch, so
  it can replace one that a handler has just built (`FirstWatcherCanOverwrite`).
  `WatcherMatchesLastSentIff` says that this is the only way for the watcher not to match the
  configuration sent last, and `InstallMends` that the next reload mends it.
- turbine/src/config/mod.rs:192-196 publishes in the order in which handlers take the lock, so
  an older configuration can be published last (`StaleConfigurationCanWin`).
  `NewestConfigurationWinsIff` says that the newest wins throughout exactly when no handler
  takes the lock after one that parsed later.

## Model

| member | source | states |
|---|---|---|
| Octets.BigEndianRoundTrip | ktls/src/ffi.rs:150 | a number written as so many big-endian bytes reads back as itself if and only if it fits |
| Framing.HeaderFields | ktls/src/cork_stream.rs:208-214 | a header decodes by its type and version bytes, and its length is the number written big-endian in the last two |
| Framing.SplitLosesNothing | ktls/src/cork_stream.rs:208-214 | cutting bytes into whole records loses nothing and leaves no whole record behind |
| Framing.SplitUndoesFlatten | ktls/src/cork_stream.rs:208-214 | records put one behind the other are cut apart again |
| Framing.ParserAgreesWithSplitter | ktls/src/cork_stream.rs:103-152 | a byte-at-a-time record parser and a splitter into whole records agree on every byte string |
| ReadBuffers.ReadBuf.PutSlice | ktls/src/cork_stream.rs:109 | appends to the filled part of the caller's buffer |
| ReadBuffers.ReadBuf.Scribble | ktls/src/ktls_stream.rs:145-148 | writing a control record into the free part leaves the filled part as it was |
| ByteSource.Read | ktls/src/cork_stream.rs:85 | an inner poll returns the next bytes of the wire in order, at most as many as fit, and nothing only for want of room or at the end |
| CorkStreams.CorkStream.constructor | ktls/src/cork_stream.rs:41-50 | starts uncorked at a record boundary |
| CorkStreams.CorkStream.Poll | ktls/src/cork_stream.rs:58-166 | the stream and the caller's buffer end up as the poll function has them, of which the lemmas below speak |
| CorkStreams.CorkStream.HeaderArm | ktls/src/cork_stream.rs:68-132 | loops until the header is complete, the stream ends or the byte source is not ready |
| CorkStreams.CorkStream.OneHeaderTurn | ktls/src/cork_stream.rs:71-131 | one turn of that loop: stop when corked at a boundary, cut header, complete header, or more to read |
| CorkStreams.CorkStream.PayloadArm | ktls/src/cork_stream.rs:133-158 | reads no further than the end of the record |
| CorkStreams.PollIsGood | ktls/src/cork_stream.rs:68-164 | every poll keeps bytes handed out plus held header bytes equal to bytes pulled, and the state equal to the parser's on them; a corked poll passes no boundary |
| CorkStreams.RunKeepsFraming | ktls/src/cork_stream.rs:58-166 | the same over whole runs: once corked, bytes pulled never pass the end of the record in progress |
| CorkStreams.StoppedForever | ktls/src/cork_stream.rs:71-77 | corked at a boundary, every later poll is an empty read without I/O |
| CorkStreams.ChunkingIndependence | ktls/src/cork_stream.rs:69-163 | any two runs that pulled the same bytes differ at most in header bytes still held, and if both or neither met the end inside a header they handed out the same bytes and are in the same framing state |
| CorkStreams.PollProgress | ktls/src/cork_stream.rs:82-157 | a ready poll that is not stopped moves forward, is at the end of the stream, or closes an empty record |
| CorkStreams.ReadyPollNearsBoundary | ktls/src/cork_stream.rs:68-158 | each ready poll of a corked stream with a boundary ahead gets nearer to it without passing it, or stops |
| CorkStreams.CorkReachesBoundary | ktls/src/cork_stream.rs:68-158 | so it stops after at most one ready poll per byte of distance, plus one |
| CorkStreams.PollUsesTurns | ktls/src/cork_stream.rs:82-163 | a poll uses at most one ready turn of the socket for each byte it gets ahead, one more for a cut header or an empty read, and fails only if the socket does |
| CorkStreams.PollFollowsTheScript | ktls/src/cork_stream.rs:82-163 | a poll is an error iff the last turn it used fails, pending iff that stalls or the script is over with the header or everything missing, and otherwise ready; it gives up at no short read |
| CorkStreams.PollTakesAll | ktls/src/cork_stream.rs:133-163 | behind a header a ready read takes all that the turn, the room and the record allow |
| CorkStreams.ReadIsEmptyIff | ktls/src/cork_stream.rs:71-157 | a ready read is empty iff the stream is stopped, at its end, or behind the header of an empty record |
| CorkStreams.EmptyReadMeansAtRestIff | ktls/src/cork_stream.rs:133-157 | an empty ready read means that nothing more is pulled iff the stream is corked or not behind the header of an empty record with more to come |
| CorkStreams.EmptyRecordLooksLikeTheEnd | ktls/src/cork_stream.rs:133-157 | every empty record ahead of more bytes gives an uncorked stream an empty ready read with those bytes unread |
| TlsSessions.EventKeepsInv | ktls/src/cork_stream.rs:20-32 | the session opens exactly the whole records it was fed, in order, whatever the chunking and the cork moment |
| Handover.NoBoundaryNoRecord | ktls/src/cork_stream.rs:16-26 | bytes that end no record complete no record |
| Handover.AlignedSplitsTheWire | ktls/src/cork_stream.rs:16-26 | at a record boundary, the records of the whole wire are those handed out followed by those not yet pulled |
| Handover.HandoverConserves | ktls/src/lib.rs:205-218 | at a record boundary, bytes read, bytes left in user space and bytes the kernel decrypts from the next record number on are the whole plaintext in order |
| Handover.CorkedStaysBefore | ktls/src/lib.rs:211-212 | whatever happens after the cork is set, the session never passes the boundary then ahead, stands between records only on reaching it, and hands out a prefix of the plaintext before it |
| Handover.IntactIff | ktls/src/lib.rs:205-218 | a handover loses, doubles or reorders nothing iff that boundary is reached and all plaintext before it is read |
| Handover.EveryRunHandsOverIntactIff | turbine/src/main.rs:318-326 | the same for every wire stream, schedule, run before the cork and run after it |
| Polling.PollCompletesOne | ktls/src/cork_stream.rs:68-158 | what one poll hands out completes at most the record in progress |
| Polling.LazyRunIsLean | ktls/src/cork_stream.rs:68-158 | so in every run that polls only while no plaintext is held, never more than one record's plaintext is held |
| Polling.OneRecordAhead | ktls/src/cork_stream.rs:68-158 | and from any cork moment at most one more record is completed up to the boundary ahead |
| KtlsSetup.TlsStream.Read | ktls/src/lib.rs:250-257 | contract of reading through the session: plaintext in order, end of stream only when nothing is left and, if corked, the stream is at rest, failure iff the socket fails or a header does not decode, and waiting forever only if the socket falls silent |
| KtlsSetup.Accept | turbine/src/main.rs:318 | contract of accepting: the handshake is done, nothing is read and at most one record's plaintext is held; refused only if the peer or the socket fails, pending only if the socket is ready too rarely |
| KtlsSetup.DrainOutcome | ktls/src/lib.rs:248-268 | the plaintext before the boundary ahead decides what a drain gets: all of it, at that boundary, if it fits, and otherwise what the buffer holds |
| KtlsSetup.LazySessionFits | ktls/src/lib.rs:245 | for every wire stream, schedule, cork moment and run that polls only while no plaintext is held, it fits |
| KtlsSetup.FillBuffer | ktls/src/lib.rs:244-268 | reads into the buffer until it is full, the session is dry, or a read fails or never completes |
| KtlsSetup.Drain | ktls/src/lib.rs:243-278 | a corked session hands out the plaintext before the boundary ahead as far as 128 KiB hold it, and reaches that boundary if it fits; it fails iff the socket fails or a header does not decode, and never ends only if the socket is ready too rarely |
| KtlsSetup.ExportSeq | ktls/src/ffi.rs:150 | the record number is exported as eight bytes that decode to it iff it fits in 64 bits |
| KtlsSetup.CorkAndDrain | ktls/src/lib.rs:211-212 | sets the cork and drains what is ahead of the next boundary |
| KtlsSetup.ConfigKtlsServer | ktls/src/lib.rs:205-218 | configured only with the keys installed, no failure and no undecodable header; the kernel then starts with the next record number, and drained bytes followed by its decryption of the unread wire are the plaintext of the whole connection iff the plaintext before the boundary ahead fits and that boundary is reached, which fitting plaintext ensures; when it gives up and when it stays pending |
| EagerPolling.EagerPollingLosesBytes | ktls/src/lib.rs:245 | runs of a session polled although it holds plaintext, which the buffer could not hold |
| EagerPolling.NineRecordsLoseBytes | ktls/src/lib.rs:245 | nine records of 16 KiB polled that way |
| EndToEnd.UpstreamReceivesThePlaintext | turbine/src/main.rs:321-326 | after a seamless handover, drained bytes followed by what any run reads are a prefix of the peer's plaintext, and all of it once every record is read |
| EndToEnd.AcceptAndConfigure | turbine/src/main.rs:318-319 | from a new socket to one the kernel has taken over at a record boundary, with all plaintext before it drained |
| EndToEnd.TakeOver | turbine/src/main.rs:320-326 | the drained bytes go upstream, or the connection is closed if they cannot, and a new stream without them is started |
| EndToEnd.TerminateTls | turbine/src/main.rs:318-326 | copying only with the keys installed and drained bytes written; upstream has the plaintext before the boundary, the stream reads the records behind it, and every run of it delivers the plaintext of the whole connection; when it is given up and when it stays pending |
| KernelSocket.Read | ktls/src/ktls_stream.rs:126-131 | contract of reading a kTLS socket: the next bytes of the application record at the front, in order, and never those of a control record |
| KtlsStreams.KtlsStream.constructor | ktls/src/ktls_stream.rs:34-41 | starts open with the drained bytes still to replay |
| KtlsStreams.KtlsStream.Poll | ktls/src/ktls_stream.rs:91-265 | the stream and the caller's buffer end up as the poll function has them |
| KtlsStreams.KtlsStream.IntoRaw | ktls/src/ktls_stream.rs:44-46 | gives back the drained bytes whole, and the socket |
| KtlsStreams.KtlsStream.PollDrained | ktls/src/ktls_stream.rs:108-124 | one read of the drained bytes, with the end test of line 116 |
| KtlsStreams.KtlsStream.PollControl | ktls/src/ktls_stream.rs:141-260 | a fetched control record never reaches the filled part of the buffer, and a closing alert closes both directions and answers it |
| KtlsStreams.KtlsStream.Write | ktls/src/ktls_stream.rs:272-282 | passes nothing to the socket once a close_notify was attempted |
| KtlsStreams.KtlsStream.Shutdown | ktls/src/ktls_stream.rs:288-305 | attempts a close_notify unless one was attempted before, and shuts the socket down unless that failed |
| KtlsStreams.EventKeepsFiltered | ktls/src/ktls_stream.rs:98-264 | every poll keeps what was read equal to a prefix of the drained bytes followed by the application bytes handed over so far |
| KtlsStreams.ReadsOnlyApplicationBytes | ktls/src/ktls_stream.rs:98-264 | in every run only drained and application bytes are read, in order, none from behind a close_notify or fatal alert; the stream has ended iff it got past such an alert, or half way into any, and has then read all before it |
| KtlsStreams.ControlRecordIsTreated | ktls/src/ktls_stream.rs:165-260 | an alert closes both directions and is answered iff its description is close_notify, its level fatal, or only half of it was read; handshake and unknown records leave the flags and the read pending; change_cipher_spec aborts; none brings a byte |
| KtlsStreams.KernelReadByScript | ktls/src/ktls_stream.rs:126-131 | a read that meets no control record is pending, fails with the socket's error, or brings the next bytes |
| KtlsStreams.FetchByScript | ktls/src/ktls_stream.rs:148-163 | a failure to fetch a control record is reported, and its absence aborts |
| KtlsStreams.EndedForever | ktls/src/ktls_stream.rs:98-100 | once ended, every later read is empty and takes nothing from the kernel |
| KtlsStreams.ReplayIsReady | ktls/src/ktls_stream.rs:102-124 | drained bytes come at once, as many as fit, and without room nothing comes |
| KtlsStreams.ReadsReplay | ktls/src/ktls_stream.rs:108-124 | runs of reads replay as many drained bytes as the arithmetic of buffer sizes says |
| KtlsStreams.ReplayDropsIff | ktls/src/ktls_stream.rs:115-119 | a read from index i to j of T drops the rest iff i + j >= T and j < T |
| KtlsStreams.ReplayIsCompleteIff | ktls/src/ktls_stream.rs:108-124 | everything is replayed iff the buffer sizes reach the end without such a read |
| KtlsStreams.ConstantSizeReplaysAllIff | ktls/src/ktls_stream.rs:108-124 | with one buffer size, everything is replayed iff two buffers hold it all |
| KtlsStreams.StreamReplaysAllIff | ktls/src/ktls_stream.rs:108-124 | on the stream itself, reads of given sizes hand out all drained bytes iff they reach the end without a dropping read |
| KtlsStreams.ReplayCanLoseBytes | ktls/src/ktls_stream.rs:116 | ten drained bytes read four at a time from the stream: the last two never come out |
| KtlsStreams.FixedReplayIsComplete | ktls/src/ktls_stream.rs:116 | with a replay step that tests against the total, reads of any sizes replay everything they have room for |
| KtlsStreams.IntoRawRepeatsIff | ktls/src/ktls_stream.rs:44-46 | taking the stream apart gives the drained bytes whole, so nothing comes twice iff nothing was read |
| KtlsStreams.EventKeepsOrder | ktls/src/ktls_stream.rs:277-304 | every poll keeps the closing order and never lowers a flag |
| KtlsStreams.EveryRunClosesInOrder | ktls/src/ktls_stream.rs:210-227 | every run keeps the closing order and never lowers a flag |
| KtlsStreams.EveryStreamClosesInOrder | ktls/src/ktls_stream.rs:210-304 | in every run of a new stream: closed for reading implies closed for writing, closed for writing iff a close_notify was attempted, no data behind the first, at most one from shutdown then one from an alert |
| KtlsStreams.EveryWriteInTimeIsSent | ktls/src/ktls_stream.rs:272-282 | in every run exactly what is written before the stream is closed for writing reaches the socket, in order |
| KtlsStreams.ShutdownAttemptsClose | ktls/src/ktls_stream.rs:294-299 | every run that shuts a stream down has attempted a close_notify |
| KtlsStreams.FalseEndIff | ktls/src/ktls_stream.rs:98-264 | a ready read is empty with records left and no closing alert iff drained bytes are used up or the record at the front is an empty application record or an alert that does not close |
| KtlsStreams.WarningLooksLikeTheEnd | ktls/src/ktls_stream.rs:228-232 | a warning alert ahead of application data is such a read |
| Listener.RunKeepsInv | turbine/src/event_loop.rs:101-180 | every runner step keeps: arrivals are handlers in order plus queue, rule versions never decrease and are ones the runner had adopted, drained connections get the last rule |
| Listener.TakesUpLatest | turbine/src/event_loop.rs:102-119 | binding and adopting take up the latest rule, and a failed bind ends the runner |
| Listener.AcceptsNext | turbine/src/event_loop.rs:116-176 | with nothing unseen, polling and accepting hands the first queued connection to a handler under the latest rule, draining iff the sender is gone |
| Listener.StoppedStays | turbine/src/event_loop.rs:101-180 | a runner that has stopped does nothing more |
| Listener.SendKeepsInv | turbine/src/event_loop.rs:83-86 | so does sending a rule |
| Listener.DropKeepsInv | turbine/src/event_loop.rs:57-60 | so does dropping the sender |
| Listener.ArriveKeepsInv | turbine/src/event_loop.rs:139-141 | so does an arriving connection |
| Listener.EveryStepCounts | turbine/src/event_loop.rs:122-135 | with the sender gone, each runner step lowers a measure of unseen rule and queue length |
| Listener.ShutdownTerminates | turbine/src/event_loop.rs:112-177 | so the runner takes a bounded number of steps, two more per late arrival, in any interleaving |
| Listener.ClosedOnlyDrains | turbine/src/event_loop.rs:122-149 | with the sender gone, a runner spawns handlers in draining only, but for one accept that was under way |
| Listener.OnlyStoppedIsStuck | turbine/src/event_loop.rs:125-134 | it can only come to rest by stopping, and unless an accept failed every arrival then has its handler |
| Supervisor.EventKeepsInv | turbine/src/event_loop.rs:39-89 | every step of the loop and of every runner keeps the invariant of the whole system |
| Supervisor.SupervisorSafety | turbine/src/event_loop.rs:36-89 | in every interleaving at most one listener per address has a sender, older ones have lost it, created less dropped senders is the table size, none is open after exit, and between updates the table is the last update |
| Supervisor.ClosedForever | turbine/src/event_loop.rs:57-60 | a listener without sender never gets a rule or a sender again |
| Supervisor.ClosedListenerWindsUp | turbine/src/event_loop.rs:112-177 | in every interleaving of the whole system, a listener without sender only drains, but for one accept under way, and takes a bounded number of steps, two more per late arrival |
| Supervisor.OlderListenersOnlyDrain | turbine/src/event_loop.rs:57-82 | in every run each older listener of an address is finished or only drains, whatever happens next, and gets no rule |
| Supervisor.EveryRunnerIsFair | turbine/src/event_loop.rs:105-162 | conservation and rule order for every runner in every interleaving, and the last rule for every connection drained |
| Supervisor.AcceptedUnderFreshRule | turbine/src/event_loop.rs:116-162 | in every interleaving an accepted connection gets the rule last sent on its channel when the runner last polled for changes, or a later one |
| Supervisor.UnseenRuleComesFirst | turbine/src/event_loop.rs:113-121 | in every interleaving a runner with an unseen rule takes it or a later one up with its next two steps and accepts nothing before |
| Supervisor.ReconciliationIsExact | turbine/src/event_loop.rs:57-88 | after an update the table has exactly its addresses and rules, survivors keep their channel, exactly the new ones spawn, exactly the missing ones lose their sender |
| Supervisor.OrderDoesNotMatter | turbine/src/event_loop.rs:62 | the order of iteration only affects how new listeners are numbered |
| Supervisor.LBAppContext.Retain | turbine/src/event_loop.rs:60 | drops the sender of every address not in the update |
| Supervisor.LBAppContext.InstallAll | turbine/src/event_loop.rs:62-88 | visits every address of the update in any order |
| Supervisor.LBAppContext.Reconcile | turbine/src/event_loop.rs:57-88 | applies an update exactly, for every iteration order |
| Supervisor.LBAppContext.Exit | turbine/src/event_loop.rs:43-54 | leaving the loop drops every sender |
| ShutdownWait.CounterIsExact | turbine/src/event_loop.rs:163-168 | in every run of the whole system the counter is the number of tasks begun and not ended, so it never underflows |
| ShutdownWait.CounterIsBegunLessEnded | turbine/src/event_loop.rs:164-168 | in every run the counter is the number of tasks that began less those that ended |
| ShutdownWait.BeginsAndEnds | turbine/src/event_loop.rs:165-168 | a task that may begin then runs, and one that may end is then done |
| ShutdownWait.RunsUntilItEnds | turbine/src/event_loop.rs:164-173 | a task that began runs until it ends, and is done from then on |
| ShutdownWait.WaitByEvents | turbine/src/main.rs:128-163 | the wait begins with a signal and ends with a zero or a further signal |
| ShutdownWait.LeavesIffNoneRunning | turbine/src/main.rs:148-152 | the wait ends at a load iff no task is running at that load |
| ShutdownWait.EventKeepsInv | turbine/src/event_loop.rs:163-176 | every step of listeners, handler tasks and the wait keeps the counter equal to the running tasks, each a handler of some runner |
| ShutdownWait.LeavesNothingBehindIff | turbine/src/main.rs:143-163 | for every run that leaves at a zero: every connection that arrived is served to the end iff no task is still to start and no accept queue holds a connection |
| ShutdownWait.WoundUpLeavesNothingBehindIff | turbine/src/event_loop.rs:123-134 | if all runners stopped without a failed accept before that, only tasks still to start matter |
| ShutdownWait.UnstartedTaskIsNotWaitedFor | turbine/src/event_loop.rs:164-176 | the process leaves while an accepted connection's task has not started |
| ShutdownWait.QueuedConnectionIsNotWaitedFor | turbine/src/main.rs:148-152 | the process leaves while a connection is in an accept queue that was meant to be drained |
| SocketHash.StreamVerdictKey | splice-ebpf/src/main.rs:20-30 | mixes the ten words of a packet in order |
| SocketHash.SocketKey | turbine/src/splice_strategy/ebpf_sockmap.rs:141-202 | the user-space key is the key of the packet words the kernel shows for the same connection, on either byte order |
| SocketHash.KeysAgree | turbine/src/splice_strategy/ebpf_sockmap.rs:141-202 | both sides compute one polynomial in 31 modulo 2^32 |
| SocketHash.KeyIsPolynomial | splice-ebpf/src/main.rs:21-30 | wrapping at every step is the polynomial modulo 2^32 |
| SocketHash.KeyIsInjectiveInEachWord | turbine/src/splice_strategy/ebpf_sockmap.rs:153-201 | with the other words fixed, different words give different keys |
| SocketHash.KeyIsOntoInEachWord | turbine/src/splice_strategy/ebpf_sockmap.rs:153-201 | and every key is taken |
| SocketHash.PortsSeparateKeys | turbine/src/splice_strategy/ebpf_sockmap.rs:172-200 | connections that differ only in one port never share a key |
| SocketHash.MappedAddressSameKey | turbine/src/splice_strategy/ebpf_sockmap.rs:142-149 | an IPv4 address has the key of its mapped form |
| RoundRobin.PickForEach | turbine/src/load_balancing_strategy.rs:32-35 | successive picks follow the wrapping counter from where it stood, and distinct backends are picked equally often within the bounds below |
| RoundRobin.TicketsAreInOrder | turbine/src/load_balancing_strategy.rs:33 | however callers interleave, the k-th ticket is the counter's k-th value and decides the backend |
| RoundRobin.CallerIsServed | turbine/src/load_balancing_strategy.rs:33-34 | whatever others do between its two steps, a caller gets the backend the counter stood for when it took its ticket |
| RoundRobin.FairWithoutWrap | turbine/src/load_balancing_strategy.rs:32-35 | over any window without a wrap, backend counts differ by at most one |
| RoundRobin.FairAcrossOneWrap | turbine/src/load_balancing_strategy.rs:32-35 | across one wrap by at most two |
| RoundRobin.FairWhenDividing | turbine/src/load_balancing_strategy.rs:32-35 | by at most one across any number of wraps when the backend count divides the counter's range |
| RoundRobin.TwoIsReached | turbine/src/load_balancing_strategy.rs:33-34 | the bound of two is reached |
| RoundRobin.FairUnderInterleaving | turbine/src/config/mod.rs:72-79 | the bounds of one, two and one hold for every window of every interleaving of callers that share a rule, for tickets taken and, up to tickets outstanding, for backends served |
| Routing.LastListing | turbine/src/config/mod.rs:77-81 | the last rule of the file that lists an address |
| Routing.FindsFirstUsable | turbine/src/match.rs:28-63 | of the upstreams that load, the first that matches is found |
| Routing.ParsesIff | turbine/src/config/mod.rs:72-75 | a configuration is accepted iff every rule keeps an upstream that loads |
| Routing.CollectEntersLast | turbine/src/config/mod.rs:22-81 | an address gets the last rule that lists it |
| Routing.RoutesToFirstUsable | turbine/src/config/mod.rs:20-84 | the upstream chosen is the first in file order that loads and matches, in the last rule listing the address |
| Routing.RoutedByConnection | turbine/src/match.rs:34-60 | what each kind of match means for a connection: its name, whether a regular expression accepts it or not, the protocols it offers, its port |
| Routing.BareConnectionRouted | turbine/src/match.rs:34-60 | without name and protocols only a catch-all or the port route |
| Routing.PruningKeepsChoice | turbine/src/match.rs:34-36 | leaving out upstreams that never match and those behind the first loadable catch-all never changes the choice |
| Routing.PrunedParsesIff | turbine/src/config/mod.rs:72-75 | a pruned configuration is accepted iff every rule has an upstream that loads and can match |
| Routing.PruningKeepsRoutes | turbine/src/config/mod.rs:20-84 | and then pruning changes no route |
| Reload.EventKeepsInv | turbine/src/config/mod.rs:126-196 | every step keeps: one handler past the lock, and each configuration parsed is on its way, given up or sent, and only one of these |
| Reload.WatcherMatchesLastSentIff | turbine/src/config/mod.rs:126-196 | in every interleaving, whenever no handler is between send and install the watcher was built from the configuration sent last, all the way iff the first watcher was put in place before any send |
| Reload.StaysUntilInstall | turbine/src/config/mod.rs:127 | once in place the first watcher stays until a handler installs one |
| Reload.InstallMends | turbine/src/config/mod.rs:192-196 | and from the next install on the watcher matches in every continuation |
| Reload.FirstWatcherCanOverwrite | turbine/src/config/mod.rs:126-127 | a run in which the first watcher replaces a handler's |
| Reload.FailedHandlersPublishNothing | turbine/src/config/mod.rs:151-190 | a handler that gives up never sends a configuration or leaves a watcher, in any run |
| Reload.FailedWatchPublishesNothing | turbine/src/config/mod.rs:183-190 | so a handler whose files cannot be watched publishes nothing |
| Reload.NewestConfigurationWinsIff | turbine/src/config/mod.rs:192-196 | in every run the configuration sent last is throughout the newest of those sent, and what a lock holder is about to send will be, iff no handler takes the lock after one that parsed later |
| Reload.SendsNewestIff | turbine/src/config/mod.rs:193-194 | whatever happens meanwhile, what a handler sends is the newest iff none newer was sent when it took the lock |
| Reload.QuietMeansNewestOfAll | turbine/src/config/mod.rs:151-196 | with no handler on its way, the newest sent is the newest of all configurations not given up |
| Reload.OlderCanPublishLast | turbine/src/config/mod.rs:192-196 | of any two handlers ready to publish, the one with the older configuration can publish last |
| Reload.StaleConfigurationCanWin | turbine/src/config/mod.rs:151-196 | a run from the start in which it does |

## Left out

- Foreign calls in ktls/src/ffi.rs (`setsockopt`, `sendmsg`, `recvmsg`, control-message layout): only the encoding of the record number is kept; key installation and sending are outcomes given as parameters.
- Cipher probing (`CompatibleCiphers`) and `config_ktls_client`, which repeats `config_ktls_server` step by step.
- rustls: deframing and decryption are a contract (`TlsSessions`), which opens no record to more bytes than its payload has; alerts, key updates and record-size limits during the drain are not modelled, nor is a kernel that rekeys.
- What a kernel makes of a stream it takes over in the middle of a record: such a handover counts as not intact, and nothing more is said of it.
- `KtlsStream::handle_msg`, `poll_flush`, `poll_write_ready`, vectored writes, wakers, and the data-transfer loop of `handle_client` with its zero-copy path.
- `LBRunner::run` and the counter loop of `main` are steps on values rather than loops, because other tasks act between any two of their steps; socket setup, time-outs and signals beyond interrupting the wait are not part of the model.
- `SockMapSplice::splice` itself: which file descriptor is stored under which key. That the kernel shows an IPv4 connection in mapped form is taken as given.
- The `Random` strategy, regular expressions (a given predicate), YAML, certificate and key loading (an upstream loads or not), SNI and ALPN extraction (given), proxy-protocol headers.
- Registration of individual file watches: a handler's registration succeeds or fails as a whole.
- ShutdownWait.CounterIsExact: does not model a counter of 64 bits, which would need 2^64 running tasks to wrap.
- KtlsSetup.ConfigKtlsServer: says nothing of the handover when a connection has more than 2^64 records under its traffic keys.
