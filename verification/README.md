# HCI controller firmware: a verified model

The firmware bridges a Bluetooth host on a UART, CDC or USB port to the SoftDevice
Controller. These modules model its packet path from end to end and prove what the pieces
promise each other. Everything outside (the port, the controller, the command handlers, the
scheduler) is a parameter that may answer as it likes.

- `Runtime` is the wake and stop protocol of the worker thread as a state machine: atomic
  steps of any number of callers and one worker, with two binary semaphores.
- `H4`, `H4Parser` and `Transport` are the UART transport of Core Vol 4 Part A: the stream as
  a language, the incremental parser with backpressure, the byte-stream adapter with short
  reads and writes.
- `CommandDispatch` and `AdvertisingGuard` are the table-driven dispatcher and the rule of
  Core Vol 4 Part E section 3.1.1.
- `FlowControl` and `FlowTables` are the ACL accounting and the synthetic credits of sections
  4.1.1, 7.7.5 and 7.7.19, as values and as the arrays they are kept in.
- `SdcRouting` is the routing layer as one step function; `SdcRuns` and `SdcAccounting` are its
  theorems over whole runs; `SdcLayer` is the layer updated in place, each method proved to
  take exactly the specified step.
- `Bridge`, `BridgeLogs`, `StartupSync` and `LocalReplies` are the bridge: retained packets, the
  parser buffer that doubles as the retry buffer, the startup scan, the idle line, and the
  commands answered here; `BridgeLogs` says what the outside is and what is recorded of it.
- `Crc` and `Walks` are the loopback checksum and the variable-length parameter parsers;
  `L2cap` is the fragmentation of the Python examples.

Specification functions are pinned to the wire by lemmas whose names end in `OnWire` and that
name no such function: which octets come in, which go out, which statuses on which condition.

Where the source updates in place the model does too: a class per object, its methods tied to
a function of the old state, and the properties proved about that function. History the code
does not keep (octets fed, packets accepted, outcomes) is in ghost fields, and each class
invariant says that history is complete and in order.

The outside is numbered: the n-th read of the port, the n-th write, the n-th step of the
routing layer have one answer each, so the theorems about the bridge tie every octet that came
in to a read, every accepted packet to a step of the routing layer, and every octet that went
out to what the port took.

Two results say where the code falls short, each with a run from the start that fails and the
exact condition. The 16-bit ACL total wraps: the accounting is kept over a run exactly when no
packet is counted at a total of 65535 on a link that is not full itself
(`FlowControl.AccountingHolds`, `FlowControl.WrapBreaksAccounting`). A runtime object on which a
second thread is created can carry the first thread's stopped token, and a stop can then return
under the running second thread. A thread is created in the model whenever the earlier one's
flags are clear, which is all a caller can see; it is safe exactly when that token is neither
there nor still to be given, or a stop was already up (`Runtime.RecreateIsSafeIff`,
`Runtime.StopCanReturnEarly`). The flags do not show a give still to come; a caller that
waits for the kernel task to end and takes the token is safe (`Runtime.GoneAndDrainedIsSafe`).
The stop theorems are over runs that create threads only under that condition; a newly
initialized runtime meets it (`Runtime.InitializedIsSafe`).

`dafny verify dfyconfig.toml` checks the project with Dafny 4.11.

## Model

| member | source | states |
|---|---|---|
| Runtime.NoWakeupIsLost | src/hci_taktos.cpp:99-139 | in every interleaving of any number of callers with the worker, pending events imply a wake that is available, on its way between a fetch-or and its give, or already taken by a worker about to take the word |
| Runtime.EventsAreServed | src/hci_taktos.cpp:285-337 | in every interleaving, over every run, each word taken is all that was posted since the last one, and is followed by one service of MPSL if it asks for it and one of the host, before anything else is taken and before the thread leaves; a wait that times out while polling serves the host once; the thread comes up target, host, own wake, and leaves only for a stop or a failed start; at rest the counts agree |
| Runtime.PostIsServed | src/hci_taktos.cpp:99-139 | with the worker at rest, an event posted earlier by any caller is still pending, or the host has been served since, and MPSL too if it was for MPSL |
| Runtime.TeardownIsSafe | src/hci_app.cpp:469-495 | once a stop’s wait has returned true, no later step has the worker in target or host code, in any run in which every thread is created with the earlier thread’s flags clear and under the exact safe condition |
| Runtime.ThreadIsGone | src/hci_taktos.cpp:155-186 | when a thread is armed before it is created, a returned wait means there is no thread, nor one created and not yet run, then or later |
| Runtime.StopWithoutThread | src/hci_taktos.cpp:155-186 | without a thread a stop does not wait |
| Runtime.StopIsNotSleptThrough | src/hci_taktos.cpp:141-153 | after a stop has been posted, a worker blocked on the wake semaphore has a token or a give coming, polling or not, folded bit or not |
| Runtime.StopTerminates | src/hci_taktos.cpp:285-337 | with the stop flag up one worker takes at most nine further steps, in any interleaving |
| Runtime.StaleTokenBreaksStop | src/hci_taktos.cpp:163-186 | in any state with a token of an earlier thread, a thread about to enter and an idle caller, a stop by that caller returns while the thread is running |
| Runtime.RecreateIsSafeIff | src/hci_taktos.cpp:211-226 | once the flags of the earlier thread are clear, creating a thread is safe exactly when the stopped-token is neither there nor still to be given, or a stop is already up; the gap between clearing the flags and giving the token is included |
| Runtime.StopCanReturnEarly | src/hci_taktos.cpp:211-226 | both failing inputs are runs from the start: the first thread gives its token before, or only after, the second is created, and the stop returns under the running second thread |
| Runtime.GoneAndDrainedIsSafe | src/hci_taktos.cpp:211-226 | what a caller can check is enough: with every earlier kernel task ended and the token taken, a thread may be created |
| Runtime.InitializedIsSafe | src/hci_taktos.cpp:54-70 | and so it may in a newly initialized runtime, which no earlier task is still leaving |
| Runtime.InvStep | src/hci_taktos.cpp:228-337 | every step of every agent keeps: no lost wakeup, flags and token true of the worker, the stop bit kept, no overlap after teardown |
| H4.ParseConcat | src/hci_h4.cpp:174-291 | cutting a stream anywhere changes nothing that is read from it |
| H4.ParseIsOneShot | src/hci_h4.cpp:174-291 | octet-by-octet reading equals cutting the whole stream frame by frame, oversize and invalid counts included |
| H4.FrameParses | src/hci_h4.cpp:19-61 | a framed packet of any kind parses back to itself |
| H4.CommandOnWire | src/hci_h4.cpp:19-61 | commands octet by octet: 01, opcode, one octet of length; a packet that fits is delivered as its header and data, one that does not is one oversize count |
| H4.AclOnWire | src/hci_h4.cpp:19-61 | ACL data octet by octet: 02, handle, two octets of length with the low one first; a packet that fits is delivered as its header and data, one that does not is one oversize count |
| H4.ScoOnWire | src/hci_h4.cpp:19-61 | synchronous data octet by octet: 03, handle, one octet of length; a packet that fits is delivered as its header and data, one that does not is one oversize count |
| H4.EventOnWire | src/hci_h4.cpp:19-61 | events octet by octet: 04, code, one octet of length; a packet that fits is delivered as its header and data, one that does not is one oversize count |
| H4.IsoOnWire | src/hci_h4.cpp:19-61 | ISO data octet by octet: 05, handle, fourteen bits of length with the low octet first; a packet that fits is delivered as its header and data, one that does not is one oversize count |
| H4.OtherOnWire | src/hci_h4.cpp:203-214 | any other octet between packets is one rejected indicator |
| H4.FramingRoundTrip | src/hci_intrf_transport.cpp:446-474 | frames of any packets parse to exactly those packets, no indicator rejected |
| H4.FramesConcat | src/hci_intrf_transport.cpp:446-474 | the framing of a concatenation is the concatenation of the framings |
| H4.RejectedConcat | src/hci_h4.cpp:174-291 | how many indicators were rejected before the k-th packet does not depend on what comes later |
| H4.CompletesRejected | src/hci_h4.cpp:83-106 | while a packet waits every rejected indicator so far came before it |
| H4Parser.Parser.constructor | src/hci_h4.cpp:108-154 | a new parser is between packets and has handed nothing over; its buffer takes at least four octets |
| H4Parser.Parser.Reset | src/hci_h4.cpp:73-81 | forgets the packet in hand and keeps every count |
| H4Parser.Parser.ReleasePending | src/hci_h4.cpp:166-172 | a waiting packet counts as handed over, once; otherwise nothing changes |
| H4Parser.Parser.Deliver | src/hci_h4.cpp:83-106 | an accepted packet is handed over once; a refused one stays, counted; with no handler it waits |
| H4Parser.Parser.FeedHeader | src/hci_h4.cpp:216-249 | a block of header octets does what reading them one by one does, the oversize decision included |
| H4Parser.Parser.FeedPayload | src/hci_h4.cpp:251-267 | a block of payload octets is collected and completes the packet exactly at its declared end |
| H4Parser.Parser.FeedDrop | src/hci_h4.cpp:269-282 | a block of a dropped packet is counted down and leaves no trace |
| H4Parser.Parser.FeedBlock | src/hci_h4.cpp:201-287 | one round of the loop equals the octet-by-octet reading of the octets it took |
| H4Parser.Parser.Feed | src/hci_h4.cpp:174-291 | any feed with any answers of the handler equals the reading of exactly the octets it consumed; what it hands over are the packets the handler accepted, offer by offer, and it stops short only for one it refused, or with no handler for a waiting one, with no octet beyond that packet taken |
| H4Parser.ChunkIndependence | src/hci_h4.cpp:174-291 | over any session of chunks, answers and re-fed tails, with every packet handed over accepted by the answers of its feed: packets handed over in order and once, state, invalid and oversize counts equal the one-shot reading |
| H4Parser.HandedOverIffAccepted | src/hci_h4.cpp:83-106 | in any session a packet offered to a feed’s handler is handed over by that feed exactly when the handler accepts it |
| H4Parser.DrainedSessionsAgree | src/hci_h4.cpp:174-291 | two drained sessions over one stream agree in everything |
| Transport.Transport.constructor | src/hci_intrf_transport.cpp:174-196 | a transport over a passive parser starts closed and empty |
| Transport.Transport.ReleaseAs | src/hci_intrf_transport.cpp:263-285 | a waiting packet meets its fate once: taken, or dropped, which only a suspect filtered command can be, with the counts that make it suspect |
| Transport.Transport.DropPendingSuspect | src/hci_intrf_transport.cpp:263-285 | a waiting packet is dropped exactly when it is a suspect command the filter rejects, and is then recorded as dropped |
| Transport.Transport.FeedChunk | src/hci_intrf_transport.cpp:302-330 | octets move from the chunk to the parser; together they stay what was received |
| Transport.Transport.ProcessRx | src/hci_intrf_transport.cpp:287-371 | over any answers of the port, everything it gave is received in order and once; it is read until a packet waits, a read finds nothing or fails, or reads and drops use up the passes; every packet dropped was filtered and suspect by what had been forgiven before; what is forgiven afterwards is exact; a packet that waits is left alone and no suspect one is left waiting |
| Transport.Transport.Idle | src/hci_intrf_transport.cpp:373-398 | forgives rejected octets between packets, throws away only a suspect half-read packet, never a waiting one; otherwise nothing received changes |
| Transport.Transport.Open | src/hci_intrf_transport.cpp:217-244 | flushes the port until it is empty or the passes run out, counting every octet, and starts between packets with nothing suspect |
| Transport.Transport.Close | src/hci_intrf_transport.cpp:246-261 | both directions start afresh |
| Transport.Transport.StartRx | src/hci_intrf_transport.cpp:513-533 | ready exactly when the port is open and a packet of the asked kind waits, not suspect, once the port has been read out; what the port gave is received |
| Transport.Transport.RxData | src/hci_intrf_transport.cpp:535-566 | hands over exactly the waiting packet, unaltered, whether the target is the parser’s own buffer or another; nothing otherwise |
| Transport.Transport.ReadInPlace | src/hci_intrf_transport.cpp:513-566 | a whole read into the parser’s own buffer: the packet a reader takes is there, unaltered, and a waiting packet is handed over exactly when its kind is asked for; what the port gave is received, and anything dropped on the way was filtered and suspect |
| Transport.Transport.Send | src/hci_intrf_transport.cpp:446-474 | accepts exactly when open, idle and the frame fits; then the stream buffer holds the frame |
| Transport.Transport.ProcessTx | src/hci_intrf_transport.cpp:400-432 | exactly what the port takes of the framed octets over the passes is written, short writes, errors and busy answers included, and exactly the rest stays |
| Transport.TookIsAllItWill | src/hci_intrf_transport.cpp:400-432 | what is written is all the port will take: its answers to at most eight offers, each of all that is left, until nothing is left or an answer is none |
| Transport.Transport.StartTx | src/hci_intrf_transport.cpp:577-590 | refuses while the last packet is still going out |
| Transport.Transport.TxData | src/hci_intrf_transport.cpp:592-613 | accepts all of a packet or none, with the exact condition, and writes what the port takes of its frame |
| Transport.Transport.Write | src/hci_intrf_transport.cpp:577-613 | choose the kind, send and deselect: the packet is accepted exactly when open, idle and it fits, and what the port takes of its frame is written |
| Transport.Transport.Process | src/hci_intrf_transport.cpp:434-444 | while open, the port is read out, everything it gave is received, nothing is dropped but filtered suspects, and exactly what it takes of the unsent octets is written; while closed nothing is read or written |
| Transport.Transport.PacketsAreAccountedFor | src/hci_intrf_transport.cpp:287-371 | every packet of the octets fed has one fate, in order, or waits; counts equal the one-shot reading; a dropped packet is a filtered command with more indicators rejected in the stream before it than had been forgiven |
| Transport.Transport.EmittedIsPrefix | src/hci_intrf_transport.cpp:400-432 | octets written are a prefix of the frames of the accepted packets, all of them when idle; by `ProcessTx` they are the octets the port took |
| Transport.PrefixParses | src/hci_intrf_transport.cpp:592-613 | at any moment what has been written parses to the first of the accepted packets, nothing rejected |
| Transport.Transport.OpenAfterReset | src/hci_controller.cpp:704-715 | the parser sees the Reset frame, then the rest of the chunk, nothing lost |
| StartupSync.AdvanceIsExact | src/hci_controller.cpp:678-697 | one octet keeps the match index the longest end that can still become the frame, or finishes the frame’s first occurrence |
| StartupSync.Scan | src/hci_controller.cpp:676-697 | for any cutting of the stream the scan stops exactly at the first occurrence of 01 03 0C 00, or proves there is none yet |
| StartupSync.NoEarlierReset | src/hci_controller.cpp:676-697 | the place to synchronize is a function of the stream |
| StartupSync.NoHitBeforeFirst | src/hci_controller.cpp:676-697 | while the scan goes on no prefix of the stream ends with the first frame |
| Bridge.Bridge.ScanChunk | src/hci_controller.cpp:666-715 | one chunk of the startup scan: what has come in over the line grows by exactly the chunk, found or not; at the end the octets before the frame are the flushed ones and the parser has the Reset packet |
| Bridge.Bridge.ScanPort | src/hci_controller.cpp:641-717 | the same over all reads of one pass, which goes on until the scan ends, the port has no more, or 64 reads |
| Bridge.Bridge.SyncProcess | src/hci_controller.cpp:635-717 | the same on the record of the port’s reads and across passes; without a scan the port is not read and what was received stays |
| Bridge.Bridge.AnswerLocally | src/hci_controller.cpp:464-508 | a local command is answered exactly when the slot is free, with its own reply; otherwise kept |
| Bridge.Bridge.OfferController | src/hci_controller.cpp:511-516 | exactly one step of the routing layer, with the outside’s next answers; taken exactly when that step accepts the packet, and the layer’s log of packets taken grows by exactly it |
| Bridge.Bridge.PutHostPacket | src/hci_controller.cpp:447-518 | kinds a host may not send are rejected; a local command has its own reply put in the slot exactly when that is free; the rest is offered to the routing layer in one step, unaltered, and accepted exactly when it takes it; the outcome is the one for such a packet |
| BridgeLogs.ResolvedByKind | src/hci_controller.cpp:434-518 | which outcome by what the packet is: events, synchronous data and empty packets are rejected, commands FFF1 to FFFB and those the release lacks are answered here, the rest goes to the controller |
| Bridge.Bridge.OfferRetained | src/hci_controller.cpp:805-818 | the retained packet is offered in at most one step and as it is: it is released exactly when it can have its outcome, with that outcome, and what the routing layer has taken is what was logged as accepted |
| Bridge.Bridge.SeekFromHost | src/hci_controller.cpp:825-845 | asking the transport kind by kind finds a waiting packet of any kind, EVENT and SCO included, and retains it unaltered |
| Bridge.Bridge.HostProcess | src/hci_controller.cpp:805-870 | the packet whose turn it is, retained or waiting in the transport and of any kind, is offered in at most one step of the routing layer: it has the outcome for such a packet exactly when it can, and is otherwise retained unaltered |
| Bridge.Bridge.FetchKind | src/hci_controller.cpp:895-925 | of what the layer holds or its one next get gives, a packet of the asked kind that fits is queued as it is, adapted to the release; any other stays held; no other step of the layer is taken |
| Bridge.Bridge.FetchNext | src/hci_controller.cpp:872-926 | asking by kind in a fixed order queues the first packet the layer has, whatever its kind; a waiting packet is never overwritten |
| Bridge.Bridge.FetchPacket | src/hci_controller.cpp:872-926 | the same with the whole invariant: a packet the layer offers is in the slot afterwards, queued once |
| Bridge.Bridge.OfferHost | src/hci_controller.cpp:928-980 | the packet waiting leaves unless the port is closed or busy and it could fit; it is sent, or counted unsendable exactly when its frame can never fit; otherwise it waits unaltered |
| Bridge.Bridge.Pump | src/hci_intrf_transport.cpp:434-444 | a pump of the port on the record: the port is read out, the octets received are its next reads, the octets written those it took; a waiting packet stays; nothing is dropped but filtered suspects |
| Bridge.Bridge.PumpHost | src/hci_controller.cpp:1035-1043 | the same with the whole invariant, while no packet is retained in the parser’s buffer |
| Bridge.Bridge.OpenDirectly | src/hci_controller.cpp:719-761 | a first read that starts with an indicator is received whole, after what had been fed; otherwise that read and all the flushed ones are counted, octet for octet, and nothing is received |
| Bridge.IndicatorsAreKinds | src/hci_controller.cpp:441-445 | a first chunk is kept exactly when it starts with 01 to 05, which are the kinds the parser knows |
| Bridge.Bridge.PortOpen | src/hci_controller.cpp:982-997 | the startup scan begins with the port closed, or the port opens with exactly that first chunk received, or nothing |
| Bridge.Bridge.PortClose | src/hci_controller.cpp:999-1024 | both retained packets are dropped and recorded, nothing else is; nothing is received or unsent |
| Bridge.Bridge.ServeController | src/hci_controller.cpp:1046-1047 | with the slot free a packet the layer has is fetched, adapted and queued; with the port free the packet in the slot leaves, sent or too long to be |
| Bridge.Bridge.Burst | src/hci_controller.cpp:1060-1077 | with the slot free a packet the layer has is fetched, with the port free the one in the slot leaves, sent or too long to be; a packet left waiting means the transport is closed or busy; another pass is asked for exactly after fifteen packets have left |
| Bridge.Bridge.Process | src/hci_controller.cpp:1026-1077 | a whole pass, whatever the outside answers: what comes in is exactly what the port gave, what goes out exactly what it took; the port is served; the host’s next packet has its own outcome if it can have it, a local command even when the slot was full, since that packet leaves first; the packet waiting for the host leaves if the port is free; nothing is discarded, dropped or moved aside |
| Bridge.Bridge.PortIsFollowed | src/hci_controller.cpp:1026-1077 | between any two states without an opening or closing, octets in are the port’s reads in order, octets out what it took |
| Bridge.Bridge.Idle | src/hci_intrf_transport.cpp:373-398 | an idle line drops a suspect half-read packet and counts it; otherwise what came in is untouched |
| Bridge.Bridge.ResyncOnIdle | src/hci_app.cpp:240-263 | a resync happens only at the fourth pass without an octet, and then whenever a half-read packet is suspect; without one everything that came in stays |
| Bridge.Bridge.HostPass | src/hci_app.cpp:265-295 | a worker’s round, the idle count and its one resync included: all that a pass promises of packets, and all that it promises of the line unless a half-read packet was thrown away |
| BridgeLogs.FollowsOn | src/hci_controller.cpp:1026-1077 | between moments with no opening, closing or resync, in any number: records only grow, nothing is discarded or dropped, the parser reads on in what came in, drops are justified by what had been forgiven |
| Bridge.Bridge.HostPacketsAreAccountedFor | src/hci_controller.cpp:805-870 | host to controller: the port’s reads are what was received, after the octets before the first Reset frame if there was a scan; its packets are, in order and unaltered, filtered suspect commands that were dropped, those with the one outcome for such a packet or gone with a closing port, the one retained and the one in the parser; the accepted ones are, once each, what the steps of the routing layer took; every locally answered command has its one reply |
| Bridge.Bridge.ControllerPacketsAreAccountedFor | src/hci_controller.cpp:872-980 | controller to host: what the steps of the routing layer gave is, in order and once, what was queued and the one held; it was sent, was too long to be, was dropped, or waits; what the port took and what is unsent are the frames of what was sent. That only closing drops is in what a pass promises and in `PortClose` |
| Bridge.Bridge.HostReadsWhatWasSent | src/hci_controller.cpp:928-980 | a host that holds 1024 octets reads from what its port has taken exactly the first of the packets sent, unaltered, nothing invalid or oversize; all of them once nothing is unsent |
| BridgeLogs.SentIsReady | src/hci_controller.cpp:939-949 | every packet sent was in the slot, delimits itself and is within the stream’s size |
| BridgeLogs.ProfiledDelimits | src/hci_controller.cpp:379-423 | adapting an answer to the release keeps it self-delimiting |
| BridgeLogs.ProfiledOnWire | src/hci_controller.cpp:379-423 | what a release changes, bit by bit: two version octets, and three bits of octet 47 of the supported commands; nothing else |
| LocalReplies.SeedsNeverMeet | src/hci_controller.cpp:70-78 | sequences of different seeds differ in every octet |
| LocalReplies.PrbsRecurrence | src/hci_controller.cpp:70-78 | the sequence is the one of x^8 + x^6 + x^5 + x^4 + 1, and starts with the seed |
| LocalReplies.CleanIff | src/hci_controller.cpp:238-256 | no flag is raised exactly when the payload is the sequence of a non-zero seed |
| LocalReplies.FlagsMean | src/hci_controller.cpp:238-256 | bit 0 and the index say which octet is first off the sequence, bit 1 that the seed is zero |
| LocalReplies.CheckPrbs | src/hci_controller.cpp:238-256 | the loop reports the flags and the index of the first octet off the sequence |
| LocalReplies.LoopbackEvent | src/hci_controller.cpp:201-283 | the loopback reply, error cases included |
| LocalReplies.LoopbackEchoes | src/hci_controller.cpp:258-282 | sequence number, seed, checksum and payload come back at their places |
| LocalReplies.LoopbackOnWire | src/hci_controller.cpp:258-282 | the loopback’s answer place by place, flags, index and checksum included |
| LocalReplies.Le32OnWire | src/hci_controller.cpp:62-68 | the checksum goes out low octet first |
| LocalReplies.EchoDamageIsSeen | src/hci_controller.cpp:80-95 | damage within four consecutive payload octets changes the four checksum octets on the wire |
| LocalReplies.LocalReplyIsShaped | src/hci_controller.cpp:171-376 | every locally built reply fits its slot, names its command and is self-delimiting |
| LocalReplies.LocalCommands | src/hci_controller.cpp:151-169 | the commands answered here, by their opcode octets and the release |
| LocalReplies.VendorOnWire | src/hci_vendor.cpp:79-131 | a vendor command’s answer octet by octet: the handler’s own status, and on success exactly what it returned; no room and a wrong length by their statuses |
| LocalReplies.UsbOnWire | src/hci_controller.cpp:310-376 | the USB snapshot’s answer octet by octet, refusals included |
| LocalReplies.RefusedOnWire | src/hci_controller.cpp:201-228 | the loopback’s refusals by their conditions, and Unknown HCI Command for what the release lacks |
| Crc.ComputeCrc32 | src/hci_controller.cpp:80-95 | the two loops compute the folded checksum |
| Crc.CheckValue | src/hci_controller.cpp:80-95 | the checksum of the digits 1 to 9 is the standard’s CBF43926 |
| Crc.BitStepLinear | src/hci_controller.cpp:86-92 | the bit step is linear over exclusive or |
| Crc.BitStepInjective | src/hci_controller.cpp:86-92 | the bit step can be undone |
| Crc.BurstIsDetected | src/hci_controller.cpp:80-95 | payloads of equal length that differ only within four consecutive octets have different checksums |
| CommandDispatch.AnswerIsShaped | src/hci_cmd_dispatch.cpp:200-362 | every event names its command, grants one credit, fits the buffer, is self-delimiting, and has its row’s kind and at least its declared length when that fits |
| CommandDispatch.AnsweredUnless | src/hci_cmd_dispatch.cpp:200-362 | a command goes unanswered exactly when it is too short for an opcode, or its row asks for no answer and its handler agreed |
| CommandDispatch.RefusalStatus | src/hci_cmd_dispatch.cpp:218-289 | an answer given before the handler carries the status of what was wrong |
| CommandDispatch.UnknownOnWire | src/hci_cmd_dispatch.cpp:200-232 | a command no row has is answered 0E 04 01, its opcode, 01; one too short for an opcode not at all |
| CommandDispatch.RefusedOnWire | src/hci_cmd_dispatch.cpp:218-289 | octet by octet, by conditions on packet and row: a wrong length is 12, a row without handler 01, a guard’s refusal its own status, in the row’s shape with its zeros |
| CommandDispatch.ReturnIsDelivered | src/hci_cmd_dispatch.cpp:331-350 | a Complete handler’s return octets arrive unchanged, followed only by zero padding |
| CommandDispatch.HandledOnWire | src/hci_cmd_dispatch.cpp:309-359 | octet by octet: a Complete row delivers status and return, a Status row its handler’s own status, a contradiction is 1F, too long a return 07 |
| CommandDispatch.CountsOnWire | src/hci_cmd_dispatch.cpp:200-362 | each command moves each count exactly when it should, by one |
| CommandDispatch.GenericRowAnswer | src/hci_cmd_dispatch.cpp:400-446 | a shared row answers its declared length: the function’s octets on success, zeros otherwise |
| CommandDispatch.GenericWithoutRoom | src/hci_cmd_dispatch.cpp:400-446 | a shared row without room for its return answers Memory Capacity Exceeded |
| CommandDispatch.FindFirst | src/hci_cmd_dispatch.cpp:26-38 | the first row with the opcode is the one used |
| CommandDispatch.Dispatcher.FindEntry | src/hci_cmd_dispatch.cpp:26-38 | the table loop finds it |
| CommandDispatch.Dispatcher.BuildError | src/hci_cmd_dispatch.cpp:162-175 | an error in the shape of the row |
| CommandDispatch.Dispatcher.Respond | src/hci_cmd_dispatch.cpp:309-359 | a handler’s result, contained when it disagrees with its row or does not fit |
| CommandDispatch.Dispatcher.Put | src/hci_cmd_dispatch.cpp:200-362 | refused exactly while an event waits; otherwise the buffer holds the specified answer and every count moves as it should |
| CommandDispatch.Dispatcher.Get | src/hci_cmd_dispatch.cpp:364-381 | the waiting event leaves whole and once, or stays |
| CommandDispatch.Dispatcher.QueueNop | src/hci_cmd_dispatch.cpp:97-117 | the No Operation event, five octets |
| CommandDispatch.NopIsSelfDelimiting | src/hci_cmd_dispatch.cpp:105-117 | the No Operation event is self-delimiting and grants one credit |
| AdvertisingGuard.FamiliesAreExclusive | src/hci_sdc_nrfxlib.cpp:2034-2055 | over any run of commands, two handler calls of different families have a successful reset between them |
| AdvertisingGuard.FamilyTable | src/hci_sdc_nrfxlib.cpp:1978-2027 | the two families, opcode by opcode |
| AdvertisingGuard.RefusedIffOtherInUse | src/hci_sdc_nrfxlib.cpp:2034-2055 | a well-formed family command is refused exactly when the other family is in use, as Command Disallowed in its row’s shape |
| AdvertisingGuard.DisallowedOnWire | src/hci_sdc_nrfxlib.cpp:2034-2055 | a refusal on the wire: status 0C in the row’s shape |
| AdvertisingGuard.ArriveIsSound | src/hci_sdc_nrfxlib.cpp:152-184 | one command keeps the static choice equal to the family in use; only a successful reset clears it |
| AdvertisingGuard.OnlyResetForgets | src/hci_sdc_nrfxlib.cpp:152-184 | the choice is given up by a Reset (03 0C) that succeeded, and by nothing else |
| FlowControl.PutIsTidyIff | src/hci_sdc.cpp:841-849 | a counted packet keeps total equal to the sum exactly unless the 16-bit total wraps under counts that do not |
| FlowControl.FlagsDoNotMatter | src/hci_sdc.cpp:775-779 | the handle of a packet is the same whatever its boundary and broadcast flags |
| FlowControl.StepIsTidyIff | src/hci_sdc.cpp:823-955 | any step, guarded or not, keeps the accounting exactly when it is not a counted packet at a full total on a link that is not full |
| FlowControl.WrapBreaksAccounting | src/hci_sdc.cpp:841-849 | the run of 65535 packets from the empty table reaches a tidy table at which the next packet breaks the accounting |
| FlowControl.ForgetCounts | src/hci_sdc.cpp:851-874 | a disconnection takes that link’s share and touches no other link, swap and all |
| FlowControl.FreeAllCounts | src/hci_sdc.cpp:895-931 | each link loses what the event claims for it in all, duplicates added, never more than it had |
| FlowControl.PairsOnWire | src/hci_sdc.cpp:895-931 | the entries of a completed-packets event by their places, as many as it says and as far as it goes |
| FlowControl.TrackIsTidy | src/hci_sdc.cpp:886-955 | no event from the controller breaks the accounting or raises the total |
| FlowControl.TrackOnWire | src/hci_sdc.cpp:886-955 | what each event does to each link: 13 takes off what is claimed, 05 with success forgets, anything else nothing |
| FlowControl.AccountingHolds | include/hci_sdc.h:223-251 | over any run, guarded or not, the total is the sum of the links at every step exactly when no step wraps |
| FlowControl.LimitHolds | include/hci_sdc.h:116-128 | with enforcement and a fixed limit, once within it always within it, and nothing wraps |
| FlowControl.OfferKeepsLimit | src/hci_sdc.cpp:823-839 | a packet is refused exactly when its link can be tracked and the total is at the limit |
| FlowControl.OfferCounts | src/hci_sdc.cpp:823-849 | a host packet is refused exactly at an enforced limit, and counted once on its link if taken and there is room |
| FlowControl.CreditEventRoundTrip | src/hci_sdc.cpp:713-741 | the synthetic event decodes, by the loop that reads real ones, to exactly the owed table, and is self-delimiting |
| FlowControl.EmitOnWire | src/hci_sdc.cpp:713-741 | the credit event place by place, exactly when something is owed and it fits |
| FlowControl.OweCounts | src/hci_sdc.cpp:679-706 | a refused packet adds one credit to its link, or one to the overflow count, and touches no other link |
| FlowTables.Tables.AclSlot | src/hci_sdc.cpp:782-808 | the link’s index, made when there is room |
| FlowTables.Tables.AclAtLimit | src/hci_sdc.cpp:823-839 | the guard’s answer and the slot it makes |
| FlowTables.Tables.AclPutTracked | src/hci_sdc.cpp:841-849 | counts one packet in flight |
| FlowTables.Tables.AclForget | src/hci_sdc.cpp:851-874 | forgets a link in place by moving the last entry |
| FlowTables.Tables.CompleteAll | src/hci_sdc.cpp:895-931 | the completed-packets loop, a cut-short event included |
| FlowTables.Tables.AclTrackEvent | src/hci_sdc.cpp:886-955 | the table after an event; a failed disconnection changes nothing |
| FlowTables.Tables.OweCredit | src/hci_sdc.cpp:679-706 | one credit owed, in place |
| FlowTables.Tables.BuildCreditEvent | src/hci_sdc.cpp:713-741 | the event for the whole table, which empties; nothing when it does not fit |
| FlowTables.Tables.ResetFlowControl | src/hci_sdc.cpp:751-773 | drops every link and every owed credit, and no count of losses |
| SdcRouting.StepIsSound | src/hci_sdc.cpp:1044-1305 | every step keeps one command credit, well-shaped pending events and bounded tables |
| SdcRouting.PutCommandFacts | src/hci_sdc.cpp:1044-1118 | a command is taken exactly when no holder has the credit, and then exactly one answer is outstanding, with its opcode |
| SdcRouting.AclPacketCounts | src/hci_sdc.cpp:1120-1159 | one ACL packet whatever its flags: when it is owed to its link, when it adds one to its link’s count, when it is left to the host |
| SdcRouting.CommandIsAnswered | src/hci_sdc.cpp:1082-1116 | which table answers a command, with which guard |
| SdcRouting.HandlersOnWire | src/hci_sdc_nrfxlib.cpp:157-181 | what a successful Reset (03 0C) and LE Read Buffer Size (02 20, 60 20) do to links, credits and limit, and that nothing else does |
| SdcRouting.DelayOnWire | src/hci_sdc.cpp:972-1042 | exactly which command waits for the controller’s own completion, octet by octet |
| SdcRouting.DelayEnds | src/hci_sdc.cpp:1241-1305 | the wait ends with that completion and with nothing else |
| SdcRouting.PatchedFacts | src/hci_sdc.cpp:631-655 | patching the supported commands changes neither length, kind nor opcode |
| SdcRouting.ReadOnWire | src/hci_sdc.cpp:61-105 | where the controller’s events, ACL and ISO data end, octet by octet; past the buffer is an error |
| SdcRouting.PatchedBits | src/hci_sdc.cpp:631-655 | which bits of the supported commands are added, and that no other is touched |
| SdcRouting.GetOrder | src/hci_sdc.cpp:1213-1305 | what leaves first, and which turn it takes |
| SdcRuns.OneCommandCredit | src/hci_sdc.cpp:1063-1080 | in every reachable state at most one of main event, supplemental event, delayed completion and command turn holds the credit |
| SdcRuns.ResponsesInOrder | src/hci_sdc.cpp:1185-1232 | responses leave one per accepted command, in order, with the same opcode; at most one is still held |
| SdcRuns.NothingDelayed | src/hci_sdc.cpp:975-982 | in the default build nothing is ever delayed |
| SdcRuns.QueueIsNotStarved | src/hci_sdc.cpp:1220-1252 | from any reachable state, whatever the host sends, four gets with room for the longest event there can be cannot all miss the controller’s queue; without a reset three cannot |
| SdcRuns.ThreeCanMiss | src/hci_sdc.cpp:1220-1252 | three gets in a row can miss it, around a reset: the bound is exact |
| Bridge.Bridge.SetStartupSync | src/hci_controller.cpp:622-633 | choosing the startup scan abandons one in progress |
| SdcRuns.RankStep | src/hci_sdc.cpp:1220-1252 | every get that misses the queue uses up one of the local packets left, and no put adds one |
| SdcRuns.FamiliesAreExclusiveOverRuns | src/hci_sdc_nrfxlib.cpp:2034-2055 | advertising families are exclusive over runs of the whole layer |
| SdcRuns.OutputIsSelfDelimiting | src/hci_sdc.cpp:61-105 | every packet the layer gives is self-delimiting and fits the caller’s buffer |
| SdcAccounting.RunIsAclRun | src/hci_sdc.cpp:1120-1159 | the layer’s table over any run is the flow-control table run on its trace |
| SdcAccounting.AccountingHoldsOverRuns | include/hci_sdc.h:223-251 | over any run of the layer, total equals the sum of the links unless the total wrapped |
| SdcAccounting.LimitHoldsOverRuns | include/hci_sdc.h:116-128 | an enforced limit holds over any run of the layer |
| SdcAccounting.RefusedIsOwed | src/hci_sdc.cpp:1120-1159 | an ACL packet is owed a credit exactly when it is oversize, over the limit or failed; it is kept only when the controller asks again |
| SdcAccounting.CreditsAreConservedOverRuns | src/hci_sdc.cpp:1120-1159 | per link since the last reset: refused equals told plus owed plus lost to overflow plus whole turns of the count |
| SdcAccounting.CreditTotalsAreConserved | src/hci_sdc.cpp:679-741 | over any run and all links together: packets refused since the last reset are the credits told, those owed, what the overflow counter has gained since, and whole turns of the counts |
| SdcLayer.Layer.HandlerEffects | src/hci_sdc_nrfxlib.cpp:157-181 | what the Reset and LE Read Buffer Size handlers do to this layer |
| SdcLayer.Layer.DispatchMain | src/hci_sdc.cpp:1096-1116 | a command through the guard to the main table |
| SdcLayer.Layer.DelayCommandComplete | src/hci_sdc.cpp:1018-1042 | the local completion of a delayed command is swallowed, except Unknown Command |
| SdcLayer.Layer.PutCommand | src/hci_sdc.cpp:1044-1118 | the method refines the specified step |
| SdcLayer.Layer.PutAcl | src/hci_sdc.cpp:1120-1159 | the method refines the specified step |
| SdcLayer.Layer.Route | src/hci_sdc.cpp:1044-1184 | the host’s packet takes exactly the step of its kind, and is accepted exactly when that takes it |
| SdcLayer.Layer.PutPacket | src/hci_sdc.cpp:1399-1409 | the same on the record: one step more, and the log of packets taken grows by this packet exactly when it is accepted |
| SdcLayer.Layer.GetDispatchEvent | src/hci_sdc.cpp:1185-1211 | a dispatcher’s event copied out, or an error that keeps it |
| SdcLayer.Layer.PacketLength | src/hci_sdc.cpp:61-105 | where a controller message ends, if it fits |
| SdcLayer.Layer.Poll | src/hci_sdc.cpp:1241-1305 | the controller’s turn: both turns freed, the message cut, watched and forwarded |
| SdcLayer.Layer.GetPacket | src/hci_sdc.cpp:1213-1305 | the method refines the specified step |
| SdcLayer.Layer.FetchInto | src/hci_sdc.cpp:1353-1355 | one get into the hold’s buffer is one step more, and what it gives is logged as given |
| SdcLayer.Layer.Fill | src/hci_sdc.cpp:1349-1367 | the empty hold takes exactly what one get gives |
| SdcLayer.Layer.StartRx | src/hci_sdc.cpp:1345-1370 | the hold is filled by one get when empty and keeps what it has; ready exactly when it has the asked kind |
| SdcLayer.Layer.RxData | src/hci_sdc.cpp:1372-1385 | the held packet is handed over once, whole, when it fits |
| SdcLayer.Layer.ReadKind | src/hci_sdc.cpp:1345-1385 | a read hands over exactly what the hold had or what its one get gave, when that is of the kind and fits; otherwise it stays held; every packet read delimits itself |
| SdcLayer.Layer.HistoryIsOrderly | src/hci_sdc.cpp:1044-1305 | the layer as it is kept, after any calls: one command credit, one response per accepted command in order, one advertising family between resets |
| SdcLayer.Layer.HistoryIsNotStarved | src/hci_sdc.cpp:1345-1367 | the same of the layer as it is kept, anywhere in its history and with nothing supposed about room, because its hold is larger |
| Walks.WalkSubevents | src/hci_sdc_nrfxlib.cpp:1010-1034 | the walk accepts exactly the concatenations of the declared number of length-prefixed entries |
| Walks.SetSubeventData | src/hci_sdc_nrfxlib.cpp:983-1042 | the controller is reached exactly with room for its return parameter and well-formed entries; without room the command is Memory Capacity Exceeded, otherwise Invalid Parameters; the return parameter comes exactly with success |
| Walks.UniqueDecomposition | src/hci_sdc_nrfxlib.cpp:1010-1034 | a tail has at most one such decomposition |
| Walks.EntryOnWire | src/hci_sdc_nrfxlib.cpp:1010-1034 | one entry place by place: the fourth octet is its data’s length |
| Walks.CcmAcceptsExactlyEncodings | src/hci_vendor_crypto.cpp:91-134 | the AES-CCM parser inverts its encoder: it accepts exactly the encodings of valid requests |
| Walks.CcmOnWire | src/hci_vendor_crypto.cpp:91-134 | the AES-CCM request place by place: exactly these layouts are accepted, and read so |
| Walks.ParseCcm | src/hci_vendor_crypto.cpp:91-134 | the position-by-position parse computes it, with output within 251 octets |
| Walks.HmacAcceptsExactlyEncodings | src/hci_vendor_crypto.cpp:206-223 | the HMAC parser accepts exactly the encodings |
| L2cap.SendL2cap | python/examples/secure_reconnect.py:169-180 | the loop writes the fragments of the length-prefixed message |
| L2cap.FragmentsOnWire | python/examples/secure_reconnect.py:169-180 | what is sent: length and channel low octet first, the payload in order, full pieces but the last, the first marked 00 and the others 01 |
| L2cap.Link.TakeAcl | python/examples/secure_reconnect.py:182-199 | the dictionary and queue after one fragment |
| L2cap.AclOnWire | python/examples/secure_reconnect.py:182-188 | an ACL packet octet by octet: handle, the two flags that start a packet, length and data |
| L2cap.Link.TakeBody | python/examples/secure_reconnect.py:182-199 | the dictionary and queue after one ACL packet off the wire |
| L2cap.WireRoundTrip | python/examples/secure_reconnect.py:176-185 | a fragment written is read back as itself |
| L2cap.JoinOnWire | python/examples/secure_reconnect.py:182-199 | a start fragment that holds a whole packet is its message, octet by octet |
| L2cap.PacketRoundTrip | python/examples/secure_reconnect.py:169-199 | any message up to 65535 octets at any ACL size is reassembled to itself, whatever was there before and whichever of the two ways its start is marked |
| L2cap.StreamRoundTrip | python/examples/secure_reconnect.py:169-199 | a stream of messages arrives exactly once and in order, each start marked either way |
| L2cap.ConnectionsAreSeparate | python/examples/secure_reconnect.py:182-199 | a handle’s messages depend only on its own fragments |
| L2cap.InterleavingRoundTrip | python/examples/secure_reconnect.py:169-199 | every interleaving of the handles’ streams, starts marked either way, delivers each handle its messages exactly once and in order |

## Left out

- Target ports, USB descriptors and the UART, USB and IPC host wrappers: registers, interrupts and calls into libraries that are not part of this model.
- The bodies of the command handlers, the two long opcode tables and the supported-command bitmap: rows are abstract (opcode, lengths, response kind, handler present), and a handler is any reply.
- Crypto engines, entropy, tracing, SDC memory sizing, mode records, and the RspMark, PktMark and FirstRx diagnostic logs.
- The credit wait before a Python host sends a fragment, the remaining Python procedures and catalogs, and the VB, VN, VNR and VP length checks, which are single comparisons next to the walks in `Walks`.
- Callback mode of the byte-stream transport: `H4Parser` proves the parser with a handler that may refuse, `Transport` the packet mode the bridge uses. The packet interface's Reset is the transport's `ResetRx` and `ResetTx`.
- 32-bit diagnostic counters are unbounded; the suspect test compares two of them, so it is exact until 2^32 rejected indicators. The 16-bit flow-control counts wrap as in the code.
- The pending word of the runtime has the four event bits the firmware defines; a wake of any other bit is not modelled.
- Semaphore and word steps are sequentially consistent, and interrupts differ from tasks only in being callers.
- A native packet host (USB or IPC) under the bridge: the bridge is modelled over the H:4 transport. Progress is stated per pass, for the packet whose turn it is; unconditional progress towards the host is not claimed, because the port is not pumped while a host packet is retained.
- The controller's ISO intake always consumes the packet, so only that it was taken is modelled. The layer class starts without the optional startup No Operation event; the theorems over runs cover it.
- Runtime.StaleTokenBreaksStop: has the failing state as a hypothesis; that it is reached is `Runtime.StopCanReturnEarly`.
- Transport.Transport.constructor: takes the suspect filter once; the firmware sets it during initialization (src/hci_app.cpp:418), and a change of it later is not modelled.
- Bridge.Bridge.HostPass: opening and closing the port by the USB state are its callers' steps here, `PortOpen` and `PortClose`.
- LocalReplies.EchoDamageIsSeen: is stated over payload octets as 8-bit vectors, because that is what the checksum reads.
- SdcRuns.QueueIsNotStarved: assumes each get offers 257 octets, the longest event there can be, as the layer’s hold does (`SdcLayer.Layer.HistoryIsNotStarved`); with less room the code keeps returning an error for the same event.
- SdcRuns.ResponsesInOrder: starts without the optional startup No Operation event, which answers no command.
