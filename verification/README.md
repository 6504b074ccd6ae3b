# usbip-share: a verified model

usbip-share exports USB devices over the network. A Windows driver plays the USB host side: it turns URBs into
USB/IP messages, keeps every request alive until its send and its response are both over, and reads responses off a
byte stream. A small server keeps waitlists, a watchdog, an access table and hardware-bound names for the exported
devices. This project models the parts of both where several actors, counters or representations have to agree, and
proves what they agree on.

## What is here

| file | subject |
|---|---|
| `RequestList.dfy` | the request lists and the critical sections of the URB lifecycle, in place |
| `RequestLifecycle.dfy` | every interleaving of submitter, send completion, response, cancellation and completion DPC |
| `RingBuffer.dfy`, `PduHeader.dfy` | the byte ring; response headers and the sizes they announce |
| `Isochronous.dfy`, `IsochronousRing.dfy`, `IsochronousLayout.dfy` | the two isochronous decoders, the layout that is sent, and how they compare |
| `RetSubmit.dfy`, `Receive.dfy`, `ReceiveStream.dfy` | what a response takes off the ring, the PDU framer, and what it does to a whole stream |
| `SendQueue.dfy`, `Rundown.dfy` | the two lock-free protocols: ordered sending, and closing a socket |
| `Seqnum.dfy`, `PatchConfig.dfy` | sequence numbers; the configuration descriptor rewritten in place |
| `EventFanout.dfy`, `Ports.dfy`, `Retry.dfy` | device events for readers, the port table, the schedule of attach attempts |
| `Waitlist.dfy`, `Watchdog.dfy` | waitlists with their wake-up memo; the rule for silent clients |
| `AccessTable.dfy`, `AccessGate.dfy`, `Metadata.dfy` | the access table, the gateway's cached view of it, and hardware-keyed metadata |
| `NtStatus.dfy`, `Wrappers.dfy` | NTSTATUS severities; an optional value |

Code that changes objects or buffers step by step is a class, or a method over an array, whose methods are proved
equal to functions on the value of the object; the laws are lemmas about those functions. Code whose point is
interleaving is a transition system: each critical section or interlocked operation is one step, program counters
stand between them, and the laws are about every run of any length and any number of threads or requests. Locks, WDF,
WSK, the file system and the network appear as parameters and as events whose results are arbitrary.

## Where the code does not do what it is meant to do

These are properties one would expect. For each the condition under which the code does meet it is proved, for most of
them as an equivalence, and several come with a concrete input that fails.

* `send_complete` looks at the result of `on_send_complete` only if the send succeeded. A *warning* from WskSend
  together with a refused `WdfRequestMarkCancelableEx` takes the request off the list and tells nobody
  (`WarningDropsRequest`, `OnlyWarningsDrop`, `DroppedForEver`). Every other request is completed at most once per
  dispatch, and until then exactly one party owns it.
* An unclaimed response whose header adds up to size zero is skipped without progress: `received` never returns
  exactly if it meets one behind PDUs that are whole and taken (`HangsExactlyOnEmpty`), one header with
  `actual_length` -48 is enough (`MinusFortyEightHangs`), and without negative lengths it cannot happen
  (`EndsWithoutNegatives`).
* `ret_submit` has to take the payload off the ring, but a URB without a transfer buffer, data longer than the buffer
  or packets in an answer to an ordinary transfer leave it there, and the connection is given up. `TakenExactly` says
  which responses leave the ring at the next PDU; `AnswerWithoutBufferIsRefused` is one that does not.
* A PDU larger than the ring that is met while bytes of the chunk are still unwritten makes `received` fail, although
  a larger ring was allocated (`RefusedExactlyOnLateGrowth`); the same bytes pass if they are cut after the header
  (`LateGrowthDependsOnTheCut`).
* The ring-buffer decoder accepts packets that would move backward in place, and packets that claim more than
  `actual_length` when nothing follows the response in the ring, because `skip` stops at the end (`RingTakesMore`,
  `OnlyTheRingTakes`).
* The two decoders place bytes in opposite orders. They agree on every payload exactly when no byte belongs to two
  packets; the per-packet check bounds a packet by the length in the response, not the one that was sent, so both take
  responses on which they differ (`OrdersAgreeExactlyWhenApart`, `BothTakeOverlapping`, `EchoedLayoutAccepts`).
* `repack` asserts that the lengths add up to the transfer buffer; they add up to it less the first offset
  (`Repack`).
* A first delay of one second never grows: half of three seconds rounds down (`ReachesTheLimitExactlyFromTwo`).
* Joining a full waitlist drops the client at its front, although the comment promises every other client its
  position (`AppendEvictsExactlyWhenFull`).
* The head of a waitlist is remembered as woken under one lock, and the note for it is posted under another. If the
  mailboxes cannot be written, the memo stays all the same and keeps the head from being woken again (`NoteCanBeLost`,
  `MemoComesWithNote`, `TellingExactly`).
* The watchdog judges a client by what it read when the sweep began. A heartbeat writes its record under one lock and
  resets the miss counter under another; between the two, the sweep can remove the fresh record and take the device,
  whatever the threshold (`HeartbeatUnderWayIsMissed`). With a threshold of two or more that is the only way for a
  client heard from during the sweep to be found due (`JudgedByAnOldRecordExactly`), with a threshold of one or less it
  can happen after a completed heartbeat too (`ThresholdOfOneTrustsTheSnapshot`). And the verdict is not looked at
  again: a heartbeat that begins and ends between it and the unbind changes nothing, for any threshold
  (`HeartbeatAfterVerdictIsMissed`, `HeardFromYetUnboundExactly`).
* Callers that are turned away while a socket closes take part in the count, so that enough of them keep the closer
  waiting until its timeout (`NewcomersCanKeepItWaiting`); any finite number of them does not (`WaitEnds`).
* `AccessGate` refreshes without a lock. A question that falls into another thread's refresh can take the new stat
  fields with the old entries (`OverlappingRefreshesAreStale`), and two refreshes at once can store in the wrong order
  (`LateStoreIsStale`). Even if no question falls into a refresh, an address that every table and every absence of one
  lets in is turned away when the file vanishes between stat and open (`VanishingFileTurnsAway`), when it appears while
  a thread that found none is about to answer (`SwitchingOnTurnsAway`), or when it goes away while a thread that saw the
  gate loaded is about to look at the entries (`SwitchingOffTurnsAway`). There are no other ways: without these, every
  answer of any number of overlapping connections is that of a recent table (`JudgedByARecentTable`), and
  `RecentOutsideRefreshes` and `RecentExactly` say of each single answer whether it is.
* Migration can move an older record without the hide flag in front of the record that has it, and it can move the
  record that hides two like units to the first of them (`HiddenSurvivesExactly`, `HiddenCanBeLost`,
  `HiddenCanBeLostToATwin`).

## Model

Functions that only compute (the views, `Act`, `Next`, `Step`, `Effect` and their like) have no row of their own: the
methods that are proved equal to them and the lemmas about them have.

| member | source | states |
|---|---|---|
| `RequestList.Device.InitRequestCtx` | client/src/drivers/ude/request_list.cpp:201-234 | a reused request starts from a fresh context, on no list; all other requests are untouched |
| `RequestList.Device.PrepareSend` | client/src/drivers/ude/request_list.cpp:238-253 | number and pending flag are set before the request is visible on the list |
| `RequestList.Device.InsertSent` | client/src/drivers/ude/request_list.cpp:255-258 | the request goes to the tail of the sent list, nothing else changes |
| `RequestList.Device.AddToCompletionQueueLocked` | client/src/drivers/ude/request_list.cpp:68-80 | queued exactly if terminal with no flag, list or send left; true exactly on the empty-to-non-empty transition |
| `RequestList.Device.RemoveFromSentListLocked` | client/src/drivers/ude/request_list.cpp:54-60 | removes that request and keeps the order of the others |
| `RequestList.Device.OnSendComplete` | client/src/drivers/ude/request_list.cpp:270-325 | every branch of the section, its status and the DPC it owes; no other request changes |
| `RequestList.Device.FindSentRequest` | client/src/drivers/ude/request_list.cpp:329-370 | the first listed request with the number leaves the list, whoever gets it; the caller owns it unless cancellation was granted first |
| `RequestList.Device.Cancel` | client/src/drivers/ude/request_list.cpp:158-170 | the cancel callback unlists and unmarks its request only |
| `RequestList.Device.EnqueueForCompletion` | client/src/drivers/ude/request_list.cpp:379-407 | an earlier terminal status is preserved; queueing waits for the send |
| `RequestList.Device.TakeCompletion` | client/src/drivers/ude/request_list.cpp:128-149 | one turn of the DPC takes the head with the status its context holds |
| `RequestList.Device.RequestCompletionDpc` | client/src/drivers/ude/request_list.cpp:123-153 | the DPC completes the whole queue in order, each request once, with its own status |
| `RequestList.SettlingExactly` | client/src/drivers/ude/request_list.cpp:68-80 | when a request joins the completion queue, and that nothing else about it changes |
| `RequestList.SendCompletionExactly` | client/src/drivers/ude/request_list.cpp:270-325 | every flag, list and status after a send completion, in terms of those before |
| `RequestList.TakingExactly` | client/src/drivers/ude/request_list.cpp:340-368 | a request that is found is unlisted in either case; who owns it, and that nothing else changes |
| `RequestList.EnqueueingExactly` | client/src/drivers/ude/request_list.cpp:379-407 | the status of the first completion stays, the response is over |
| `RequestLifecycle.EffectKeepsGood` | client/src/drivers/ude/request_list.cpp:201-407 | one owner, flags that match the actors and the first claimant's status survive every section, save the one dropping case |
| `RequestLifecycle.Step` | client/src/drivers/ude/request_list.cpp:201-407 | every step of every actor keeps the invariant of all requests, and loses a request only by the dropping step |
| `RequestLifecycle.CompletedExactlyOnce` | client/src/drivers/ude/request_list.cpp:201-407 | in every interleaving completions never exceed dispatches and trail them by at most one; meanwhile exactly one party owns the request |
| `RequestLifecycle.CompletionIsSafe` | client/src/drivers/ude/request_list.cpp:123-153 | at completion the send is over, nobody else refers to the request, and the status is that of the first claimant |
| `RequestLifecycle.NoCompletionIsLost` | client/src/drivers/ude/request_list.cpp:62-153 | a decided request whose send is over is queued or being completed, and a non-empty queue has a DPC queued, draining or owed |
| `RequestLifecycle.SendCompletionFindsItsRequest` | client/src/drivers/ude/request_list.cpp:284-305 | the seqnum mismatch and not-in-list branches are unreachable |
| `RequestLifecycle.AssertionsHold` | client/src/drivers/ude/request_list.cpp:39-47 | the driver's own assertions on the flags hold in every reachable state |
| `RequestLifecycle.OnlyWarningsDrop` | client/src/drivers/ude/device_ioctl.cpp:79-90 | a dropped request implies a warning from WskSend and a refused mark |
| `RequestLifecycle.DroppedForEver` | client/src/drivers/ude/device_ioctl.cpp:79-90 | no continuation of the run completes a dropped request |
| `RequestLifecycle.WarningDropsRequest` | client/src/drivers/ude/device_ioctl.cpp:79-90 | a concrete run that drops a request |
| `RingBuffer.CapacityIsEnough` | client/src/drivers/ude/ring_buffer.cpp:41-42 | page rounding gives the requested bytes and less than a page more |
| `RingBuffer.OverlayAppends` | client/src/drivers/ude/ring_buffer.cpp:88-101 | storing at the write index, wrapped or not, appends to the contents, also with the index at the capacity |
| `RingBuffer.WrappedSuffix` | client/src/drivers/ude/ring_buffer.cpp:130-133 | moving the read index modulo the capacity drops exactly the oldest bytes |
| `RingBuffer.Ring.Write` | client/src/drivers/ude/ring_buffer.cpp:82-105 | appends as many bytes as fit, in order |
| `RingBuffer.Ring.Peek` | client/src/drivers/ude/ring_buffer.cpp:107-126 | the oldest bytes, across the wrap, with nothing consumed |
| `RingBuffer.Ring.Skip` | client/src/drivers/ude/ring_buffer.cpp:128-137 | drops the oldest bytes, never more than there are |
| `RingBuffer.Ring.Read` | client/src/drivers/ude/ring_buffer.cpp:139-143 | what is returned and what stays are the contents before |
| `RingBuffer.Ring.Realloc` | client/src/drivers/ude/ring_buffer.cpp:24-72 | contents kept in order in at least the requested capacity; succeeds exactly within the limits, changes nothing on failure |
| `RingBuffer.Advance` | client/src/drivers/ude/ring_buffer.cpp:100-131 | the index after a step of at most one turn is below the capacity, whatever state it was in |
| `PduHeader.ProperTotals` | client/src/drivers/libdrv/pdu.cpp:141-147 | the size of the PDU from command, direction, data and packets; a size is the true one unless the signed sum is negative; zero exactly for one negative length |
| `PduHeader.ValidateReadsBack` | client/src/drivers/ude/wsk_receive.cpp:491-522 | whatever header a server writes, big-endian and in two's complement: which are accepted, and that every field is then the one written |
| `PduHeader.FieldsAreRead` | client/src/drivers/libdrv/pdu.cpp:39-47 | the byte order of the response fields is undone, each at its own place |
| `PduHeader.IssuedIsRecognised` | client/src/drivers/ude/wsk_receive.cpp:514-518 | a response with a number of next_seqnum is not refused for it, and gets the direction of its request |
| `Receive.Receiver.PeekHdr` | client/src/drivers/ude/ring_buffer.cpp:149-152 | a header exactly when 48 bytes are there |
| `Receive.Receiver.SubmitUrb` | client/src/drivers/ude/wsk_receive_events.cpp:77 | ret_submit with the request's own memory takes off the ring what the specification says |
| `Receive.Receiver.Finish` | client/src/drivers/ude/wsk_receive_events.cpp:74-85 | exact exactly if ret_submit took the payload of the PDU and nothing else |
| `Receive.Receiver.Deliver` | client/src/drivers/ude/wsk_receive_events.cpp:70-85 | an unclaimed PDU is skipped whole, a claimed one must be consumed whole |
| `Receive.Receiver.Fill` | client/src/drivers/ude/wsk_receive_events.cpp:35-47 | bytes move from chunk to ring without loss; bytes are left over only if the ring is full |
| `Receive.Receiver.Frame` | client/src/drivers/ude/wsk_receive_events.cpp:49-85 | one PDU is taken off exactly as the specification of the stream takes it |
| `Receive.Receiver.Turn` | client/src/drivers/ude/wsk_receive_events.cpp:35-86 | each turn delivers PDUs off the specification and shrinks ring plus chunk |
| `Receive.Receiver.Received` | client/src/drivers/ude/wsk_receive_events.cpp:26-89 | the loop computes the outcome, PDUs, rest and capacity of a function of ring contents and chunk |
| `ReceiveStream.AcceptedFrames` | client/src/drivers/ude/wsk_receive_events.cpp:35-88 | an accepted call delivers the frames of ring plus chunk, and each claimed one took exactly its payload off the ring as it was then |
| `ReceiveStream.FramesSplit` | client/src/drivers/ude/wsk_receive_events.cpp:35-88 | framing a prefix and the remainder later gives the frames of the whole |
| `ReceiveStream.FramesConserveBytes` | client/src/drivers/ude/wsk_receive_events.cpp:35-88 | frames and remainder are the stream, byte for byte |
| `ReceiveStream.FramesMatchRecvLoop` | client/src/drivers/ude/wsk_receive_irp.cpp:249-276 | the frames are what reading header then payload yields, exactly when none is shorter than a header |
| `ReceiveStream.ChunksDoNotMatter` | client/src/drivers/ude/wsk_receive_events.cpp:26-89 | for every split into accepted chunks, PDUs and bytes left are those of the concatenation |
| `ReceiveStream.ChunksMatchRecvLoop` | client/src/drivers/ude/wsk_receive_irp.cpp:249-276 | the event receiver, over any accepted chunks, reads what the IRP receiver reads |
| `ReceiveStream.RefusedExactlyOnLateGrowth` | client/src/drivers/ude/wsk_receive_events.cpp:55-88 | a well-framed chunk whose claimed PDUs take their payloads is refused exactly if the ring must grow while bytes are unwritten |
| `ReceiveStream.LateGrowthDependsOnTheCut` | client/src/drivers/ude/wsk_receive_events.cpp:55-88 | concrete bytes that are refused in one chunk and accepted in two |
| `ReceiveStream.GrowsUpToFourMiB` | client/src/drivers/ude/ring_buffer.cpp:24-72 | a ring of one page grows for 65536 bytes of data and for 4 MiB in all, and not for one byte more |
| `ReceiveStream.HangsExactlyOnEmpty` | client/src/drivers/ude/wsk_receive_events.cpp:53-73 | the loop runs for ever exactly if it meets an unclaimed PDU of size zero behind whole PDUs that are taken |
| `ReceiveStream.EndsWithoutNegatives` | client/src/drivers/ude/wsk_receive_events.cpp:35-88 | it always ends if no header announces a negative amount of data |
| `ReceiveStream.MinusFortyEightHangs` | client/src/drivers/ude/wsk_receive_events.cpp:53-73 | one concrete header on which it does not end |
| `Isochronous.PlacePacket` | client/src/drivers/ude/wsk_receive.cpp:211-230 | accepted exactly if it fits, the payload suffices and it does not move backward; the overlapping move copies it unharmed |
| `Isochronous.RefusedPacket` | client/src/drivers/ude/wsk_receive.cpp:211-228 | a packet that fails a check means that the response as a whole is not acceptable |
| `Isochronous.PlacedPacket` | client/src/drivers/ude/wsk_receive.cpp:223-230 | moving a packet leaves every byte not yet moved where it is |
| `Isochronous.FillInPlace` | client/src/drivers/ude/wsk_receive.cpp:195-239 | succeeds exactly for acceptable responses, and the buffer is then the payload scattered over the packet ranges |
| `Isochronous.InPlaceAcceptsExactly` | client/src/drivers/ude/wsk_receive.cpp:158-239 | the acceptable responses, spelled out: offsets of the URB, lengths, buffer, no packet backward, and the sum |
| `IsochronousRing.ReadInto` | client/src/drivers/ude/wsk_receive.cpp:282 | as many bytes as the ring has, in place, taken off the ring |
| `IsochronousRing.NextDescriptor` | client/src/drivers/ude/wsk_receive.cpp:265-267 | descriptors are read in order off the second cursor |
| `IsochronousRing.TakePacket` | client/src/drivers/ude/wsk_receive.cpp:273-282 | refused exactly if it does not fit; otherwise the scatter advances by that packet |
| `IsochronousRing.ReadPackets` | client/src/drivers/ude/wsk_receive.cpp:263-283 | the loop gets through exactly if all packets fit, and then all of them are stored and updated |
| `IsochronousRing.TakenTogether` | client/src/drivers/ude/wsk_receive.cpp:285-288 | the size check at the end accepts exact sums, and larger ones when nothing follows in the ring |
| `IsochronousRing.FillFromRing` | client/src/drivers/ude/wsk_receive.cpp:245-291 | succeeds exactly for the responses that the ring decoder accepts; buffer and packets are then determined, and in every case what was taken off the ring |
| `IsochronousRing.RingAcceptsExactly` | client/src/drivers/ude/wsk_receive.cpp:158-288 | the IN responses that the ring decoder accepts, spelled out the same way |
| `IsochronousRing.OutAcceptsExactly` | client/src/drivers/ude/wsk_receive.cpp:250-288 | an OUT response is accepted exactly if its descriptors are there |
| `IsochronousRing.DecodeReadsBack` | client/src/drivers/libdrv/pdu.cpp:90-101 | a packet descriptor as a server writes it is read field by field |
| `RetSubmit.FinishTransfer` | client/src/drivers/ude/wsk_receive.cpp:420-448 | which answers to ordinary transfers are errors, how much of the ring is taken and that it is at the start of the buffer, the rest of which stays, and what the bytes completed are set to |
| `RetSubmit.FinishIsoch` | client/src/drivers/ude/wsk_receive.cpp:298-345 | the checks before the ring is looked at, then the ring decoder, with packets and buffer as it leaves them |
| `RetSubmit.Submit` | client/src/drivers/ude/wsk_receive.cpp:479-487 | status and bytes taken for every kind of request |
| `RetSubmit.ShortAnswers` | client/src/drivers/ude/wsk_receive.cpp:428-448 | an answer no longer than the buffer: success, bytes taken and bytes completed, in both directions |
| `RetSubmit.LongAnswers` | client/src/drivers/ude/wsk_receive.cpp:430-435 | an answer longer than the buffer, or of negative length, is an error that completes zero bytes |
| `RetSubmit.NegativeAnswers` | client/src/drivers/ude/wsk_receive.cpp:430-448 | the one negative length that passes for the length of the buffer |
| `RetSubmit.AnswersWithoutBuffer` | client/src/drivers/ude/wsk_receive.cpp:423-426 | without a buffer nothing is read, and it is an error unless the URB has none |
| `RetSubmit.IsochAnswers` | client/src/drivers/ude/wsk_receive.cpp:313-345 | exactly which isochronous answers succeed, and when the ring is not looked at |
| `RetSubmit.TakenExactly` | client/src/drivers/ude/wsk_receive_events.cpp:74-85 | exactly which responses leave the ring where the framer expects it |
| `ReceiveStream.AnswerWithoutBufferIsRefused` | client/src/drivers/ude/wsk_receive.cpp:423-426 | a concrete response that succeeds, leaves its payload in the ring and ends the connection |
| `RetSubmit.AcceptedIsochTakesPayload` | client/src/drivers/ude/wsk_receive_events.cpp:74-85 | an isochronous response that is answered with success takes its payload exactly |
| `IsochronousLayout.Repack` | client/src/drivers/ude/device_ioctl.cpp:366-390 | succeeds exactly for offsets in order; each packet ends where the next starts; the total misses the first offset |
| `IsochronousLayout.SentReachesToTheNext` | client/src/drivers/ude/device_ioctl.cpp:366-390 | the descriptor that is sent for each packet, field by field |
| `IsochronousLayout.InOrderExactly` | client/src/drivers/ude/device_ioctl.cpp:366-390 | which layouts can be sent: offsets that do not decrease and end inside the buffer |
| `IsochronousLayout.EchoedLayoutAccepts` | client/src/drivers/ude/wsk_receive.cpp:158-239 | with the layout echoed, a response is accepted exactly if packets stay within their lengths and add up; no packet ever moves backward, none overlap |
| `IsochronousLayout.ScatterDownAt` | client/src/drivers/ude/wsk_receive.cpp:200-230 | last to first: each byte is that of the lowest packet that covers it |
| `IsochronousLayout.ScatterUpAt` | client/src/drivers/ude/wsk_receive.cpp:263-283 | first to last: each byte is that of the highest packet that covers it |
| `IsochronousLayout.DecodersStoreTheSame` | client/src/drivers/ude/wsk_receive.cpp:195-291 | both decoders put the same payload byte into every byte of every packet |
| `IsochronousLayout.PaddingIsKept` | client/src/drivers/ude/wsk_receive.cpp:195-291 | bytes between packets are not written by either order |
| `IsochronousLayout.OrdersAgreeExactlyWhenApart` | client/src/drivers/ude/wsk_receive.cpp:195-291 | the two orders agree on all payloads if and only if no byte belongs to two packets |
| `IsochronousLayout.RingTakesMore` | client/src/drivers/ude/wsk_receive.cpp:245-291 | exactly which responses, of all that are complete in the ring, only the ring decoder accepts |
| `IsochronousLayout.RingTakesMoreOfEchoed` | client/src/drivers/ude/wsk_receive.cpp:285-288 | with the layout echoed, only claims that are too large are left of the difference |
| `IsochronousLayout.BothTakeOverlapping` | client/src/drivers/ude/wsk_receive.cpp:195-291 | a concrete response that both decoders take and store differently |
| `IsochronousLayout.OnlyTheRingTakes` | client/src/drivers/ude/wsk_receive.cpp:285-288 | a concrete response that only the ring decoder takes |
| `SendQueue.NoEntryTwice` | client/src/drivers/libdrv/lists.cpp:9-20 | a chain that ends holds no entry twice |
| `SendQueue.Reverse` | client/src/drivers/libdrv/lists.cpp:9-20 | the pointers are turned around in place, the chain is the reversed one |
| `SendQueue.Device.PushEntry` | client/src/drivers/ude/device_ioctl.cpp:189 | a push is one step of the protocol, in every state |
| `SendQueue.Device.TryEnter` | client/src/drivers/ude/device_ioctl.cpp:130-132 | the exchange lets a thread in exactly if nobody is sending |
| `SendQueue.Device.TakeAll` | client/src/drivers/ude/device_ioctl.cpp:135 | the whole list is taken at once, oldest first |
| `SendQueue.Device.SendOne` | client/src/drivers/ude/device_ioctl.cpp:137-149 | one context goes out, nothing else changes |
| `SendQueue.Device.Leave` | client/src/drivers/ude/device_ioctl.cpp:155 | giving up the flag is one step of the protocol |
| `SendQueue.Device.SendPending` | client/src/drivers/ude/device_ioctl.cpp:128-158 | all that is pending goes out in push order, and so does what other threads push while it sends |
| `SendQueue.RunKeepsInv` | client/src/drivers/ude/device_ioctl.cpp:126-158 | at most one thread holds the flag, somebody will look at a non-empty list, and sent, taken and listed contexts are the pushed ones in order |
| `SendQueue.SendsInPushOrder` | client/src/drivers/ude/device_ioctl.cpp:126-158 | one sender at a time; what went to WskSend is a prefix of what was pushed |
| `SendQueue.NothingIsLeftBehind` | client/src/drivers/ude/device_ioctl.cpp:155-157 | when no thread is inside, the list is empty and everything was sent in push order |
| `SendQueue.ActGetsCloser` | client/src/drivers/ude/device_ioctl.cpp:126-158 | without pushes every step of every thread gets closer to the end |
| `SendQueue.EveryScheduleDrains` | client/src/drivers/ude/device_ioctl.cpp:126-158 | whatever the schedule, the threads leave after finitely many steps and everything has been sent |
| `Rundown.PackIsReadBack` | client/src/drivers/libdrv/wsk_cpp.cpp:229-234 | flags and counter share the word without disturbing each other |
| `Rundown.Socket.Enter` | client/src/drivers/libdrv/wsk_cpp.cpp:244-246 | the increment and its test are one step of the protocol, in every state |
| `Rundown.Socket.Leave` | client/src/drivers/libdrv/wsk_cpp.cpp:254 | the decrement finds the last caller exactly when the word equals CLOSING |
| `Rundown.Socket.SetEventBit` | client/src/drivers/libdrv/wsk_cpp.cpp:255 | the bit is set by one thread only; also the closer's own step |
| `Rundown.Socket.SetEvent` | client/src/drivers/libdrv/wsk_cpp.cpp:256 | signalling is one step of the protocol |
| `Rundown.Socket.BeginClose` | client/src/drivers/libdrv/wsk_cpp.cpp:348-356 | refused, waiting or marking, by the old word; CLOSING is set once |
| `Rundown.RunKeepsInv` | client/src/drivers/libdrv/wsk_cpp.cpp:239-260 | the word counts the callers inside; one closer, one signaller; once the event is due no accepted call is in flight |
| `Rundown.NothingRunsAfterClose` | client/src/drivers/libdrv/wsk_cpp.cpp:344-360 | after wait_invokers succeeded no accepted call runs in any later state; the counter holds rejected callers only |
| `Rundown.ClosingTurnsCallersAway` | client/src/drivers/libdrv/wsk_cpp.cpp:244-246 | once CLOSING is set it stays, and no step accepts a call |
| `Rundown.OneSignalOneCloser` | client/src/drivers/libdrv/wsk_cpp.cpp:254-257 | the event is set at most once and only one closer succeeds |
| `Rundown.CloserFindsOnlyTheCounter` | client/src/drivers/libdrv/wsk_cpp.cpp:348-351 | the closer's assertion: the old word is the number of callers inside |
| `Rundown.LastCallerSignals` | client/src/drivers/libdrv/wsk_cpp.cpp:254-257 | a closer that waits has been signalled as soon as nobody else is inside |
| `Rundown.WaitEnds` | client/src/drivers/libdrv/wsk_cpp.cpp:239-260 | whatever the schedule and however many newcomers are turned away meanwhile, all callers leave and the closer can go on |
| `Rundown.NewcomersCanKeepItWaiting` | client/src/drivers/libdrv/wsk_cpp.cpp:244-257 | runs of any length in which callers that are turned away keep the closer from being signalled |
| `Seqnum.Device.NextSeqnum` | client/src/drivers/ude/context.cpp:102-115 | the next non-zero number part with the direction bit, at most one value being skipped; all numbers handed out stay an issued run |
| `Seqnum.NumbersRepeatExactlyAfterAll` | client/src/drivers/ude/context.cpp:102-115 | of two calls at most 2^31 - 1 apart, the number parts are equal exactly if the calls are that far apart |
| `Seqnum.ResponseMatchesAtMostOne` | client/src/drivers/ude/request_list.cpp:336-341 | a response matches at most one listed request |
| `PatchConfig.ToHighSpeedInterval` | client/src/drivers/ude/wsk_receive.cpp:55-70 | the least interval whose 2^(i-1) microframes cover the old interval (sections 5.7.4 and 9.6.6 of USB 2.0) |
| `PatchConfig.HighSpeedInterval` | client/src/drivers/ude/wsk_receive.cpp:55-70 | the same interval as a function, for all 256 values |
| `PatchConfig.IsochronousPeriodIsKept` | client/src/drivers/ude/wsk_receive.cpp:131-138 | the isochronous period is unchanged in time exactly up to interval 13 |
| `PatchConfig.FindNext` | client/src/drivers/libdrv/usbdsc.cpp:13-45 | the next whole descriptor of the type in the chain, never past wTotalLength |
| `PatchConfig.PatchEndpoint` | client/src/drivers/ude/wsk_receive.cpp:125-145 | packet size or interval of one endpoint, by its transfer type |
| `PatchConfig.Patch` | client/src/drivers/ude/wsk_receive.cpp:112-154 | patching while walking equals patching the endpoints found in the descriptor as it arrived |
| `PatchConfig.PatchedAllKeeps` | client/src/drivers/ude/wsk_receive.cpp:112-154 | no byte but sizes and intervals of endpoints changes |
| `PatchConfig.PatchingKeepsTheChain` | client/src/drivers/ude/wsk_receive.cpp:112-154 | the walk over the patched bytes meets the same descriptors |
| `PatchConfig.EachEndpointOnce` | client/src/drivers/ude/wsk_receive.cpp:112-154 | every endpoint ends up patched once, from its original bytes |
| `PatchConfig.EndpointValues` | client/src/drivers/ude/wsk_receive.cpp:125-145 | size and interval of every endpoint after patching, by its transfer type |
| `PatchConfig.EndpointsAreAllOfThem` | client/src/drivers/libdrv/usbdsc.cpp:13-45 | the endpoints that are patched are all descriptors of type 5 in the chain |
| `PatchConfig.MouseIsPatched` | client/src/drivers/ude/wsk_receive.cpp:112-154 | one whole configuration, byte by byte |
| `EventFanout.Reader.TakeRead` | client/src/drivers/ude/vhci_ioctl.cpp:999-1017 | a read subscribes and gets the oldest event, or waits if there is none |
| `EventFanout.Reader.ProcessEvent` | client/src/drivers/ude/vhci.cpp:813-845 | an event completes a waiting read or joins the backlog, the oldest making room |
| `EventFanout.Hub.Open` | client/src/drivers/ude/vhci.cpp:533-551 | a new file object counts for nothing until it reads |
| `EventFanout.Hub.Cleanup` | client/src/drivers/ude/vhci.cpp:556-573 | the counter of subscribers stays right when a reader leaves |
| `EventFanout.Hub.Read` | client/src/drivers/ude/vhci_ioctl.cpp:980-1019 | the first read counts the reader once; other readers are untouched |
| `EventFanout.Hub.ProcessEvent` | client/src/drivers/ude/vhci.cpp:849-865 | every subscribed reader gets the event, no other does, and the closing assertion on the count holds |
| `EventFanout.EventsArriveInOrder` | client/src/drivers/ude/vhci.cpp:812-865 | over every history: delivery in emission order, the backlog the latest events within the bound, empty while a read waits, losses only of events overtaken by as many as the bound |
| `EventFanout.NothingLostWithinTheBound` | client/src/drivers/ude/vhci.cpp:831-833 | up to the bound nothing is lost |
| `EventFanout.ReadsAreAccountedFor` | client/src/drivers/ude/vhci_ioctl.cpp:980-1019 | over every history, each read gets one event, waits, has failed or was cancelled |
| `EventFanout.ReadingExactly` | client/src/drivers/ude/vhci_ioctl.cpp:999-1017 | the oldest event if there is one, otherwise the manual queue |
| `EventFanout.OfferingExactly` | client/src/drivers/ude/vhci.cpp:813-845 | a waiting read is completed at once; otherwise the event joins the backlog, and the oldest leaves if it was full |
| `Ports.Vhci.ClaimRoothubPort` | client/src/drivers/ude/vhci.cpp:875-902 | the lowest free port of the speed's range, zero exactly if it is full; slots and ports stay inverse |
| `Ports.Vhci.ReclaimRoothubPort` | client/src/drivers/ude/vhci.cpp:907-931 | the slot is freed and its reference given back exactly if the device has a port |
| `Ports.Vhci.Detach` | client/src/drivers/ude/device.cpp:745-789 | the body runs for the first caller only, once per device |
| `Ports.Vhci.Plugin` | client/src/drivers/ude/vhci_ioctl.cpp:181-212 | succeeds exactly if a port of the speed is free and the framework and the receiver start, with the lowest such port; a failed plug-in leaves the table as it was |
| `Ports.Vhci.DetachAllDevices` | client/src/drivers/ude/vhci.cpp:977-989 | every slot is empty and every device that had a port was detached once |
| `Retry.NextDelay` | client/src/drivers/ude/persistent.h:62-72 | grows but never beyond the limit; stays exactly at the limit and at one second |
| `Retry.DelaysNeverShrink` | client/src/drivers/ude/persistent.h:62-72 | the sequence of delays is non-decreasing |
| `Retry.ReachesTheLimitExactlyFromTwo` | client/src/drivers/ude/persistent.h:62-72 | the limit is reached unless the delays start at one second below it |
| `Retry.GetMaxAttachAttempts` | client/src/drivers/ude/vhci.cpp:239-254 | the delays of the result fit the total, one more does not |
| `Retry.LargestCountThatFits` | client/src/drivers/ude/vhci.cpp:239-254 | a run of delays fits exactly if it is no longer than the result |
| `Retry.DefaultAttempts` | client/src/drivers/ude/vhci.cpp:266-271 | twenty attempts are what two hours hold |
| `Retry.InitConstants` | client/src/drivers/ude/vhci.cpp:261-324 | both delays from what the registry says, in range and in order; attempts are cut down only if they would exceed 72 hours |
| `Retry.AttachRequest.OnPluginHardware` | client/src/drivers/ude/persistent.cpp:261-301 | retries exactly under the stated conditions, waits the current delay and moves on to the next |
| `Retry.AttachRequest.WaitsNoLongerThanAllowed` | client/src/drivers/ude/persistent.cpp:492-514 | one request never waits more than 72 hours, plus 30 seconds if it was delayed |
| `Waitlist.QueuedIsGood` | server/web.py:1517-1541 | after joining: no duplicates, at most 16, the client last |
| `Waitlist.Joining` | server/web.py:1517-1541 | list and memo after joining, all other devices untouched |
| `Waitlist.Leaving` | server/web.py:1544-1559 | who leaves is off the list, all others are on it, the memo stays exactly with the head |
| `Waitlist.LeavingAll` | server/web.py:1562-1584 | the same for clients that leave all lists |
| `Waitlist.Clearing` | server/web.py:1587-1643 | clearing a list, forgetting a memo and emptying a mailbox, and what they leave alone |
| `Waitlist.BadNames` | server/web.py:1529-1532 | names that are not accepted change nothing |
| `Waitlist.WakingExactly` | server/web.py:1736-1758 | the head is woken exactly if the device is shared and free and it has not been told already |
| `Waitlist.Posting` | server/web.py:1781-1795 | mailbox after a note: it is last, the only one about its device, the newest 32 stay |
| `Waitlist.AppendEvictsExactlyWhenFull` | server/web.py:1520-1538 | the others keep their places exactly if fewer than 16 wait; otherwise the front one is dropped |
| `Waitlist.FilterKeepsOrder` | server/web.py:1520-1598 | taking clients off a list keeps the relative order of the rest, both ways |
| `Waitlist.OthersKeepTheirOrder` | server/web.py:1520-1538 | joining keeps the relative order of all others that keep a place |
| `Waitlist.StepKeepsValid` | server/web.py:1517-1643 | every operation keeps lists, memo and mailboxes in order, whether or not the files can be written |
| `Waitlist.RunKeepsValid` | server/web.py:1517-1643 | so does every sequence of operations |
| `Waitlist.WokenAgainOnlyAfterForgetting` | server/web.py:1616-1643 | the same head is woken twice only if its memo was dropped in between |
| `Waitlist.MemoDroppedOnlyFor` | server/web.py:1616-1643 | a memo is dropped only when the device is taken, the server restarts, the list is cleared or gets another head |
| `Waitlist.MemoComesWithNote` | server/web.py:1747-1760 | in every interleaving, whoever is remembered was woken and has been remembered since, and the note is still to be posted or its posting was tried since |
| `Waitlist.TellingExactly` | server/web.py:1781-1795 | the note is then the last in the mailbox exactly if the file could be written; otherwise nothing changes, and while the memo stays nobody is woken |
| `Waitlist.NoteCanBeLost` | server/web.py:1747-1760 | a concrete run that remembers a head that was never told |
| `Waitlist.PostedIsGood` | server/web.py:1781-1795 | one note a device, at most 32, the new one last |
| `Waitlist.Queues.QueueAppend` | server/web.py:1517-1541 | invalid names change nothing; otherwise list and memo become those of the specification |
| `Waitlist.Queues.QueueRemove` | server/web.py:1544-1559 | the client leaves that list only; an emptied list disappears with its memo |
| `Waitlist.Queues.KeepClients` | server/web.py:1568-1584 | clients leave every list; exactly the lists they were on are touched |
| `Waitlist.Queues.QueueClear` | server/web.py:1587-1598 | the list disappears with its memo, if there was one |
| `Waitlist.Queues.QueueForgetNotified` | server/web.py:1632-1643 | the memo of that device is dropped, nothing else |
| `Waitlist.Queues.PopQueueNotificationsFor` | server/web.py:1802-1817 | all notes of the client, and none of them a second time |
| `Waitlist.Queues.WakeHead` | server/web.py:1736-1758 | returns and remembers the front of the list exactly if the name is safe, the device shared and not held, and the front not told already; otherwise nothing changes |
| `Waitlist.Queues.QueueNotifyHeadIfFree` | server/web.py:1730-1760 | with nothing in between, the memo and then the note to the same head, or nothing at all; while the device is held, memo and mailboxes stay |
| `Waitlist.Queues.QueueNotifyClient` | server/web.py:1781-1795 | the note replaces an older one about the same device |
| `Watchdog.Grace` | server/web.py:3154-3168 | zero for never, otherwise the larger of the setting and one and a half heartbeats plus ten seconds per miss allowed |
| `Watchdog.JudgedExactly` | server/web.py:3200-3231 | the verdict on a client in terms of the settings, its silence and its counter |
| `Watchdog.UnbindsExactly` | server/web.py:3128-3151 | a release goes through exactly if the device is shared and every holder sits at the client's own address |
| `Watchdog.Server.Look` | server/web.py:3202-3248 | one client's turn of the sweep is a visit of the protocol, whatever else is going on |
| `Watchdog.Server.WatchdogSweep` | server/web.py:3171-3282 | undisturbed, a sweep takes exactly the clients that are due, removes their records as far as they can be removed, counts exactly the late ones once, and forgets all others |
| `Watchdog.RunKeepsInv` | server/web.py:3171-3282 | the miss counter never runs ahead of the looks since the last completed heartbeat, in every interleaving of sweeps and of the halves of heartbeats and goodbyes |
| `Watchdog.OneLookASweep` | server/web.py:3192-3208 | the looks that are counted belong to different sweeps |
| `Watchdog.UnbindsOnlyTheSilent` | server/web.py:3128-3282 | an unbind implies, at the verdict, the threshold of looks without a completed heartbeat and a record older than a positive grace period; that record is the last one then, and still at the unbind, unless a heartbeat wrote another during the sweep; no holder sits at another address |
| `Watchdog.HeardFromYetUnboundExactly` | server/web.py:3202-3280 | at the unbind, a client has been heard from during the sweep exactly if a heartbeat wrote its record after the verdict or, from threshold two on, was under way at it |
| `Watchdog.JudgedByAnOldRecordExactly` | server/web.py:1267-1284 | with a threshold of two or more, a client found due was heard from during the sweep exactly if a heartbeat of it has not yet reset the counter |
| `Watchdog.HeartbeatUnderWayIsMissed` | server/web.py:1267-1284 | for every threshold, a run in which such a client loses its record and its device |
| `Watchdog.HeartbeatAfterVerdictIsMissed` | server/web.py:3237-3280 | every run with a due client continues to an unbind after a whole heartbeat of it |
| `Watchdog.ThresholdOfOneTrustsTheSnapshot` | server/web.py:3187-3208 | a client whose heartbeat was completed during the sweep, before it is looked at, can be found due exactly if the threshold is at most one |
| `AccessTable.Table.Write` | server/web.py:472-492 | no password: the file goes away; otherwise the table is replaced whole or not at all |
| `AccessTable.Table.Authorize` | server/web.py:571-585 | the address may connect exactly until its time is up, all other grants stand, nothing is written after a failed read |
| `AccessTable.Table.Renew` | server/web.py:588-610 | only a grant still in force is renewed, and only its expiry changes |
| `AccessTable.Table.Revoke` | server/web.py:613-627 | the address may not connect at any time, all other grants stand; an unreadable table is left alone |
| `AccessGate.Gate.CheckFile` | server/gateway.py:192-225 | asks for a reload exactly if the gate was not loaded, modification time, inode or size differ, or a second has passed; as in the protocol |
| `AccessGate.Gate.JudgeAddress` | server/gateway.py:262-269 | one question in one go is the protocol's stat, read, store, look and answer; a file that differs from the noted one is answered by its own content, whatever was cached |
| `AccessGate.RunKeepsInv` | server/gateway.py:192-256 | in every run the cached entries are those of the file at a known step, and each refresh under way has read no earlier than its question |
| `AccessGate.RunSettles` | server/gateway.py:192-256 | if no stat falls into a refresh, what every waiting thread will answer by was read in time for its question, or was read off no file while some step in time had none |
| `AccessGate.RecentOutsideRefreshes` | server/gateway.py:262-269 | if no stat falls into a refresh: an answer is stale exactly if it is given off entries with no file behind them and all tables of the last second let the address in |
| `AccessGate.JudgedByARecentTable` | server/gateway.py:262-269 | for any number of overlapping connections of which none asks during a refresh, if every open finds the file and the gate is not switched under somebody about to answer: each answer is that of the file, or of its absence, less than a second before the question or later |
| `AccessGate.RecentExactly` | server/gateway.py:262-269 | in every run, an answer is stale exactly if it is given off entries and no step of the last second says what the table says that they were read from |
| `AccessGate.QuestionDuringRefresh` | server/gateway.py:209-228 | exactly which question during a refresh, answered at once, gets a stale answer |
| `AccessGate.OldEntriesNeedAnUnchangedFile` | server/gateway.py:209-216 | outside of refreshes, an answer by entries read before the question implies that the file had the stat fields of the stat before that reading, less than a second earlier |
| `AccessGate.OwnRefreshIsRecent` | server/gateway.py:218-225 | in every run, a thread that reloaded the table itself and answers at once is wrong exactly if its open found no file and all tables of the last second let the address in |
| `AccessGate.OverlappingRefreshesAreStale` | server/gateway.py:209-228 | a concrete run of two connections in which the answer is older than that |
| `AccessGate.LateStoreIsStale` | server/gateway.py:218-225 | a concrete run in which a slow refresh puts old entries back |
| `AccessGate.VanishingFileTurnsAway` | server/gateway.py:233-244 | a concrete run of one connection: the file vanishes between stat and open, and a refusal matches no table |
| `AccessGate.SwitchingOnTurnsAway` | server/gateway.py:209-224 | a concrete run in which the gate is turned on under a thread that found no file |
| `AccessGate.SwitchingOffTurnsAway` | server/gateway.py:195-208 | a concrete run in which the entries are cleared under a thread that saw the gate loaded |
| `Metadata.HidingTakesEffect` | server/web.py:2197-2226 | hiding hides and unhiding shows, for every key layout and every store |
| `Metadata.EffectiveIs` | server/web.py:910-959 | which record a device shows, key by key |
| `Metadata.ForeignMarksExactly` | server/web.py:877-894 | which records are a device's own, and which contradict it, mark by mark |
| `Metadata.HidingRecordsTheDevice` | server/web.py:2197-2226 | the record of a hidden device: its key, its marks and the name it keeps |
| `Metadata.HidingKeepsTheName` | server/web.py:2200-2209 | a name that is shown stays shown, wherever the flag lands |
| `Metadata.HidingTouchesOnlyItsKeys` | server/web.py:2197-2226 | names under other keys stay, and flags are cleared only under keys the device reads |
| `Metadata.MigrationIsIdempotent` | server/web.py:1043-1103 | migrating twice is migrating once, for every device list and store |
| `Metadata.MigratedAt` | server/web.py:1061-1081 | which keys the loop leaves: legacy ones unless a device takes them, others if they were there or are a target; and the first hide flag that arrives at each |
| `Metadata.MigratedRecords` | server/web.py:1061-1081 | and apart from the flag, the record that was there or else the first that was moved |
| `Metadata.PortKeysExactly` | server/web.py:1082-1095 | keys of ports are dropped exactly if no device is at the port |
| `Metadata.HiddenSurvivesExactly` | server/web.py:1043-1103 | for every list of devices, exactly when migration lets a hidden device appear |
| `Metadata.HiddenCanBeLost` | server/web.py:1061-1079 | a concrete store in which an older record without the flag is moved in front |
| `Metadata.HiddenCanBeLostToATwin` | server/web.py:1061-1079 | a concrete store in which another unit takes the record that hid it |
| `Metadata.Store.MigrateDevices` | server/web.py:1061-1081 | the loop over the devices moves the records one after the other; without a note nothing changed |
| `Metadata.Store.MigrateMetadata` | server/web.py:1043-1103 | the file becomes the migrated one, or stays and is what the caller gets |
| `Metadata.Store.SetDeviceHidden` | server/web.py:2197-2229 | the stored values become those of the specification, or stay if the file cannot be written |

## Left out

- `RequestLifecycle.NoCompletionIsLost`: says who is going to drain the queue, not that the framework ever runs a queued DPC.
- `Receive.Receiver.Received`: which numbers are listed and what their requests bring along are parameters; the status a request is completed with is that of `RetSubmit.Submit` and not part of what is delivered.
- `RetSubmit.Submit`: the URB status is not set; the result of UdecxUrbRetrieveBuffer is a parameter.
- `RetSubmit.FinishTransfer`: the buffer is described as it is after the read; the rewriting of descriptors that follows is `PatchConfig`, the replaced serial number index is not modelled.
- `RetSubmit.FinishIsoch`: error count, start frame and the status for a wholly failed request are not set.
- `Isochronous.FillInPlace`: packet fields after a refusal are not described; translation of packet status is a parameter.
- `Rundown.WaitEnds`: the 30-second timeout of the wait is not modelled, and fewer than 2^61 threads are assumed; the assertion that the counter is zero after closing is not claimed, late callers falsify it harmlessly.
- `Ports.Vhci.Detach`: plug-out, reattachment and closing the socket are not modelled; calls come one at a time, from the sequential queue, and a detached device is not plugged in again.
- `EventFanout.Hub.Read`: reads come from file objects that have not been cleaned up; copying the event into the read buffer is taken to succeed.
- `AccessGate.JudgedByARecentTable`: stat, the comparison of its fields and their assignment are one step, and so is clearing a gate whose file is gone.
- `Metadata.HiddenSurvivesExactly`: preservation of displayed names is not claimed.
- `PatchConfig.Patch`: the debug assertion that an interrupt interval is not zero is not claimed; a zero interval becomes one.
- `Watchdog.Server.WatchdogSweep`: the unbind itself and the waitlists it touches are not part of the loop; which unbinds are allowed is `UnbindsOnlyTheSilent`.
- `SendQueue.Device.SendPending`: other threads only push during its rounds; the classes of the lock-free parts give the single operations, their full interleaving is the transition system.
- Cut-off lengths of stored texts (names, fingerprints beyond 200 characters) and the parsing of JSON files.
- Statistics counters, tracing and the detach that `send_complete` starts when a connection was reset.
- WDF, WSK, UdeCx, MDLs, registry, DNS, sysfs, subprocesses, HTTP, tokens and passwords: parameters and events where the model needs their results.
- The session table and the byte relay of the gateway, the import sniffer, status translation tables and all of the user-space client: they would add easy members only.
