# Verified models of the ESP32 library bundle

Dafny models of the parts of the bundle that carry invariants, with proofs about them. Each module follows one
component; the classes update in place as the C++ does and are proved against functions on values, and the protocol
results are lemmas about those functions. `dafny verify dfyconfig.toml` checks everything.

| files | component |
|---|---|
| `Basics` | bytes and options |
| `WebSocketFrame`, `WebSocketSender`, `WebSocketReceiver`, `WebSocketRoundTrip`, `WebSocketObjects` | WebSocket framing in both directions: `webSocketSendFrame`, the `send`/`ack` pair of both message classes, the resumable parser `_onData`, and their composition (sections 5.2 to 5.4 of RFC 6455) |
| `WebSocketQueue`, `WebSocketBooks`, `WebSocketAnswers`, `WebSocketShared`, `WebSocketStall` | a client's message and control queues: what arrives in every run, when the client goes on sending, and how pings are answered; a broadcast of one shared text under every interleaving of its messages; when `_onData` returns, for 64-bit lengths |
| `AsyncTcpQueue`, `AsyncTcpProtocol`, `AsyncTcpConcurrent`, `AsyncTcpOrder`, `AsyncTcpObjects` | AsyncTCP's two-thread event protocol: lwIP callbacks push, the async task dispatches, closing purges the queue by rotation, and slots mark dead control blocks; first with the purge as one step, then with lwIP pushing between its turns; the orders that slots and events keep |
| `WildcardMatch` | `matchWild`, greedy matching with one backtrack point |
| `SectionTracking`, `GeneratorOdometer` | Catch's section tracker, its run loop, and the generator odometer |
| `EventStream`, `EventReader`, `AckCarry` | server-sent events: the encoder, a reader by section 9.2.6 of the HTML Living Standard, and the carry of acknowledged bytes |
| `SharedBuffers`, `RecursiveLock` | reference-counted message buffers under broadcasts, and the re-entrant lock, each as a state machine over every interleaving of its steps |
| `HeapList`, `ScanList`, `JsonResponse` | the heap linked list, the WiFi scan list, and the windowed JSON response |

Shared reading of the tables: bytes are integers below 256, with bit operations written as arithmetic;
`size_t` is unbounded except where the code's own truncation matters (`_onData` casts a 64-bit length to 32 bits);
the transport is `space`/`add`/`send`; the event queue is a sequence of at most 32 packets; a control block, a task and a
buffer are identities. Random mask keys, window sizes, acknowledgements, thread interleavings and the bytes that
`malloc` leaves in a header block are parameters, so every result holds for all of them.

What the code does not do, each stated as an exact condition: `SendFrameReadableIff`, `AccountingExactIff`,
`EmptyMessageSendsNothing`, `SharedTextSurvivesIff`, `BroadcastArrivesIff`, `BooksBalanceIff`,
`PingsAnsweredWholeIff`, `ReturnsIff`, `TerminatorAfterEmptyFrameIff`, `DeletedIff`, `ArrivalDuringPurgeKeepsOrderIff`, `ArrivalKeepsClientIff`,
`CloseInPurgeKeepsClientIff`, `RunIsSafeIff`, `SlotAvailableIff`, `ExactIffNoStar`, `OneEventIff`, `NameArrivesIff`,
`DeliveredUnchangedIff`, `GapSurvivesIff`, `BroadcastMisusesIff`, `OverlappingBroadcastsLoseTheirBufferIff`. Failing
runs from the start: `ResendingStalls`, `ShortAckStalls`, `ElevenBytesHang`, `PurgeCanSpoil`, `SlotsRunOut`,
`NonzeroKeysSpoil`.

## Model

| member | source | states |
|---|---|---|
| WebSocketFrame.MaskTwice | ESPAsyncWebServer/src/AsyncWebSocket.cpp:105-110 | the masking of a payload is undone by the same key, for every key and phase |
| WebSocketFrame.XorIsBitwise | ESPAsyncWebServer/src/AsyncWebSocket.cpp:107-109 | masking a byte is exclusive or: each of the eight bits is set exactly if it is set in one of byte and key and not in the other |
| WebSocketFrame.XorFixed | ESPAsyncWebServer/src/AsyncWebSocket.cpp:107-109 | only a zero key byte leaves the byte it masks unchanged |
| WebSocketFrame.UnmaskSplit | ESPAsyncWebServer/src/AsyncWebSocket.cpp:654-657 | unmasking in two pieces, the second at the phase kept by `index`, equals unmasking at once |
| WebSocketFrame.HeaderRoundTrip | ESPAsyncWebServer/src/AsyncWebSocket.cpp:83-98 | what the sender writes as a header, followed by anything, the parser reads back as the same FIN, opcode, mask bit, length and key, consuming exactly the header |
| WebSocketFrame.LongHeaderReads | ESPAsyncWebServer/src/AsyncWebSocket.cpp:626-649 | a header in the 64-bit form, which the sender never writes, is read as it stands, for every length, masked or not |
| WebSocketFrame.ExampleText | ESPAsyncWebServer/src/AsyncWebSocket.cpp:83-98 | the single-frame unmasked text of section 5.7 of RFC 6455, byte for byte |
| WebSocketFrame.ExampleMaskedText | ESPAsyncWebServer/src/AsyncWebSocket.cpp:83-110 | the masked text of that section: its header and key bytes, and a payload masked from phase 0 |
| WebSocketFrame.ExampleFragments | ESPAsyncWebServer/src/AsyncWebSocket.cpp:83-98 | the fragmented text of that section |
| WebSocketFrame.ExamplePing | ESPAsyncWebServer/src/AsyncWebSocket.cpp:83-98 | the ping of that section |
| WebSocketFrame.ExampleLengths | ESPAsyncWebServer/src/AsyncWebSocket.cpp:635-642 | its 256-byte frame as written, and its 64 KiB header as read |
| WebSocketSender.SendFrameReadableIff | ESPAsyncWebServer/src/AsyncWebSocket.cpp:54-120 | a call returns the length that the room cuts the text to, and its bytes read back with the intended fields if and only if that length keeps the length form and mask reserved for the whole text and fits 16 bits |
| WebSocketSender.OpcodeIsCut | ESPAsyncWebServer/src/AsyncWebSocket.cpp:83-85 | only the low four bits of the opcode reach the frame |
| WebSocketSender.BrokenFormMisreads | ESPAsyncWebServer/src/AsyncWebSocket.cpp:68-97 | whenever the cut changes the length form, or drops the mask, or exceeds 16 bits, the emitted bytes misread |
| WebSocketSender.SendFrameMasks | ESPAsyncWebServer/src/AsyncWebSocket.cpp:105-110 | masking happens in the caller's buffer: the sent part is masked there, the rest and an unmasked text are untouched, and the first byte sent survives only a zero key byte |
| WebSocketSender.SharedTextSurvivesIff | ESPAsyncWebServer/src/AsyncWebSocket.cpp:105-110 | one frame leaves a shared text intact whatever key is drawn if and only if it is unmasked or there is no room for any of the text |
| WebSocketSender.FittingFrameIsEncoded | ESPAsyncWebServer/src/AsyncWebSocket.cpp:45-120 | a payload that fits the window leaves as one frame in the format of section 5.2, whatever was in the header block |
| WebSocketSender.OfferEmitsFrame | ESPAsyncWebServer/src/AsyncWebSocket.cpp:323-367 | a send with a non-zero window emits one non-empty frame, advances `_sent` by its payload and `_ack` by its whole length, and leaves the unsent text alone |
| WebSocketSender.GuardsAllow | ESPAsyncWebServer/src/AsyncWebSocket.cpp:542-546 | the runs allow every room above eight bytes that a 16-bit send buffer can have, and every acknowledgement of bytes outstanding |
| WebSocketSender.OfferFillsRoom | ESPAsyncWebServer/src/AsyncWebSocket.cpp:45-52 | a frame never exceeds the room, and one that leaves text behind leaves at most six bytes of it |
| WebSocketSender.SendReturnsProgress | ESPAsyncWebServer/src/AsyncWebSocket.cpp:347-366 | the result of a send is by how much `_sent` has grown, whatever the room |
| WebSocketSender.StepKeepsInvariant | ESPAsyncWebServer/src/AsyncWebSocket.cpp:323-367 | every guarded send and every acknowledgement keeps: wire is the frames' encoding, payloads are the text sent so far, legal fragmentation, `_ack` equals the bytes on the wire, at most one frame outstanding, SENT exactly when all is sent and acknowledged |
| WebSocketSender.EveryRunFragmentsLegally | ESPAsyncWebServer/src/AsyncWebSocket.cpp:287-367 | that invariant in every run of a non-empty message whose text nobody else rewrites, of either class, for all windows, keys and acknowledgements, with the requested opcode, and every frame masked exactly if the message asked for it (section 5.4 of RFC 6455); for shared texts see `BroadcastArrivesIff` |
| WebSocketSender.AccountingExactIff | ESPAsyncWebServer/src/AsyncWebSocket.cpp:347-366 | `_ack` grows by exactly the bytes handed to TCP if and only if the window is non-zero, or an unmasked message finds room for two bytes |
| WebSocketSender.EmptyMessageSendsNothing | ESPAsyncWebServer/src/AsyncWebSocket.cpp:335-339 | the first offer puts bytes on the wire if and only if the text is non-empty; an empty message becomes SENT without a frame |
| WebSocketSender.KindsAgree | ESPAsyncWebServer/src/AsyncWebSocket.cpp:419-470 | `AsyncWebSocketMultiMessage` and `AsyncWebSocketBasicMessage`, which differ in their completion tests, run alike on every allowed run |
| WebSocketSender.RoundsDeliver | ESPAsyncWebServer/src/AsyncWebSocket.cpp:537-547 | any sequence of at least as many send-and-acknowledge rounds as there are bytes left finishes the message |
| WebSocketReceiver.TurnKeepsWhole | ESPAsyncWebServer/src/AsyncWebSocket.cpp:624-709 | one turn of the loop consumes bytes, stays inside its frame, never reaches the frame-error branch, and leaves `_pstate` set only with `index` below `len` |
| WebSocketReceiver.TerminatorAfterEmptyFrameIff | ESPAsyncWebServer/src/AsyncWebSocket.cpp:703-705 | a terminator written behind an empty chunk leaves the next header's reading unchanged if and only if that byte has no FIN, no opcode bit |
| WebSocketReceiver.SegmentMatchesReference | ESPAsyncWebServer/src/AsyncWebSocket.cpp:621-710 | one call on one segment yields contiguous chunks that assemble to what a decoder of the whole stream yields, and stops at the same place |
| WebSocketReceiver.DecodeSplit | ESPAsyncWebServer/src/AsyncWebSocket.cpp:621-710 | decoding a concatenation is decoding the parts in turn, wherever the cut is, headers excepted |
| WebSocketReceiver.SegmentationMatchesReference | ESPAsyncWebServer/src/AsyncWebSocket.cpp:621-710 | the same over every sequence of segments that splits no header |
| WebSocketReceiver.SegmentationInvariance | ESPAsyncWebServer/src/AsyncWebSocket.cpp:621-710 | from wherever the parser stands, two such segmentations of one byte stream give the same frames, payloads and unfinished frame, with contiguous `index` values, and leave the parser at the same place |
| WebSocketRoundTrip.OneFrameRoundTrip | ESPAsyncWebServer/src/AsyncWebSocket.cpp:83-110 | an encoded frame in front of any stream decodes to that frame, unmasked, and the stream |
| WebSocketRoundTrip.StreamRoundTrip | ESPAsyncWebServer/src/AsyncWebSocket.cpp:621-710 | any sequence of frames the sender can express decodes to itself |
| WebSocketRoundTrip.DeliveredIsPayload | ESPAsyncWebServer/src/AsyncWebSocket.cpp:659-696 | for data frames, the bytes handed on chunk by chunk are exactly the payload bytes of the assembled frames, in order |
| WebSocketRoundTrip.EndToEnd | ESPAsyncWebServer/src/AsyncWebSocket.cpp:323-367 | for every non-empty message whose text nobody else rewrites, run of the sender and segmentation of its bytes that splits no header, `_onData`, standing between two frames, delivers exactly the text sent so far as a legal fragmentation, and all of it once the status is SENT |
| WebSocketRoundTrip.OneSegmentIsWhole | ESPAsyncWebServer/src/AsyncWebSocket.cpp:621-649 | the segmentation that `EndToEnd` asks for exists for every run: the bytes in one piece |
| WebSocketShared.BroadcastArrivesIff | ESPAsyncWebServer/src/AsyncWebSocket.cpp:388-470 | n messages over one buffer, in every interleaving of their sends and acknowledgements: each client's frames carry its part of the text whatever keys are drawn, if and only if nothing is masked or at most one client has been sent any of it |
| WebSocketShared.NonzeroKeysSpoil | ESPAsyncWebServer/src/AsyncWebSocket.cpp:105-110 | with keys that begin with a non-zero byte, every client of a masked broadcast gets its part of the text if and only if at most one has been sent any |
| WebSocketShared.BroadcastEndToEnd | ESPAsyncWebServer/src/AsyncWebSocket.cpp:959-975 | every client of a broadcast gets a legal fragmentation that its receiver delivers as its frames' payloads, masked or not, and under the condition of `BroadcastArrivesIff` that is the broadcast text as far as it was sent |
| WebSocketShared.BroadcastInOneSegment | ESPAsyncWebServer/src/AsyncWebSocket.cpp:621-649 | the segmentation that `BroadcastEndToEnd` asks for exists for every run and client: the bytes in one piece |
| WebSocketQueue.NextKeeps | ESPAsyncWebServer/src/AsyncWebSocket.cpp:507-577 | every queueing of a message or control frame, acknowledgement and poll keeps what has been sent in order: the wire encodes the frames, the data frames among them are the messages' in queue order, finished messages whole, the front one as far as it was sent, those behind untouched, whatever the acknowledgement counts say |
| WebSocketQueue.ControlGoesOut | ESPAsyncWebServer/src/AsyncWebSocket.cpp:244-279 | where `_runQueue` sends a control frame the room is enough: it leaves whole, as FIN and its opcode, its length, and at most 125 bytes of payload |
| WebSocketQueue.ControlGoesFirst | ESPAsyncWebServer/src/AsyncWebSocket.cpp:542-543 | with the front message between frames the front control frame goes before it if and only if there is room for it and six bytes more |
| WebSocketQueue.MessageGoesNext | ESPAsyncWebServer/src/AsyncWebSocket.cpp:544-546 | without control frames the front message gets a frame if and only if it has text left and there are nine bytes of room |
| WebSocketQueue.AcceptedAreAdmitted | ESPAsyncWebServer/src/AsyncWebSocket.cpp:554-569 | over every run a text is lost if and only if the client was not connected or had 32 earlier messages queued; the others are accepted in order |
| WebSocketQueue.UpTo32AreAccepted | ESPAsyncWebServer/src/AsyncWebSocket.cpp:554-569 | up to 32 texts on a client that stays connected are all accepted, in order |
| WebSocketQueue.QueueDeliversInOrder | ESPAsyncWebServer/src/AsyncWebSocket.cpp:507-577 | in every run of the queues with control frames, resent ones included, and for every segmentation that splits no header, the receiver assembles exactly the frames sent; the data frames are the accepted texts in order, never interleaved, each legally fragmented, the front one as far as it was sent; without control frames that text is what the application is handed |
| WebSocketQueue.QueueInOneSegment | ESPAsyncWebServer/src/AsyncWebSocket.cpp:621-649 | such a segmentation exists for every run: the bytes in one piece |
| WebSocketBooks.NextBooksIff | ESPAsyncWebServer/src/AsyncWebSocket.cpp:507-547 | one happening keeps the bytes in flight accounted for, and `_acked` at most `_ack`, if and only if `_runQueue` does not send a control frame in flight again, and no acknowledgement ends inside one while the front message has less than the shortfall acknowledged |
| WebSocketBooks.BooksBalanceIff | ESPAsyncWebServer/src/AsyncWebSocket.cpp:507-577 | the same over every run of the queues with control frames, with the 32-bit underflow of `len -= head->len()` |
| WebSocketBooks.HarmlessRunGoesOn | ESPAsyncWebServer/src/AsyncWebSocket.cpp:537-547 | after such a run, once all bytes are acknowledged, no control frame is waited for and the front message is between frames |
| WebSocketBooks.HarmlessRunDelivers | ESPAsyncWebServer/src/AsyncWebSocket.cpp:507-547 | after such a run on a client that stays connected, acknowledging what is in flight and polling often enough, each time with some room, empties both queues, and all accepted texts have been sent |
| WebSocketBooks.GoneMeansClosed | ESPAsyncWebServer/src/AsyncWebSocket.cpp:512-518 | the connection ends by the handshake only after a close frame from the peer and one of its own |
| WebSocketBooks.HandshakeEnds | ESPAsyncWebServer/src/AsyncWebSocket.cpp:512-518 | and it does end: the peer's close frame, the answer, and the answer's acknowledgement |
| WebSocketBooks.StuckForever | ESPAsyncWebServer/src/AsyncWebSocket.cpp:537-547 | a client whose unfinished front message has been credited more than it sent, with nothing in flight, never sends a byte again, whatever happens |
| WebSocketBooks.ResendingStalls | ESPAsyncWebServer/src/AsyncWebSocket.cpp:542-543 | from the start, any control frame sent twice because of a poll, then any non-empty text, and the acknowledgement of both copies: the client is stuck |
| WebSocketBooks.ShortAckStalls | ESPAsyncWebServer/src/AsyncWebSocket.cpp:509-513 | from the start, an acknowledgement that ends inside a control frame, then any non-empty text and the other bytes' acknowledgement: the client is stuck |
| WebSocketAnswers.ControlsGoOutInOrder | ESPAsyncWebServer/src/AsyncWebSocket.cpp:542-577 | over every run the control frames on the wire are the first of those queued, in order, some more than once in a row, and in a harmless run each once; the others are still queued |
| WebSocketAnswers.PingsAnsweredWholeIff | ESPAsyncWebServer/src/AsyncWebSocket.cpp:689-690 | for whatever arrives, however it is cut, the pongs queued carry the whole payloads of the pings, in order, if and only if each ping's payload came in one piece |
| WebSocketAnswers.PingsComeBackIff | ESPAsyncWebServer/src/AsyncWebSocket.cpp:542-690 | composed with the queue and the peer's parser: after a harmless run that has sent all answers, none above 125 bytes, the peer reads pongs with the payloads of its pings, in order, under exactly that condition |
| WebSocketStall.ReturnsIff | ESPAsyncWebServer/src/AsyncWebSocket.cpp:621-710 | a call on a segment whose headers may announce 64-bit lengths returns if and only if, of every frame that lacks 2^32 bytes or more, the segment has at most what is missing modulo 2^32 |
| WebSocketStall.ElevenBytesHang | ESPAsyncWebServer/src/AsyncWebSocket.cpp:651-651 | a binary frame that announces 2^32 bytes, with the first of them: the call does not return |
| WebSocketObjects.AsyncClient.Add | AsyncTCP/src/AsyncTCP.cpp:755-770 | as many bytes as there is room for join the stream, the rest is refused |
| WebSocketObjects.WebSocketSendFrame | ESPAsyncWebServer/src/AsyncWebSocket.cpp:54-120 | the in-place frame writer puts the bytes of `SendFrame` on the wire, masks only the sent part of the caller's buffer, and returns its length |
| WebSocketObjects.MaskInPlace | ESPAsyncWebServer/src/AsyncWebSocket.cpp:107-109 | the masking loop rewrites exactly its range of the buffer |
| WebSocketObjects.WebSocketMessage.constructor | ESPAsyncWebServer/src/AsyncWebSocket.cpp:287-304 | a new message: three-bit opcode, nothing sent, its own copy of the text |
| WebSocketObjects.WebSocketMessage.Ack | ESPAsyncWebServer/src/AsyncWebSocket.cpp:323-329 | the acknowledgement step of both classes on the object |
| WebSocketObjects.WebSocketMessage.Send | ESPAsyncWebServer/src/AsyncWebSocket.cpp:330-367 | the object's send refines the step about which the run results are proved: fields, buffer, wire and room |
| WebSocketObjects.EventsCarryDelivered | ESPAsyncWebServer/src/AsyncWebSocket.cpp:668-696 | the data events reported to the application carry exactly the delivered bytes; control frames add none |
| WebSocketObjects.AnswersInOrder | ESPAsyncWebServer/src/AsyncWebSocket.cpp:671-696 | what `_onData` queues, in order: a pong for the end of each ping and a close frame for the end of each one outside the handshake; and the handler sees every pong but those that answer the keep-alive |
| WebSocketObjects.DeletedIff | ESPAsyncWebServer/src/AsyncWebSocket.cpp:681-688 | the close handshake ends among some chunks, and `_client->close(true)` deletes the client, if and only if they end two close frames, or one after a close frame seen earlier; for the chunks before the last this says when the loop goes on over a deleted object |
| WebSocketObjects.AsyncWebSocketClient.Report | ESPAsyncWebServer/src/AsyncWebSocket.cpp:651-705 | a handler that writes a terminator behind its chunk leaves the segment as it was |
| WebSocketObjects.AsyncWebSocketClient.UnmaskInPlace | ESPAsyncWebServer/src/AsyncWebSocket.cpp:654-657 | the unmasking loop, at the phase of `index`, rewrites exactly its range |
| WebSocketObjects.AsyncWebSocketClient.OnData | ESPAsyncWebServer/src/AsyncWebSocket.cpp:621-710 | the loop over the segment, unmasking in place, terminates in the parser state and with the events of the parser function |
| AsyncTcpQueue.KeepAndDropPartition | AsyncTCP/src/AsyncTCP.cpp:118-152 | what a purge keeps and what it frees make up the queue, each packet once, told apart by their argument |
| AsyncTcpQueue.TurnOfPurge | AsyncTCP/src/AsyncTCP.cpp:140-150 | one turn of the rotation moves one packet and never makes the queue longer than it was |
| AsyncTcpQueue.RotateMovesRest | AsyncTCP/src/AsyncTCP.cpp:140-150 | rotating until the first kept packet is back at the head brings all that stood before it, purged and in order, behind whatever follows it |
| AsyncTcpQueue.ArrivalDuringPurgeKeepsOrderIff | AsyncTCP/src/AsyncTCP.cpp:118-152 | lwIP pushes while the purge rotates: a client's packets end in order of arrival if and only if the new packet is another client's, or nothing of the client that is still to be rotated survives; an ACCEPT put in front counts as still to be rotated |
| AsyncTcpQueue.OfKeep | AsyncTCP/src/AsyncTCP.cpp:131-144 | purging one client leaves every other client's events and their order alone, and removes all of its own once its ACCEPT is gone |
| AsyncTcpProtocol.PickAmong | AsyncTCP/src/AsyncTCP.cpp:569-575 | the scan picks the last slot that was closed longest ago, and none exactly when every slot is in use |
| AsyncTcpProtocol.CloseKeepsClient | AsyncTCP/src/AsyncTCP.cpp:805-826 | closing puts a CLEAR before every event still queued for the client |
| AsyncTcpProtocol.EventKeepsClient | AsyncTCP/src/AsyncTCP.cpp:253-310 | whatever a callback pushes for a registered client, FIN and ERROR stay its last event |
| AsyncTcpProtocol.DispatchKeepsClient | AsyncTCP/src/AsyncTCP.cpp:154-183 | the next event of a client is a CLEAR or the client is not discarded; it is ACCEPT exactly if the client is new; every dispatch keeps this |
| AsyncTcpProtocol.StepKeepsInv | AsyncTCP/src/AsyncTCP.cpp:106-338 | every callback, dispatch, close and abort keeps the queue, client, slot and history invariants |
| AsyncTcpProtocol.EveryRunIsSafe | AsyncTCP/src/AsyncTCP.cpp:154-310 | in every run whose purges are not interrupted each client's history is ACCEPT once and first, then its other events, and at most one discard callback, after which nothing is dispatched to it; for interrupted purges see `RunIsSafeIff` |
| AsyncTcpProtocol.DrainedQueueMeansSettled | AsyncTCP/src/AsyncTCP.cpp:847-891 | when the queue has drained, a client has seen its ACCEPT, and is deregistered exactly if its discard has fired |
| AsyncTcpProtocol.SlotAvailableIff | AsyncTCP/src/AsyncTCP.cpp:566-576 | a new client finds a slot if and only if accepts exceed FINs by less than 16: only `_lwip_fin` gives a slot back, so close, abort and error each use one up, and past that the constructor indexes the table with -1 |
| AsyncTcpProtocol.SlotsRunOut | AsyncTCP/src/AsyncTCP.cpp:566-576 | sixteen rounds of accept and close from the start leave no slot for the next client, with an empty queue and no control block left |
| AsyncTcpProtocol.LiveClientOwnsSlot | AsyncTCP/src/AsyncTCP.cpp:374-374 | clients with a control block own different slots, marked as in use |
| AsyncTcpConcurrent.TurnKeepsPending | AsyncTCP/src/AsyncTCP.cpp:118-152 | one turn of the purge leaves the queue that the async task will see when it is over as it was |
| AsyncTcpConcurrent.EveryRunDiscardsOnce | AsyncTCP/src/AsyncTCP.cpp:118-310 | with lwIP pushing between the turns of any purge: a client is still discarded at most once, live clients own their slots, and a new one finds a slot exactly as before |
| AsyncTcpConcurrent.ArrivalKeepsClientIff | AsyncTCP/src/AsyncTCP.cpp:118-152 | an event that arrives between what has been rotated and what has not keeps its client's invariant if and only if nothing of the client is left to rotate, or it is an ordinary event that overtakes no ACCEPT, or, where FIN need not stay last, a FIN that overtakes none |
| AsyncTcpConcurrent.PushKeepsSafeIff | AsyncTCP/src/AsyncTCP.cpp:253-310 | one push of lwIP into a purge keeps the invariant of the whole system if and only if it is harmless in that sense |
| AsyncTcpConcurrent.CloseInPurgeKeepsClientIff | AsyncTCP/src/AsyncTCP.cpp:805-826 | another task closes a client while the queue rotates: its CLEAR keeps the client's invariant if and only if none of its events has been rotated yet |
| AsyncTcpConcurrent.UndisturbedRunIsSafe | AsyncTCP/src/AsyncTCP.cpp:118-310 | in every run all of whose pushes are harmless, every history is legal |
| AsyncTcpConcurrent.RunIsSafeIff | AsyncTCP/src/AsyncTCP.cpp:118-310 | the exact condition over runs: after every prefix, letting the async task drain the queue gives legal histories, if and only if every push was harmless |
| AsyncTcpConcurrent.PurgeCanSpoil | AsyncTCP/src/AsyncTCP.cpp:118-152 | a run from the start: an ERROR that arrives while another client's CLEAR rotates the queue overtakes a received packet, which is dispatched after the discard |
| AsyncTcpOrder.NumbersRecordOrder | AsyncTCP/src/AsyncTCP.cpp:874-881 | over every run, purges interrupted or not, of two free slots given back by FINs the one given back later has the larger number, and a slot never in use has none above it |
| AsyncTcpOrder.PickIsOldest | AsyncTCP/src/AsyncTCP.cpp:566-576 | a new client gets a slot that no other free slot was given back before, and a slot never in use while there is one, the first slot ever given back excepted; there is one if and only if fewer than 16 more were accepted than given back |
| AsyncTcpOrder.EventsArriveInOrder | AsyncTCP/src/AsyncTCP.cpp:154-310 | over every run with uninterrupted purges, what a client's callbacks got and what is queued for it are all that lwIP reported, in order, until it is discarded; then what it got is the beginning of that, and all of it unless it was closed |
| AsyncTcpObjects.AsyncTcp.RemoveEventsWithArg | AsyncTCP/src/AsyncTCP.cpp:118-152 | on a queue of distinct packets the purge terminates within the capacity, leaves exactly the non-matching packets in order, frees each matching one once, and returns false exactly when nothing is left |
| AsyncTcpObjects.AsyncTcp.PickSlot | AsyncTCP/src/AsyncTCP.cpp:566-575 | the loop over the slot table computes the pick of the protocol |
| AsyncTcpObjects.AsyncTcp.AcceptClient | AsyncTCP/src/AsyncTCP.cpp:1294-1302 | construction, slot, registration and the prepended ACCEPT are one accept step |
| AsyncTcpObjects.AsyncTcp.TcpFin | AsyncTCP/src/AsyncTCP.cpp:265-286 | the lwIP side of a FIN is one step: control block and slot given back, then the event |
| AsyncTcpObjects.AsyncTcp.TcpError | AsyncTCP/src/AsyncTCP.cpp:301-310 | the error callback is one step |
| AsyncTcpObjects.AsyncTcp.CloseClient | AsyncTCP/src/AsyncTCP.cpp:805-826 | `_close` is one step: deregistration, CLEAR in front, discard callback; nothing without a control block |
| AsyncTcpObjects.AsyncTcp.AbortClient | AsyncTCP/src/AsyncTCP.cpp:740-746 | `abort` is one step |
| AsyncTcpObjects.AsyncTcp.HandleAsyncEvent | AsyncTCP/src/AsyncTCP.cpp:154-183 | taking and handling one event, with the purge, `_fin` and `_error`, is the dispatch step |
| WildcardMatch.SearchIsExact | ESPAsyncWebServer/src/SPIFFSEditor.cpp:279-299 | from every reachable position the search succeeds if and only if the rest matches, or an earlier star can take more |
| WildcardMatch.LongerStarGainsNothing | ESPAsyncWebServer/src/SPIFFSEditor.cpp:287-294 | once a later star is reached, or the name is used up, an earlier star need not take more: one backtrack point is enough |
| WildcardMatch.MatchWild | ESPAsyncWebServer/src/SPIFFSEditor.cpp:279-299 | the loop terminates; true implies that the name is in the pattern's language, and for names without a star it is true exactly then |
| WildcardMatch.StarInNameMisleads | ESPAsyncWebServer/src/SPIFFSEditor.cpp:283-290 | for every name with a star there is a matching pattern that is rejected, since literal equality is tried before the star |
| WildcardMatch.ExactIffNoStar | ESPAsyncWebServer/src/SPIFFSEditor.cpp:279-299 | a name is decided correctly by all patterns if and only if it has no star |
| SectionTracking.OpenChildStops | base64/catch.hpp:5534-5540 | opening a child changes only the parent when the ancestors already run children |
| SectionTracking.AcquireOpens | base64/catch.hpp:5604-5621 | a section with a leaf left, met in a cycle that has not completed, opens, and all its ancestors run children |
| SectionTracking.AcquireWithoutOpening | base64/catch.hpp:5604-5621 | a section met after the cycle completed, or with no leaf left, is not entered and stays as it was |
| SectionTracking.LastIsComplete | base64/catch.hpp:5566-5569 | the last child is complete exactly when every leaf of the body is done |
| SectionTracking.CloseIsIllogicalIff | base64/catch.hpp:5548-5576 | closing is illogical if and only if the current tracker is not open |
| SectionTracking.SectionSpec | base64/catch.hpp:5883-5927 | a section runs its next leaf if the cycle is still free and it has one, and changes nothing outside itself |
| SectionTracking.BodySpec | base64/catch.hpp:5883-5927 | a list of sections enters exactly the way to the next leaf in source order |
| SectionTracking.CycleRunsOneLeaf | base64/catch.hpp:5837-5842 | each turn of the run loop takes the tree from k to k + 1 leaves done |
| SectionTracking.EveryLeafOnce | base64/catch.hpp:5835-5842 | cycle k enters exactly the sections on the way to leaf k, no illogical state arises, and the test's tracker completes at the last leaf and not before |
| SectionTracking.WayIsPrefixes | base64/catch.hpp:5891-5894 | the sections on the way to a leaf are all the prefixes of its path |
| SectionTracking.LeavesDistinct | base64/catch.hpp:5523-5528 | with distinct sibling names no two leaves have the same path, so no leaf runs twice |
| SectionTracking.TrackerContext.AcquireTracker | base64/catch.hpp:5604-5621 | find or add the child, and open it if it is to run, on the object |
| SectionTracking.TrackerContext.CloseTracker | base64/catch.hpp:5548-5576 | the state switch of `close`, on the object |
| SectionTracking.TrackerContext.RunTest | base64/catch.hpp:5835-5842 | the run loop terminates after exactly as many cycles as there are leaves, at least one, and cycle k is the way to leaf k |
| GeneratorOdometer.ValueInjective | base64/catch.hpp:7086-7087 | index tuples and numbers below the product of the sizes correspond one to one |
| GeneratorOdometer.MoveAddsOne | base64/catch.hpp:7110-7118 | `moveNext` adds one to the mixed-radix number, or wraps to all zeros and returns false exactly at the last number |
| GeneratorOdometer.AfterIsNumber | base64/catch.hpp:7110-7118 | after k moves from all zeros the indices read k |
| GeneratorOdometer.EveryTupleOnce | base64/catch.hpp:7110-7118 | every index tuple is met after exactly one number of moves below the product |
| GeneratorOdometer.GeneratorInfo.MoveNext | base64/catch.hpp:7074-7080 | one wheel moves, or wraps and says so |
| GeneratorOdometer.GeneratorsForTest.MoveNext | base64/catch.hpp:7110-7118 | the loop over distinct generators is the move on their indices |
| GeneratorOdometer.GeneratorsForTest.RunAll | base64/catch.hpp:5844-5845 | moving until false visits the product of the sizes, run k with the indices after k moves, and ends at all zeros |
| EventStream.FirstOfTwo | ESPAsyncWebServer/src/AsyncEventSource.cpp:49-85 | the two `strchr` calls find the first line break of either kind |
| EventStream.LinesAreCuts | ESPAsyncWebServer/src/AsyncEventSource.cpp:48-101 | the lines of a message, each followed by its terminator, are the message: the terminators are CRLF, LFCR, LF or CR, the two-character ones wherever they can be read |
| EventStream.GenerateEventMessage | ESPAsyncWebServer/src/AsyncEventSource.cpp:23-105 | the pointer loop terminates with the lines `retry`, `id`, `event`, one `data` line per message line, and a blank line |
| EventStream.DeliveredUnchangedIff | ESPAsyncWebServer/src/AsyncEventSource.cpp:48-101 | a message is delivered unchanged if and only if it has no CR and does not end in LF |
| EventStream.DecimalRoundTrip | ESPAsyncWebServer/src/AsyncEventSource.cpp:26-36 | decimal numbers read back as themselves |
| EventStream.DecimalIsPlain | ESPAsyncWebServer/src/AsyncEventSource.cpp:26-36 | numbers are written without a leading zero |
| EventStream.PlainIsDecimal | ESPAsyncWebServer/src/AsyncEventSource.cpp:26-36 | and the other way round: every digit string without one is what its number is written as |
| EventReader.SendRoundTrip | ESPAsyncWebServer/src/AsyncEventSource.cpp:23-105 | in front of any stream, a message with a line-break-free name reads as exactly one event whose data is the message's lines (split at CRLF, LFCR, LF or CR, final break dropped) joined by LF, with its name, id and retry time, and the reader is clear again |
| EventReader.SendWithoutMessage | ESPAsyncWebServer/src/AsyncEventSource.cpp:38-44 | without a message no event is dispatched, and the name stays in the reader for the next event |
| EventReader.OneEventIff | ESPAsyncWebServer/src/AsyncEventSource.cpp:44-44 | one call produces one event if and only if it has a message |
| EventReader.NameArrivesIff | ESPAsyncWebServer/src/AsyncEventSource.cpp:38-42 | an event with the given name arrives if and only if the name has no line break |
| AckCarry.CarryCreditsInOrder | ESPAsyncWebServer/src/AsyncEventSource.cpp:197-202 | acknowledged bytes fill the queued messages front first; exactly the filled ones leave, and only the new front is credited beyond its earlier count |
| AckCarry.CarryConserves | ESPAsyncWebServer/src/AsyncEventSource.cpp:126-138 | the unacknowledged total falls by the smaller of the acknowledged length and itself |
| AckCarry.AsyncEventSourceMessage.Ack | ESPAsyncWebServer/src/AsyncEventSource.cpp:126-138 | a message takes what it needs and returns the surplus |
| AckCarry.AsyncEventSourceClient.OnAck | ESPAsyncWebServer/src/AsyncEventSource.cpp:197-202 | the loop terminates with the carry on its queue, and removes only from the front |
| RecursiveLock.StepKeepsInv | ESPAsyncWebServer/src/AsyncWebSynchronization.h:28-41 | each read, take, store, clear and give by any task keeps the lock's invariant |
| RecursiveLock.MutualExclusion | ESPAsyncWebServer/src/AsyncWebSynchronization.h:72-84 | over every interleaving, two tasks with live guards are the same task |
| RecursiveLock.OwnerHoldsSemaphore | ESPAsyncWebServer/src/AsyncWebSynchronization.h:28-36 | `_lockedBy == t` implies that t holds the semaphore, and a task inside re-enters without taking it |
| RecursiveLock.OnlyOutermostReleases | ESPAsyncWebServer/src/AsyncWebSynchronization.h:80-84 | only the end of the outermost guard clears the owner and gives the semaphore, and then nobody holds it |
| RecursiveLock.GuardsAreEntriesLessLeaves | ESPAsyncWebServer/src/AsyncWebSynchronization.h:72-84 | over every interleaving a task's guards are its entries less its leaves, but for one it is about to get or to give back |
| RecursiveLock.AllLeftMeansFree | ESPAsyncWebServer/src/AsyncWebSynchronization.h:38-41 | when every task has left as often as it entered and given back what it had to, the semaphore is free and has no owner |
| RecursiveLock.SomeoneCanGoOn | ESPAsyncWebServer/src/AsyncWebSynchronization.h:30-31 | a waiting task can take the semaphore, or another task has a step that leads to its release |
| RecursiveLock.AsyncWebLock.Lock | ESPAsyncWebServer/src/AsyncWebSynchronization.h:28-36 | the object's `lock` is the read, take and store steps of the running task |
| RecursiveLock.AsyncWebLock.Unlock | ESPAsyncWebServer/src/AsyncWebSynchronization.h:38-41 | the object's `unlock` is the clear and give steps |
| SharedBuffers.StepKeepsInv | ESPAsyncWebServer/src/AsyncWebSocket.h:97-105 | every creation, lock, queueing, dropping, finishing, disconnect and clean-up, callers with freed buffers included, keeps each listed buffer's count equal to its live messages |
| SharedBuffers.StepKeepsBuffer | ESPAsyncWebServer/src/AsyncWebSocket.cpp:959-969 | one step misuses a buffer if and only if a caller locks, unlocks or refers a new message to it after it was freed |
| SharedBuffers.NoBadRelease | ESPAsyncWebServer/src/AsyncWebSocket.cpp:413-417 | over every run a buffer is misused if and only if a caller touches it after it was freed: no deleted message finds its buffer freed or its count at zero; until then counts are exact and a buffer with a live message exists |
| SharedBuffers.ThereIff | ESPAsyncWebServer/src/AsyncWebSocket.cpp:1231-1240 | a buffer is there if and only if no clean-up of the run has met it unlocked and without a live message |
| SharedBuffers.GapSurvivesIff | ESPAsyncWebServer/src/AsyncWebSocket.cpp:1219-1229 | `makeBuffer` lists a buffer unlocked and uncounted: until its first lock or message it is there if and only if no clean-up has run |
| SharedBuffers.BroadcastMisusesIff | ESPAsyncWebServer/src/AsyncWebSocket.cpp:972-975 | `textAll` with a text touches freed memory if and only if a clean-up, such as that of any client's `_onAck`, runs between `makeBuffer` and `lock` |
| SharedBuffers.CleanFreesIff | ESPAsyncWebServer/src/AsyncWebSocket.cpp:1231-1240 | clean-up frees a buffer if and only if no live message refers to it and it is not locked |
| SharedBuffers.LockedSurvives | ESPAsyncWebServer/src/AsyncWebSocket.cpp:959-969 | a locked buffer outlives every step of the other tasks until it is unlocked |
| SharedBuffers.OverlappingBroadcastsLoseTheirBufferIff | ESPAsyncWebServer/src/AsyncWebSocket.h:100-101 | the lock is one flag: a broadcast that holds it and has queued nothing yet keeps its buffer through every clean-up of the run if and only if no other broadcast of that buffer unlocks |
| SharedBuffers.TextKeepsInv | ESPAsyncWebServer/src/AsyncWebSocket.cpp:554-569 | constructing a message and queueing or dropping it keeps the counts exact, full queue and closing client included |
| SharedBuffers.QueuesAreFifo | ESPAsyncWebServer/src/AsyncWebSocket.cpp:537-569 | over every step a message joins its client's queue at the end, if the client is connected and has fewer than 32, and leaves from the front |
| SharedBuffers.QueuesAreShort | ESPAsyncWebServer/src/AsyncWebSocket.cpp:562-566 | no queue ever holds more than 32 messages |
| SharedBuffers.ClientsConnect | ESPAsyncWebServer/src/AsyncWebSocket.cpp:959-969 | any number of clients can connect |
| SharedBuffers.AsyncWebSocket.TextAll | ESPAsyncWebServer/src/AsyncWebSocket.cpp:959-969 | a broadcast queues one message at every connected client with room, misuses the buffer exactly if it had been freed, and otherwise leaves it there if and only if a live message refers to it |
| HeapList.RemoveTakesOne | ESPAsyncWebServer/src/StringArray.h:127-149 | removing the first match takes away one match and one copy of that element, and nothing if there is none |
| HeapList.LinkedList.Add | ESPAsyncWebServer/src/StringArray.h:66-74 | the new node goes to the end of the acyclic chain |
| HeapList.LinkedList.Length | ESPAsyncWebServer/src/StringArray.h:82-90 | walking the chain counts its elements |
| HeapList.LinkedList.CountIf | ESPAsyncWebServer/src/StringArray.h:91-104 | walking the chain counts the elements that satisfy the predicate, or all of them without one |
| HeapList.LinkedList.Nth | ESPAsyncWebServer/src/StringArray.h:105-114 | the element at the position, or none past the end |
| HeapList.LinkedList.RemoveFirst | ESPAsyncWebServer/src/StringArray.h:138-159 | relinking deletes exactly the first match, keeps the order of the rest, and hands the element to `_onRemove` once |
| HeapList.LinkedList.Remove | ESPAsyncWebServer/src/StringArray.h:115-137 | the same for equality; true exactly if the value was in the list |
| HeapList.LinkedList.Free | ESPAsyncWebServer/src/StringArray.h:161-171 | empties the list and hands every element to `_onRemove` once, in order |
| ScanList.StrongerPassesToo | WIFIMANAGER/WiFiManager.cpp:784-795 | quality is monotone in signal strength, so a stronger network passes every filter that a weaker one passes |
| ScanList.Quality | WIFIMANAGER/WiFiManager.cpp:784-795 | a percentage: 0 exactly up to -100 dBm and 100 exactly from -50 dBm |
| ScanList.QualityIsLinear | WIFIMANAGER/WiFiManager.cpp:784-795 | two percent for each dBm in between |
| ScanList.PassesIff | WIFIMANAGER/WiFiManager.cpp:484-484 | a network is shown exactly if twice its dBm above -100 exceed a minimum below 100, or the minimum is negative |
| ScanList.Sort | WIFIMANAGER/WiFiManager.cpp:454-460 | the exchange sort leaves a permutation of the scan indices in descending signal strength |
| ScanList.MarkDuplicates | WIFIMANAGER/WiFiManager.cpp:463-475 | exactly the entries whose name occurs earlier are marked, whatever `WiFi.SSID(-1)` answers |
| ScanList.SurvivorsAreBest | WIFIMANAGER/WiFiManager.cpp:454-475 | sorted and then marked, the survivors are every scanned name once, at its greatest strength, strongest first |
| ScanList.ListedIsStrongest | WIFIMANAGER/WiFiManager.cpp:462-475 | no network of a listed name is stronger than the listed one |
| ScanList.FilterShowsPrefix | WIFIMANAGER/WiFiManager.cpp:478-484 | the quality filter shows a prefix of the descending list, and cuts only networks that do not pass |
| ScanList.ShowNetworks | WIFIMANAGER/WiFiManager.cpp:440-507 | the whole scan part: the rows are the passing entries of a descending list of all networks, or of the best of every name |
| JsonResponse.WindowsStitch | ESPAsyncWebServer/src/AsyncJson.h:131-141 | any sequence of windows concatenates to the prefix of the document that their sizes add up to, to all of it if they suffice |
| JsonResponse.ChunkPrint.Write | ESPAsyncWebServer/src/AsyncJson.h:64-74 | a byte is skipped, stored at the next position inside the window, or refused; no write leaves the window |
| JsonResponse.AsyncJsonResponse.FillBuffer | ESPAsyncWebServer/src/AsyncJson.h:131-141 | printing the whole document stores exactly its window and touches no other byte; the returned length is what was stored if and only if the document reaches that far |
| JsonResponse.AsyncJsonResponse.Ack | ESPAsyncWebServer/src/WebResponses.cpp:252-362 | each acknowledgement sends the next bytes of head and document that fit, whatever the windows; waiting starts exactly when all is sent and ends exactly when all is acknowledged; an empty document fails and sends nothing |

## Left out

- lwIP, FreeRTOS, WiFi, BLE, Ethernet, file system and OTA calls; HTML pages, authentication, printf wrappers and overload forwarding; the ESP8266 variants; RestClient, Internet, Beacon, AsyncElegantOTA, ArduinoJson internals and base64: no invariants of their own.
- Failing `malloc`, `add` and `send` in the message code: accepted writes only, as `_ack` keeps the header bytes otherwise; `size_t` overflow of the byte counters at 2^32.
- The sender's runs assume what `_runQueue` guards: `send` is offered a non-zero window of at most 65535 bytes. `SendFrameReadableIff` and `AccountingExactIff` say what happens without the guards.
- `message_opcode` and `num` in the frame info, which are set on the partial-frame branch only; the reason code that a close frame reports as an error event; the timer of the keep-alive ping, which is a control frame queued at any time.
- The parser's results assume that no segment splits a frame header, which `_onData` does not check; what a call delivers is stated for frames shorter than 2^32 bytes, and `ReturnsIff` says when it returns for longer ones. The C++ also reads and rewrites the byte behind a segment whose last chunk ends it, which the model does not.
- WebSocketObjects.AsyncWebSocketClient.HandleEvent: does not say what the application does with the data; it may write one terminator behind a non-empty chunk, no more.
- WebSocketShared.BroadcastArrivesIff: the messages of a broadcast share a value that every send replaces, not aliased arrays; all of them have the opcode and mask of the broadcast, and there is one message of the broadcast per client.
- WebSocketQueue.QueueDeliversInOrder: each message has its text to itself, and each offer to a message is guarded as above. With control frames it speaks of the assembled frames, as `_onData` hands a chunk that does not end its control frame to the data handler.
- WebSocketAnswers.PingsComeBackIff: answers above 125 bytes, which no legal control frame asks for; the constructor copies all of them into its block of 125, the model the first 125.
- AsyncTcpOrder.EventsArriveInOrder: for uninterrupted purges; a purge that lwIP interrupts may change the order, as `ArrivalDuringPurgeKeepsOrderIff` says.
- WebSocketBooks.BooksBalanceIff: says that the harmless runs are those whose books are in order throughout; not every harmful happening ends in a stuck client, as a message that finishes on too many acknowledged bytes, or an empty queue, absorbs them.
- WebSocketObjects.AsyncWebSocketClient.OnData: does not model that a close reply which ends while `_status` is `WS_DISCONNECTING` deletes the client object through `_client->close(true)` and `_onDisconnect`; the C++ loop then reads the deleted object if bytes remain, and the model goes on parsing them; `DeletedIff` says when.
- Active-open AsyncTCP clients (`connect`, `_connected`, DNS events), reuse of a client's address, and the receive timeout's clock.
- AsyncTcpProtocol.EveryRunIsSafe: takes each callback body as one step, a purge included, and a push into a full queue as waiting; that the async task itself waits for ever when it pushes a CLEAR into a full queue appears only as a step that is not possible. `AsyncTcpConcurrent` takes the purge apart.
- AsyncTcpConcurrent.RunIsSafeIff: a turn's taking and putting back is one move; a packet appended between the two has the effect of one appended before the turn, and an ACCEPT prepended between them that of one prepended after it, unless the queue is filled, and then the async task waits for ever. Closes and aborts are taken to come from the async task, so none comes during a purge of a run; `CloseInPurgeKeepsClientIff` says what one would do.
- One history entry stands for a RECV packet, whereas `_recv` calls the data callback for each pbuf of its chain, and goes on to do so for the rest of the chain after a callback that has closed the client.
- AsyncTcpProtocol.LiveClientOwnsSlot: says nothing about a control block that lwIP has freed after an error while the client still holds it; the overflow of `_closed_index` is not modelled.
- `isExcluded` and the exclude list around `matchWild`: a walk that calls it.
- SectionTracking.EveryLeafOnce: assumes distinct sibling names and no failures; failing sections, exceptions, `aborting`, index trackers, reporters and the "section name and line" string are left out. Trackers are named by their path of names rather than reached by pointers.
- SharedBuffers.AsyncWebSocket.TextAll: runs with no message of another task between its construction and its queueing; such interleavings are the state machine's, in `NoBadRelease`, `GapSurvivesIff` and `LockedSurvives`.
- RecursiveLock.AsyncWebLock.Lock: is the call that does not wait; waiting is the state machine's. `pxCurrentTCB` is taken to name the running task.
- GeneratorOdometer.GeneratorsForTest.RunAll: takes a fixed set of distinct generators of size at least one; generators registered on the way are not modelled.
- EventStream.GenerateEventMessage: strings without NUL; a failing `malloc` would drop a line. Wire order of queued events is not claimed, since `_runQueue` may skip a message that does not fit.
- `messageAll`, which queues one message object at several clients, and the iterator of `_cleanBuffers`, which steps past a node it has removed: clean-up is modelled over a snapshot. Read-modify-write of a count by two tasks at once is not modelled.
- HeapList.LinkedList.RemoveFirst: deleted nodes are garbage rather than freed.
- ScanList.ShowNetworks: a scan that succeeded (a negative count makes the array size meaningless); encryption icons and HTML are left out.
- JsonResponse.AsyncJsonResponse.Ack: the response with a content length and no template; chunked and template responses are left out.
- The DNS server: name decoding and replies.
