# FloralDroid container gateway: verified model

This project models the container side of FloralDroid's media, input and control gateway and
proves what its protocols keep over every run. The hard code is a handful of small stateful
protocols, most of them shared between threads. Each is modelled in three layers:

- a `State` datatype with what the lock guards, the locals of the worker thread, and history
  variables (packets accepted and sent, frames injected, sessions opened); one function per critical
  section says what the section does to it;
- classes and methods in the form of the source, whose contracts say that they do to their fields
  what those functions say, with loops, buffers and in-place updates where the source has them;
- lemmas over all sequences of steps, in any interleaving of the threads and with every answer the
  socket, the encoder, the motion sink or the clock may give.

| file | component |
|---|---|
| `Bytes.dfy`, `Options.dfy` | big-endian integers, fixed layouts |
| `VideoPacketProtocol.dfy`, `VideoFraming.dfy` | FSV2 headers and the byte stream made of them |
| `HostVideoSink.dfy`, `SinkAnswers.dfy` | the bounded queue and sender thread of the video socket |
| `VideoOutputController.dfy`, `VideoDelivery.dfy` | the recovery policy, and its runs over the sink |
| `DeliveryGate.dfy`, `DeliveryTimes.dfy` | which packets those runs hand to the sink, and with which times |
| `DeliveredStream.dfy` | policy and byte stream together, as a receiver sees them |
| `PointerMap.dfy`, `Float32.dfy`, `InputStateMachine.dfy`, `InputMonitor.dfy` | the touch input state machine, with rounded coordinates |
| `GestureStream.dfy`, `InputRuns.dfy`, `InputAnswers.dfy` | the gesture automaton and the runs of the state machine |
| `Utf8.dfy`, `TopologyCodec.dfy`, `TopologyState.dfy` | topology requests and the topology store |
| `HostAudioSink.dfy`, `AudioAnswers.dfy` | the drop-oldest audio sender |
| `FramePacing.dfy`, `VideoBackend.dfy`, `BackendAnswers.dfy` | frame pacing, sessions, buffers and configuration |
| `VaapiEncoder.dfy` | packet order across codec replacement |
| `RandomSeed.dfy` | the SplitMix64 seed mixer |
| `AuthorityLease.dfy` | the control authority lease |
| `OperationProtocols.dfy` | FDO1 as the Java server and the C++ library read it |

How the parts meet:

- `VideoDelivery` interleaves the controller, the only submitter, with the sink's sender thread; the
  controller may be interrupted between a full-queue answer and the discard it causes. A run ends at
  the first failure or end of stream, because the caller then drops the session.
- `InputStateMachine` takes what clock and motion sink answer around the n-th injection as a
  parameter; `log` records every frame with its success.
- `OperationAgreement` runs from request bytes through a reachable state machine to response bytes
  and back into the client library.
- `VideoBackend` takes the outcome of every call into an encoder session as part of the step.

## Findings

- A stream whose encoder reports its end by the dequeue status alone, as the VA-API backend does,
  ends on the wire with a packet that lacks the end-of-stream flag the FSV2 text announces
  (`VideoDelivery.EndOfStreamIsMarked` is the exact condition, `UnmarkedEndOfStream` the case).
- `docs/protocols/FSA1.md` tells receivers to look for sequence gaps. The sink numbers only what it
  delivers, so within one run of a generation there are none (`HostAudioSink.RunsAreNumbered`, and
  `LostPacketsAreNotNumbered` for a run with a lost packet); gaps show in the discontinuity flag
  (`HostAudioSink.GapsAreMarked`). A generation that comes back after another one starts again at
  number 1, with the flag for its first packet (`HostAudioSink.ReturningGenerationStartsAgain`).
- A video buffer table entry can outlive its registration when two buffer ids import the same buffer
  (`VideoBackend.SharedImportDangles`). The exact condition on one registration is
  `VideoBackend.RegistrationKeepsNames`, and on a run `VideoBackend.RunKeepsNames`: a buffer that is
  registered anew under another encoder id shared its old one with no other entry.
- A key frame request is lost with a submission or a repeat that the VA-API codec refuses
  (`VaapiEncoder.LoseRequestBySubmission`, `VaapiEncoder.LoseRequestByRepeat`);
  `VaapiEncoder.RequestSurvives` says exactly when it is not.
- The size-limit rejections of the topology serializer and the overflow fallback of the frame pacer
  are unreachable (`TopologyCodec.PayloadSize`, `FramePacing.SlotsFit`).

## Model

| member | source | states |
|---|---|---|
| `VideoDelivery.SentFramesAreConsecutive` | session/VideoOutputController.cpp:125-133 | In every interleaving of the worker with the sender thread and stop, up to the first failure or end of stream: the first frame sent is a key frame, and two frames sent one after the other are consecutive encoder frames unless the later is a key frame flagged as a discontinuity |
| `VideoDelivery.SentIsDecodable` | session/VideoOutputController.cpp:161-213 | In every such run the packets sent completely are decodable from the start, each carries the encoder packet it was made from, every key frame directly follows the newest codec data known when it was encoded, and sequence numbers strictly increase as long as at most 2^64 packets were made |
| `VideoDelivery.RecoveringHasRequested` | session/VideoStreamSession.cpp:115-126 | Between calls, a recovering controller has raised a key-frame request and no key frame has come out of the encoder since |
| `DeliveryGate.OutputsPassTheGate` | session/VideoOutputController.cpp:84-134 | In every interleaving it is fixed which outputs are handed to the sink and as how many packets: codec data never, a key frame always and behind the newest codec data, the last packet always, any other frame exactly when the sink took a key frame since the last discarded queue; then the packets join the line together, or the queue is to be discarded, or the run ends |
| `DeliveryGate.DiscontinuitiesAreGaps` | session/VideoOutputController.cpp:161-182 | In every interleaving a packet that joins the line has the discontinuity flag exactly when it is a key frame and a queue was discarded since the sink took the last one, or it is the first of a stream that begins with a gap |
| `DeliveryGate.QueuesAreDiscarded` | session/VideoOutputController.cpp:193-227 | In every interleaving a worker that found the queue full empties it and keeps what was sent or is in flight; it asks for a key frame and goes on if the encoder agrees, unless the packet it could not submit was the last; drops, requests and recoveries are counted |
| `DeliveryGate.OutputsAreCounted` | session/VideoOutputController.cpp:84-134 | In every interleaving an output is counted as a packet, as remembered codec data, as accepted packets exactly when the sink took them, or as dropped when it was held back |
| `DeliveryGate.CallsAreAnswered` | session/VideoOutputController.cpp:59-134 | What one call tells its caller and where it leaves the controller, by the encoder output and the answer of the sink, in every state |
| `VideoDelivery.DecodableMeans` | session/VideoOutputController.cpp:125-133 | Decodability, defined along the line, says what it should of any two frames that follow each other in it |
| `VideoDelivery.RunKeeps` | session/VideoOutputController.cpp:59-134 | The invariant linking the recovery state, the queue, the packet in flight and the encoder history holds after every step of both threads |
| `VideoDelivery.EndOfStreamIsMarked` | session/VideoOutputController.cpp:102-104 | The packet that ends a stream carries the end-of-stream flag on the wire exactly when the encoder put it on the packet itself |
| `VideoDelivery.UnmarkedEndOfStream` | session/VideoOutputController.cpp:89-104 | A run in which it is not there: an end reported by the dequeue status alone, sent completely; the run ends in order, and the one packet on the wire is the end of the stream and lacks the flag |
| `DeliveredStream.ReceivedStreamIsPlayable` | session/VideoOutputController.cpp:161-227 | Policy and byte stream together: in every interleaving and with any cuts by the socket, the bytes written, cut anywhere, deframe to a prefix of the packets sent and in flight that is decodable from the start, carries what the encoder produced, has codec data before key frames and rising numbers; uncut, to at least every packet reported sent |
| `DeliveredStream.SinkRuns` | transport/HostVideoSink.cpp:129-249 | The sink of every such run went through a sequence of its own critical sections, so everything proved of sink runs holds of it |
| `VideoOutputController.OutputController.RecordFrameSubmission` | session/VideoOutputController.cpp:46-57 | A submission time replaces an older one for the same presentation time, and only the latest presentation times are kept, at least one of them |
| `VideoOutputController.PruneKeepsLatest` | session/VideoOutputController.cpp:51-56 | Pruning keeps the entries with the latest presentation times: nothing dropped is later than anything kept, and no more is dropped than the limit demands |
| `VideoOutputController.OutputController.TakeFrameSubmissionTime` | session/VideoOutputController.cpp:136-146 | The remembered time leaves the map with the answer; a frame without one gets zero and is counted as unmatched |
| `VideoOutputController.TimesAreHandedOutOnce` | session/VideoOutputController.cpp:136-146 | After any sequence of submissions and packets, a packet gets no time or that of the last submission under its presentation time with no packet of that time since, and the next such packet gets none |
| `DeliveryTimes.PacketsCarryTheirTimes` | session/VideoOutputController.cpp:84-101 | In every interleaving, by the history of submissions and packets alone: a packet sent carries no submission time if it is codec data; otherwise the last time recorded under its presentation time since a packet of that time was processed, and none exactly when there is none or as many later times crowded it out as may be kept |
| `DeliveryTimes.UnknownTimes` | session/VideoOutputController.cpp:46-57 | A submission time is unknown exactly when nothing was recorded for it since it was last handed out, or when after its recording the table once was full of later ones |
| `DeliveryTimes.EveryFrameIsCounted` | session/VideoOutputController.cpp:100-146 | In every interleaving, matched and unmatched together count the processed packets without the codec-config flag |
| `VideoOutputController.OutputController.MakePacket` | session/VideoOutputController.cpp:148-159 | The packet has the old counter as its number, stream, generation and geometry of the configuration, payload, time and position of the encoder packet, and each of the four wire flags set exactly when it applies; the counter moves on by one modulo 2^64 |
| `VideoOutputController.OutputController.Process` | session/VideoOutputController.cpp:59-134 | With no other thread in between, one call has exactly the effect of the two halves that the interleaving model schedules separately; what these do to times, gate and flags is stated by the lemmas of DeliveryTimes and DeliveryGate |
| `VideoOutputController.OutputController.ProcessPacket` | session/VideoOutputController.cpp:84-134 | Caching of codec data, the submission time a frame takes, gating of frames and the choice of what to submit |
| `VideoOutputController.OutputController.SendTerminal` | session/VideoOutputController.cpp:102-123 | The last packet: discarded with the queue when it is full, a failure when the sink is gone |
| `VideoOutputController.OutputController.SendAccessPoint` | session/VideoOutputController.cpp:161-182 | A key frame goes out in one batch with the cached codec data, marked when it ends a recovery |
| `VideoOutputController.OutputController.SendPacket` | session/VideoOutputController.cpp:184-191 | Any other frame goes out alone |
| `VideoOutputController.OutputController.HandleEnqueueResult` | session/VideoOutputController.cpp:193-227 | A full queue is discarded and starts a recovery; a gone sink or a refused packet ends the stream |
| `HostVideoSink.SinkRunKeepsAccounts` | transport/HostVideoSink.cpp:94-249 | In every interleaving of submitters, sender, discard and stop: buffered packets and bytes equal queue plus in-flight and never exceed the limits, and while connected and not stopped accepted equals sent plus discarded plus buffered |
| `HostVideoSink.SubmitExtendsLine` | transport/HostVideoSink.cpp:129-156 | A batch is taken as a whole at the end of the line, or leaves no trace in it |
| `HostVideoSink.OthersKeepLinePrefix` | transport/HostVideoSink.cpp:159-249 | Every other step leaves the line of sent, in-flight and queued packets alone or cuts it back to a prefix that keeps what was sent |
| `SinkAnswers.BatchesAreAnswered` | transport/HostVideoSink.cpp:94-157 | In every interleaving a batch is accepted exactly when the sink is connected and runs, the batch is not empty, every packet can be sent, and queue, packet in flight and batch together stay within both limits; each other answer has its exact condition, and so has the wish for a key frame |
| `SinkAnswers.SenderGetsAllOut` | transport/HostVideoSink.cpp:198-249 | From any point of a live sink the sender can go on until everything queued or in flight is sent in order: no accepted packet is stuck |
| `SinkAnswers.SendErrorsAreCounted` | transport/HostVideoSink.cpp:226-242 | In every interleaving the connection is lost with the first failed send, which is counted, and nothing stays queued then |
| `HostVideoSink.Impl.SubmitBatch` | transport/HostVideoSink.cpp:94-157 | Validation, size accounting without overflow and the all-or-nothing enqueue, on the whole new state |
| `HostVideoSink.Impl.BuildBatch` | transport/HostVideoSink.cpp:101-127 | The batch is rejected exactly when a packet does not serialize; otherwise the total size is exact or known to exceed the byte limit |
| `HostVideoSink.Impl.Enqueue` | transport/HostVideoSink.cpp:129-156 | The subtractions in the limit checks never underflow and decide whether the sums fit |
| `HostVideoSink.Impl.DiscardPending` | transport/HostVideoSink.cpp:159-173 | Empties the queue, reports its packets and bytes, and leaves the packet in flight accounted for |
| `HostVideoSink.Impl.StopSink` | transport/HostVideoSink.cpp:175-196 | Stopping leaves exactly the packet in flight buffered |
| `HostVideoSink.Impl.TakeFront` | transport/HostVideoSink.cpp:210-221 | The front packet moves from the queue into flight |
| `HostVideoSink.SendAll` | transport/HostVideoSink.cpp:63-77 | Despite partial sends and interruptions the socket gets a prefix of the data, all of it exactly on success |
| `HostVideoSink.Impl.SendCurrent` | transport/HostVideoSink.cpp:223-224 | Header, then payload: the bytes written are a prefix of the packet, all of them exactly on success |
| `HostVideoSink.Impl.CompleteSend` | transport/HostVideoSink.cpp:226-242 | The section after a send: one packet less, or a lost connection with nothing buffered |
| `HostVideoSink.Impl.SendNext` | transport/HostVideoSink.cpp:208-244 | One turn of the sender loop is its three steps in order |
| `VideoFraming.WireDecodesToPrefix` | transport/HostVideoSink.cpp:63-77 | In every interleaving, the bytes written, cut anywhere, decode by repeated header parse plus payload size to exactly a prefix of the packets sent and in flight; uncut, to at least every packet reported sent |
| `VideoFraming.DeframeStream` | transport/VideoPacketProtocol.cpp:145-187 | Complete packets followed by the start of another decode to exactly the complete ones |
| `VideoFraming.RunKeepsWire` | transport/HostVideoSink.cpp:208-244 | The socket always holds the sent packets followed by the written part of the next |
| `VideoPacketProtocol.DecodeEncodeHeader` | transport/VideoPacketProtocol.cpp:114-187 | Parsing the serialized form of a valid header gives the header back |
| `VideoPacketProtocol.EncodeDecodeHeader` | transport/VideoPacketProtocol.cpp:145-187 | Every accepted 80 bytes are the one serialized form of a valid header |
| `VideoPacketProtocol.HeaderBytesAre` | transport/VideoPacketProtocol.cpp:121-141 | Which field stands at which offset of the header, most significant byte first, with magic, version, size and the reserved zero |
| `VideoPacketProtocol.MatchingAspectIsRatio` | include/floral/stream/VideoGeometry.h:69-84 | A geometry matches exactly when its sizes are positive, its rotation is known, and the coded picture has the aspect ratio of the display turned by it |
| `VideoPacketProtocol.SerializeVideoPacketHeader` | transport/VideoPacketProtocol.cpp:114-143 | Succeeds exactly on valid headers, and then writes the whole layout; otherwise leaves the output alone |
| `VideoPacketProtocol.ParseVideoPacketHeader` | transport/VideoPacketProtocol.cpp:145-187 | Field reads at fixed offsets agree with the layout, in bounds, for every 80 bytes |
| `Bytes.WriteUint` | transport/VideoPacketProtocol.cpp:49-66 | Stores an integer most significant byte first and touches nothing else |
| `Bytes.ReadUint` | transport/VideoPacketProtocol.cpp:68-86 | Loads the integer stored at an offset |
| `Bytes.FromToBytes` | transport/VideoPacketProtocol.cpp:49-86 | Reading what was written gives the integer back |
| `Bytes.ToFromBytes` | transport/VideoPacketProtocol.cpp:49-86 | Writing what was read gives the bytes back |
| `InputRuns.GesturesMatchTargets` | input/java/com/floraldroid/input/InputStateMachine.java:316-406 | For every run and every pattern of refused injections, folding the frames of a display through a multi-touch gesture automaton yields exactly the pointers and down time of the target bound to it, and no gesture without one; a refused frame is followed at once by a cancellation of the same pointers |
| `InputRuns.LeaseChangesCloseGestures` | input/java/com/floraldroid/input/InputStateMachine.java:223-239 | Unbinding, binding anew, a display change and a reset leave no gesture open on the displays they take a target from, nor on the display they give one |
| `InputRuns.LeasesAreDistinct` | input/java/com/floraldroid/input/InputStateMachine.java:216-222 | In every run bound slots have pairwise distinct displays and streams |
| `InputRuns.AppliedOnce` | input/java/com/floraldroid/input/InputStateMachine.java:256-260 | Within one binding the admitted sequence numbers strictly increase and only admitted touches are applied, so none is applied twice |
| `InputAnswers.TouchesAreAnswered` | input/java/com/floraldroid/input/InputStateMachine.java:248-382 | In every run the answer to a touch and the pointers after it are fixed: applied exactly when lease, epoch and number are right, it fits the pointers down and its frame is taken; then its pointer has its x, y, pressure and size or is up, and the others are as they were; every other touch that reaches the target leaves no pointer down |
| `InputAnswers.TouchesAreShown` | input/java/com/floraldroid/input/InputStateMachine.java:384-416 | In every run the first frame of a touch shows the pointer at its x scaled to the width and its y scaled to the height, with its pressure and size, each operation rounded to a float, and every other pointer where it was, on the display of the target and at the times of the clock |
| `InputAnswers.PointersHoldTouches` | input/java/com/floraldroid/input/InputStateMachine.java:150-171 | In every run each pointer of a target holds the values of the last touch of its id that was applied under the current bind, and that was a down or a move |
| `InputAnswers.BindsAreAnswered` | input/java/com/floraldroid/input/InputStateMachine.java:197-230 | When a bind is invalid, finds its lease held already, is refused for another slot, or is applied; with which epoch, and what is bound then |
| `InputAnswers.UnbindsAreAnswered` | input/java/com/floraldroid/input/InputStateMachine.java:232-246 | Unbinding frees a bound slot, cancelling lifts its pointers and keeps its lease, and neither touches another slot |
| `InputRuns.OldTouchIsStale` | input/java/com/floraldroid/input/InputStateMachine.java:253-255 | A touch stamped by another bind of the slot is rejected without effect, unless the epoch allocations between the two are a multiple of 2^32-1 |
| `InputRuns.EpochsTakeTurns` | input/java/com/floraldroid/input/InputStateMachine.java:408-412 | In every run epochs are in 1..2^32-1, and two of them, given or next, are equal exactly when the binds between them are a multiple of that range |
| `InputRuns.StreamsComeFromBinds` | input/java/com/floraldroid/input/InputStateMachine.java:223-230 | In every run the stream of a target is one that a bind asked for |
| `InputRuns.DisplayChangesAreNotified` | input/java/com/floraldroid/input/InputStateMachine.java:279-307 | In every run a display change tells the listener of exactly the targets it removes, once each and in slot order, with their streams, epochs and the reason; these were bound to that display with another geometry or lost it, and every other target stays |
| `InputRuns.PointersLieOnDisplay` | input/java/com/floraldroid/input/InputStateMachine.java:384-416 | With every operation rounded to 32-bit floats: an injected pointer lies on its display, the extreme values exactly on its edges, its touch is no larger than the shorter side, and a pointer further right or down is never injected further left or up |
| `InputRuns.ApplyKeeps` | input/java/com/floraldroid/input/InputStateMachine.java:197-314 | Every operation keeps gestures, leases, epochs and sequence numbers consistent |
| `InputRuns.TouchKeeps` | input/java/com/floraldroid/input/InputStateMachine.java:248-277 | A touch keeps them whatever it asks and whatever the sink answers |
| `InputRuns.BindKeeps` | input/java/com/floraldroid/input/InputStateMachine.java:197-230 | A bind keeps them, also when it replaces a target |
| `GestureStream.DownKeeps` | input/java/com/floraldroid/input/InputStateMachine.java:316-335 | A new pointer opens the gesture or joins it at its true index in the ascending list, or the gesture ends in a cancellation |
| `GestureStream.MoveKeeps` | input/java/com/floraldroid/input/InputStateMachine.java:337-349 | A move keeps the set of pointers, or the gesture ends in a cancellation |
| `GestureStream.UpKeeps` | input/java/com/floraldroid/input/InputStateMachine.java:351-372 | A lifted pointer leaves from its true index and the last one closes the gesture, or the gesture ends in a cancellation |
| `GestureStream.CancelCloses` | input/java/com/floraldroid/input/InputStateMachine.java:374-382 | A cancellation closes the gesture whatever the sink answers |
| `InputMonitor.Serve` | input/java/com/floraldroid/input/InputStateMachine.java:185-314 | Whatever is asked of a new state machine, it ends in the state of a run, so everything proved of runs holds of its targets and frames |
| `InputMonitor.StateMachine.Bind` | input/java/com/floraldroid/input/InputStateMachine.java:197-230 | The checks in order, release of the old target, a fresh epoch and an empty target; the whole new state and the outcome |
| `InputMonitor.StateMachine.IsBusy` | input/java/com/floraldroid/input/InputStateMachine.java:216-222 | True exactly when another slot holds the display or the stream |
| `InputMonitor.StateMachine.AllocateEpoch` | input/java/com/floraldroid/input/InputStateMachine.java:408-412 | Epochs run through 1..2^32-1 and start over |
| `InputMonitor.StateMachine.Unbind` | input/java/com/floraldroid/input/InputStateMachine.java:232-239 | Removes the target and cancels its pointers |
| `InputMonitor.StateMachine.CancelTarget` | input/java/com/floraldroid/input/InputStateMachine.java:241-246 | Cancels the pointers of one slot and changes no other |
| `InputMonitor.StateMachine.OnTouch` | input/java/com/floraldroid/input/InputStateMachine.java:248-277 | Dispatch of a touch to its target, with the whole new state |
| `InputMonitor.StateMachine.HandleDisplayChange` | input/java/com/floraldroid/input/InputStateMachine.java:279-307 | Cancels and removes exactly the invalidated targets and lists them |
| `InputMonitor.StateMachine.ResetAll` | input/java/com/floraldroid/input/InputStateMachine.java:309-314 | Cancels every target in slot order and forgets them |
| `InputMonitor.TargetState.OnTouch` | input/java/com/floraldroid/input/InputStateMachine.java:256-276 | Sequence check and choice of the pointer action |
| `InputMonitor.TargetState.PointerDown` | input/java/com/floraldroid/input/InputStateMachine.java:316-335 | Effect on pointers, down time and frames, for an accepted and for a refused frame |
| `InputMonitor.TargetState.PointerMove` | input/java/com/floraldroid/input/InputStateMachine.java:337-349 | Effect on the pointer and the frames |
| `InputMonitor.TargetState.PointerUp` | input/java/com/floraldroid/input/InputStateMachine.java:351-372 | Effect on pointers, down time and frames |
| `InputMonitor.TargetState.CancelPointers` | input/java/com/floraldroid/input/InputStateMachine.java:374-382 | One cancellation over all pointers, none without pointers |
| `InputMonitor.TargetState.Inject` | input/java/com/floraldroid/input/InputStateMachine.java:384-406 | One frame with all pointers in ascending order of their ids, normalized to the display |
| `PointerMap.PutNew` | input/java/com/floraldroid/input/InputStateMachine.java:324-325 | A new key joins an ascending list at the position counted by the smaller keys |
| `PointerMap.RemoveExisting` | input/java/com/floraldroid/input/InputStateMachine.java:358-367 | A removed key leaves from that position |
| `Utf8.IsValidUtf8` | topology/DisplayTopologyControlProtocol.cpp:92-139 | Accepts a byte string exactly when it is a concatenation of encodings of non-NUL Unicode scalar values as in sections 3 and 4 of RFC 3629 |
| `Utf8.CutCharacter` | topology/DisplayTopologyControlProtocol.cpp:92-139 | A character can be cut off the front without changing whether the rest is text: decoding is unambiguous |
| `Utf8.LongIsEncoded` | topology/DisplayTopologyControlProtocol.cpp:107-136 | What passes the lead, continuation, minimum, surrogate and range checks is the shortest encoding of its code point |
| `Utf8.EncodedIsRead` | topology/DisplayTopologyControlProtocol.cpp:93-136 | Every encoded character passes those checks and reads as itself |
| `TopologyCodec.Serialize` | topology/DisplayTopologyControlProtocol.cpp:143-200 | Succeeds exactly on serializable lists and writes their one encoding, at most 14600 bytes |
| `TopologyCodec.PayloadSize` | topology/DisplayTopologyControlProtocol.cpp:148-172 | The rejections are exactly those of the display limits and of names that are no text; the payload limit of the control protocol never rejects |
| `TopologyCodec.WriteRecord` | topology/DisplayTopologyControlProtocol.cpp:177-198 | Writes one padded record behind what is there |
| `TopologyCodec.Parse` | topology/DisplayTopologyControlProtocol.cpp:202-275 | Returns the list a payload encodes, and fails exactly when it encodes none; every read is in bounds |
| `TopologyCodec.ParseRecord` | topology/DisplayTopologyControlProtocol.cpp:223-267 | Returns the record at an offset, and fails exactly when none starts there |
| `TopologyCodec.ParseFront` | topology/DisplayTopologyControlProtocol.cpp:223-248 | Sizes, counts, port and padding are checked in bounds, and pass exactly when they are those of some record |
| `TopologyCodec.ParseRecords` | topology/DisplayTopologyControlProtocol.cpp:221-272 | Reads as many records as announced and nothing else |
| `TopologyCodec.EncodeInjective` | topology/DisplayTopologyControlProtocol.cpp:174-198 | Different lists have different payloads |
| `TopologyCodec.RecordUnique` | topology/DisplayTopologyControlProtocol.cpp:178-197 | No record is the beginning of another |
| `TopologyCodec.ParseAfterSerialize` | topology/DisplayTopologyControlProtocol.cpp:143-275 | Parsing after serializing gives the list back, for every serializable list |
| `TopologyCodec.SerializeAfterParse` | topology/DisplayTopologyControlProtocol.cpp:143-275 | Serializing after parsing gives the identical bytes, for every accepted payload |
| `TopologyCodec.AcceptedPayloadsAreBounded` | topology/DisplayTopologyControlProtocol.cpp:165-171 | No accepted payload exceeds 14600 bytes |
| `TopologyState.DisplayTopologyStateService.ReplaceExternalDisplays` | topology/DisplayTopologyStateService.cpp:38-85 | Acceptable displays are stored in the order of their ids with a new generation unless they are stored already; a rejection names a fault of the list and changes nothing |
| `TopologyState.Check` | topology/DisplayTopologyStateService.cpp:50-62 | Passes exactly the lists of valid displays with distinct ids and ports, and names a fault of any other |
| `TopologyState.IsValidDisplay` | topology/DisplayTopologyStateService.cpp:129-150 | Accepts exactly the displays within the limits whose rates are distinct and include the active one |
| `TopologyState.RunKeepsTopology` | topology/DisplayTopologyStateService.cpp:69-76 | In every run the stored list is strictly sorted with valid displays and distinct ports, and the generation counts its changes modulo 2^63-1 |
| `TopologyState.GenerationChangesWithDisplays` | topology/DisplayTopologyStateService.cpp:69-80 | The generation changes exactly when the stored list changes, which holds the request exactly when that was acceptable; a rejection changes neither |
| `TopologyState.ResubmittingIsUnchanged` | topology/DisplayTopologyStateService.cpp:69-72 | Sending the stored displays again in any order changes nothing |
| `TopologyState.SortingIsUnique` | topology/DisplayTopologyStateService.cpp:45-48 | Displays with distinct ids have one sorted order |
| `TopologyState.AcceptableIsOrderFree` | topology/DisplayTopologyStateService.cpp:50-62 | Whether a list is acceptable does not depend on its order |
| `TopologyState.Sort` | topology/DisplayTopologyStateService.cpp:45-48 | What the library sort promises |
| `HostAudioSink.GapsAreMarked` | transport/HostAudioSink.cpp:86-125 | In every interleaving of enqueue, discard, mark, stop and the sender: packets go out in the order and with the content accepted, and one that does not directly follow the packet sent before it, or is first on its connection, is marked as a discontinuity |
| `AudioAnswers.MarksMeanGaps` | transport/HostAudioSink.cpp:86-211 | In every interleaving the discontinuity flag is there exactly when the packet does not directly follow the one sent before it, is first on its connection or of its run, came with the flag, or was the next one popped after a caller asked for a mark or discarded the queue |
| `AudioAnswers.FailuresAreCounted` | transport/HostAudioSink.cpp:154-209 | In every interleaving every failed accept and every failed send is counted once |
| `AudioAnswers.OnlyTheOldestIsDropped` | transport/HostAudioSink.cpp:86-112 | In every interleaving, when a packet is taken and what it drops: everything with a new generation, the oldest packet of a full queue and no other, nothing else; each drop is counted and marks the gap |
| `AudioAnswers.StoppedSinksAreEmpty` | transport/HostAudioSink.cpp:74-80 | In every interleaving a sink is stopped once asked to, is empty then and stays so, and takes and sends nothing new |
| `HostAudioSink.RunsAreNumbered` | transport/HostAudioSink.cpp:178-186 | Packet k of a maximal run of one generation on the wire has number k+1, and the stream-start mark is exactly on the first unless the caller set it |
| `HostAudioSink.LostPacketsAreNotNumbered` | transport/HostAudioSink.cpp:102-106 | A run in which the second of three packets is dropped from a full queue: the others go out on one connection as numbers 1 and 2, and only the discontinuity flag tells |
| `HostAudioSink.ReturningGenerationStartsAgain` | transport/HostAudioSink.cpp:178-186 | A run in which a generation comes back after another one: it starts again at number 1, with the flag for its first packet |
| `HostAudioSink.Delivers` | transport/HostAudioSink.cpp:127-217 | From any idle state one packet goes all the way: what is sent, how it is numbered and when exactly it is marked |
| `HostAudioSink.QueueHoldsOneGeneration` | transport/HostAudioSink.cpp:96-110 | The queue holds the newest accepted packets, all of one generation, within its bound, and every accepted packet is sent, dropped, lost, queued or in hand |
| `HostAudioSink.RunKeeps` | transport/HostAudioSink.cpp:86-217 | The invariant behind these holds after every step of every thread |
| `HostAudioSink.Impl.EnqueuePacket` | transport/HostAudioSink.cpp:86-112 | Validation, change of generation, overflow and append, on the whole new state |
| `HostAudioSink.Impl.MarkDiscontinuity` | transport/HostAudioSink.cpp:114-117 | Marks the next packet popped |
| `HostAudioSink.Impl.DiscardPending` | transport/HostAudioSink.cpp:119-125 | Drops the queue and marks the gap |
| `HostAudioSink.Impl.TakeFront` | transport/HostAudioSink.cpp:141-152 | The oldest packet leaves with the pending mark |
| `HostAudioSink.Impl.AcceptConnection` | transport/HostAudioSink.cpp:154-176 | A packet without a connection is lost, and the first one on a new connection is marked |
| `HostAudioSink.Impl.StampHeader` | transport/HostAudioSink.cpp:178-186 | Number and marks of the packet that goes out |
| `HostAudioSink.Impl.SendCurrent` | transport/HostAudioSink.cpp:188-209 | A packet that cannot be serialized or written closes the connection; a sent one becomes the delivered one |
| `HostAudioSink.Impl.RecordOutcome` | transport/HostAudioSink.cpp:200-211 | A packet given up marks the gap it leaves |
| `HostAudioSink.Impl.StopSink` | transport/HostAudioSink.cpp:74-80 | Stopping empties the queue |
| `VideoBackend.SessionsRunAsDesired` | service/VideoFrameConsumerBackend.cpp:352-408 | In every run: no session means no buffers and no pending reset; a session that accepts frames runs with the desired geometry, rate, bitrate and key frame interval; the desired configuration stays valid; every frame went to the session it was meant for |
| `VideoBackend.TableNamesRegisteredBuffers` | service/VideoFrameConsumerBackend.cpp:130-153 | As long as the encoder never names two buffers by one id, every table entry names a buffer registered in the live session and no two entries the same one |
| `VideoBackend.RegistrationKeepsNames` | service/VideoFrameConsumerBackend.cpp:138-152 | A registration that reaches the encoder, refused there or not, leaves every table entry naming a registered buffer exactly when the buffer is new, keeps its encoder id, or shared its old id with no other entry |
| `VideoBackend.RunKeepsNames` | service/VideoFrameConsumerBackend.cpp:130-153 | In any run the table names registered buffers at all times exactly when every registration that reaches the encoder meets that condition |
| `BackendAnswers.TableHoldsRegistrations` | service/VideoFrameConsumerBackend.cpp:130-153 | In every run with a session the table holds exactly the last registrations of that session, each with the id the encoder gave it |
| `BackendAnswers.RegistrationsAreAnswered` | service/VideoFrameConsumerBackend.cpp:130-153 | The exact condition of every answer to a registration |
| `VideoBackend.FramesUseRegisteredBuffers` | service/VideoFrameConsumerBackend.cpp:163-188 | In such a run every frame handed to the encoder is in a registered buffer |
| `VideoBackend.SharedImportDangles` | service/VideoFrameConsumerBackend.cpp:138-152 | Otherwise, for any two buffer ids that import the same buffer, registering the first anew leaves the second entry without a registration |
| `VideoBackend.OldRequestsAreStale` | service/VideoFrameConsumerBackend.cpp:338-350 | A request stamped with the generation of another session is stale and changes nothing, unless their distance is a multiple of 2^31-1 |
| `VideoBackend.SubmittedFramesAreCurrent` | service/VideoFrameConsumerBackend.cpp:155-205 | In every run the encoder gets exactly the frames submitted for the display, under the generation of that moment, to a session that accepts frames, in a known buffer, that the pacer keeps and that can be copied; in order, each to the session it was meant for |
| `BackendAnswers.FramesAreAnswered` | service/VideoFrameConsumerBackend.cpp:155-205 | The exact condition of every answer to a frame, and what an accepted one leaves behind |
| `VideoBackend.SessionsArePaced` | service/VideoFrameConsumerBackend.cpp:554-579 | In every run, when the stamps the pacer kept in a session never go back, any n of them span more than n-2 intervals of the rate the session runs with |
| `VideoBackend.UpdateIsAtomic` | service/VideoFrameConsumerBackend.cpp:207-335 | A refused update changes nothing, a failed one leaves the desired configuration as it was and resets the session, and an accepted one replaces exactly the selected fields |
| `BackendAnswers.UpdatesAreAnswered` | service/VideoFrameConsumerBackend.cpp:207-335 | The exact condition of every answer to an update; an update that is applied or pending stores, field by field, its own value where its bit is set and the old one where not, and needs a new session exactly when something but the bitrate changes |
| `BackendAnswers.SessionsRunAsUpdated` | service/VideoFrameConsumerBackend.cpp:302-309 | In every run the last update taken decides: the desired configuration has its values field by field, a session that accepts frames runs with them, and it is a new one if one was needed |
| `VideoBackend.RepeatsAdvance` | service/VideoFrameConsumerBackend.cpp:449-500 | In every run the k-th static repeat of a frame comes at least 500 ms plus k-1 seconds after it and any two repeats at least a second apart for each one between; their stamps are as far apart, and none is before its repeat |
| `BackendAnswers.RepeatsAreMadeWhenDue` | service/VideoFrameConsumerBackend.cpp:449-500 | In every run a repeat is made exactly when it is due, its stamp fits 64 bits and the encoder takes it, with the stamp one second on or the time of the repeat, whichever is later; a repeat that is due and fails resets the session |
| `BackendAnswers.DrainsCountDown` | service/VideoFrameConsumerBackend.cpp:410-434 | Pending frames go down by all that came out up to the answer that ends the drain, never below zero |
| `BackendAnswers.SessionsOpenWhenDue` | service/VideoFrameConsumerBackend.cpp:352-408 | In every run a look at the session opens a new one exactly when there is none or the old one is marked or unconnected, the reconnect time has come and an encoder can be opened; what the new one starts with, and when the next attempt may be |
| `VideoBackend.VideoFrameConsumerBackend.MaintainSession` | service/VideoFrameConsumerBackend.cpp:352-408 | Reset, reconnect pacing and opening of the next generation, with each reading of the clock of its own |
| `VideoBackend.VideoFrameConsumerBackend.RegisterImportedBuffer` | service/VideoFrameConsumerBackend.cpp:130-153 | Replacing an entry unregisters the old buffer first, also when the new one is refused |
| `VideoBackend.VideoFrameConsumerBackend.SubmitImportedFrame` | service/VideoFrameConsumerBackend.cpp:155-205 | Checks, pacing and bookkeeping of one frame |
| `VideoBackend.VideoFrameConsumerBackend.ApplyVideoEncoderConfig` | service/VideoFrameConsumerBackend.cpp:207-335 | The update of desired and running configuration, with the whole new state |
| `VideoBackend.VideoFrameConsumerBackend.ValidateRequest` | service/VideoFrameConsumerBackend.cpp:338-350 | Display, generation and session checks, and the reset on a lost connection |
| `VideoBackend.VideoFrameConsumerBackend.GetStreamState` | service/VideoFrameConsumerBackend.cpp:118-128 | The display is told that frames are accepted exactly when a request under the generation it is given would not be refused |
| `VideoBackend.VideoFrameConsumerBackend.MarkSessionForReset` | service/VideoFrameConsumerBackend.cpp:544-552 | Marks a live session once |
| `VideoBackend.VideoFrameConsumerBackend.DrainOutput` | service/VideoFrameConsumerBackend.cpp:410-447 | Pending frames go down by the completed ones and never below zero; a failure resets the session; progress is reported exactly when some call made it |
| `VideoBackend.VideoFrameConsumerBackend.DrainPackets` | service/VideoFrameConsumerBackend.cpp:411-431 | The encoder is asked until an answer makes no progress, ends the stream or fails, at least once and at most as often as configured; the frames completed are those of all its answers |
| `VideoBackend.VideoFrameConsumerBackend.MaybeRepeatStaticFrame` | service/VideoFrameConsumerBackend.cpp:449-500 | When and with which stamp the last frame is repeated |
| `FramePacing.Pacer.ShouldDropFrame` | service/VideoFrameConsumerBackend.cpp:554-579 | The pacing decision in 64-bit arithmetic: no sum wraps around and the overflow fallback is unreachable |
| `FramePacing.KeptFrameSetsSlot` | service/VideoFrameConsumerBackend.cpp:561-578 | A frame is dropped exactly when it lies before the slot by less than an interval, and after a kept frame the slot lies at most one interval ahead |
| `FramePacing.SlotIsFirstOfGrid` | service/VideoFrameConsumerBackend.cpp:561-578 | The new slot is one interval after the frame when the pacer starts anew, and otherwise the first slot of the old grid after the frame |
| `FramePacing.RunIsPaced` | service/VideoFrameConsumerBackend.cpp:554-579 | For timestamps that never go back the next slot stays within one interval of the last kept frame, and kept frames are spaced by whole intervals |
| `FramePacing.RateIsBounded` | service/VideoFrameConsumerBackend.cpp:554-579 | Any n kept frames, n at least 2, span more than n-2 intervals |
| `FramePacing.LateFramesAreKept` | service/VideoFrameConsumerBackend.cpp:561-568 | For such timestamps the pacer starts anew at no frame but the first, drops exactly the frames before the slot, and never drops a frame at least one interval after the last kept one |
| `FramePacing.SlotsFit` | service/VideoFrameConsumerBackend.cpp:569-574 | The bound that makes the overflow fallback unreachable |
| `VaapiEncoder.Drive` | codec/FfmpegVaapiEncoderBackend.cpp:566-761 | For any FIFO codec and any run of submit, repeat, key frame request, bitrate change, end of input and dequeue: the packets handed out are the accepted frames in submission order, and all of them after an end of stream; and a frame is marked as a key frame exactly when one was asked for, by a request or a new codec, since the last frame that was accepted or refused |
| `VaapiEncoder.RequestSurvives` | codec/FfmpegVaapiEncoderBackend.cpp:611-627 | A key frame request is still pending, or carried by the next accepted frame, exactly when no frame was refused since or a request came after the last refusal |
| `VaapiEncoder.LoseRequestBySubmission` | codec/FfmpegVaapiEncoderBackend.cpp:614-632 | A losing sequence: a request, a submission the codec refuses, and an accepted frame without the mark |
| `VaapiEncoder.LoseRequestByRepeat` | codec/FfmpegVaapiEncoderBackend.cpp:654-661 | The same with a refused repeat |
| `VaapiEncoder.Impl.QueuePacketsUntilInputAccepted` | codec/FfmpegVaapiEncoderBackend.cpp:537-564 | While the codec asks to be read and gives packets, these are queued in order and the input is offered again, and the first other answer decides; input is refused only by the codec itself, a failed read or the deadline; packets handed out, queued and inside the codec stay the accepted frames |
| `VaapiEncoder.Impl.Offer` | codec/FfmpegVaapiEncoderBackend.cpp:541-556 | One offer: taken, refused, or a read that queues the packet it gets |
| `VaapiEncoder.Impl.DrainCodecToQueue` | codec/FfmpegVaapiEncoderBackend.cpp:667-694 | Succeeds only with an empty codec, everything it held being queued in order |
| `VaapiEncoder.Impl.SetBitrate` | codec/FfmpegVaapiEncoderBackend.cpp:696-714 | Replaces the codec exactly for another bitrate; the old one is freed only once empty and its packets are queued before any of the new one; the next frame is asked to be a key frame; it fails only for bad arguments, a drain that fails for cause, or a codec that cannot be opened |
| `VaapiEncoder.Impl.CreateCodec` | codec/FfmpegVaapiEncoderBackend.cpp:289-338 | A new codec starts empty, with the drain and end-of-stream marks cleared |
| `VaapiEncoder.Impl.DequeueOutput` | codec/FfmpegVaapiEncoderBackend.cpp:717-761 | Hands out the oldest packet, queued or given by the codec, reports an end of stream only when every accepted frame was handed out and nothing only when the time is up, and comes to poll a missing codec exactly when its replacement failed and nothing is left to tell or hand out |
| `VaapiEncoder.Impl.SubmitFrame` | codec/FfmpegVaapiEncoderBackend.cpp:566-638 | An accepted frame carries the pending key frame request; a frame that passed the checks and is refused loses it, one that did not leaves it; the codec decides after the packets it wanted read, and refuses only for the causes above |
| `VaapiEncoder.Impl.RepeatLastFrame` | codec/FfmpegVaapiEncoderBackend.cpp:640-665 | Repeats the picture of the last accepted frame with the pending key frame request, which a refused repeat loses and a rejected one leaves |
| `VaapiEncoder.Impl.RequestKeyFrame` | codec/FfmpegVaapiEncoderBackend.cpp:839-845 | Accepted until the input has ended |
| `VaapiEncoder.Impl.SignalEndOfInputStream` | codec/FfmpegVaapiEncoderBackend.cpp:847-856 | Ends the input once, losing no frame and no request |
| `RandomSeed.SeedsAreDistinct` | simulation/RandomProcess.cpp:65-71 | For a fixed master seed, two streams have the same seed exactly when they are the same stream, over all 64-bit words |
| `RandomSeed.StreamOfSeed` | simulation/RandomProcess.cpp:65-71 | Every step is undone: the seed leads back to its stream |
| `RandomSeed.SeedOfStream` | simulation/RandomProcess.cpp:65-71 | Every 64-bit word is the seed of some stream |
| `RandomSeed.KnownOutputs` | simulation/RandomProcess.cpp:65-71 | The seeds of the first streams of master seed 0 are the published outputs of SplitMix64 |
| `AuthorityLease.ExpiresExactlyWhenDue` | control/HostControlChannel.cpp:103-111 | In every timed run a check finds the lease expired exactly when a refreshing response came before a disconnect at least one lease ago, with no refresh or expiry since; the first such disconnect counts |
| `AuthorityLease.ExpiresOncePerAuthority` | control/HostControlChannel.cpp:103-111 | Between two expiries lies a refreshing response |
| `AuthorityLease.DeadlineIsNeverExtended` | control/HostControlChannel.cpp:208-231 | Without a refresh a pending deadline stays until a check at or after it: reconnecting, other answers and further disconnects never extend it |
| `AuthorityLease.WaitEndsBeforeDeadline` | control/HostControlChannel.cpp:76-87 | The wait is the reconnect interval, or the whole milliseconds left up to a pending deadline if these are fewer, and zero once it has passed |
| `AuthorityLease.HostControlChannel.RunWorker` | control/HostControlChannel.cpp:233-267 | The worker loop over any turns is a timed run |
| `AuthorityLease.HostControlChannel.ProcessConnection` | control/HostControlChannel.cpp:181-222 | A connection contributes lease checks and answers in order |
| `AuthorityLease.HostControlChannel.NextReconnectWait` | control/HostControlChannel.cpp:76-87 | The wait, truncated to milliseconds |
| `AuthorityLease.HostControlChannel.ExpireLeaseIfNeeded` | control/HostControlChannel.cpp:103-111 | Expiry ends the authority |
| `AuthorityLease.HostControlChannel.RecordAnswer` | control/HostControlChannel.cpp:208-211 | A refreshing response establishes the authority and clears the deadline |
| `AuthorityLease.HostControlChannel.BeginDisconnectLease` | control/HostControlChannel.cpp:224-231 | The first disconnect of an authority sets the deadline |
| `OperationAgreement.HeadersAgree` | input/java/com/floraldroid/input/OperationProtocol.java:120-153 | The Java server and the C++ library accept the same header bytes with equal fields: exactly the well-formed headers in their one encoding |
| `OperationAgreement.BindRequestsAgree` | input/java/com/floraldroid/input/OperationProtocol.java:184-198 | The same for bind requests |
| `OperationAgreement.TouchesAgree` | input/java/com/floraldroid/input/OperationProtocol.java:208-244 | The same for touch events |
| `OperationAgreement.ResponsesParse` | input/TouchOperationProtocol.cpp:187-210 | The library accepts exactly the encodings of well-formed bind responses |
| `OperationAgreement.ResultsAgree` | include/floral/device/input/TouchOperationProtocol.h:32-41 | Server and library number the eight results alike |
| `OperationAgreement.BindAnswersAreUnderstood` | input/java/com/floraldroid/input/OperationServer.java:191-217 | Every answer of a reachable state machine to a well-formed bind request is accepted by the library, which reads the outcome from it |
| `OperationAgreement.InvalidationsAreUnderstood` | input/java/com/floraldroid/input/OperationServer.java:135-142 | Every event that a display change of a reachable state machine sends is accepted by the library, which reads slot, stream, epoch and reason of a removed target from it |
| `OperationAgreement.InvalidationsParse` | input/TouchOperationProtocol.cpp:285-304 | The library accepts exactly the encodings of well-formed invalidation events |
| `OperationAgreement.InvalidatedBytesEncode` | input/java/com/floraldroid/input/OperationProtocol.java:277-285 | The bytes the server writes for an event are its encoding |
| `OperationAgreement.ResponseBytesEncode` | input/java/com/floraldroid/input/OperationProtocol.java:246-267 | The bytes the server writes are the encoding of the answer |
| `OperationAgreement.RoutesAgree` | operation/OperationProtocol.cpp:62-81 | Masks and comparisons accept the same routes and request ids |
| `OperationAgreement.ReadingsAgree` | input/java/com/floraldroid/input/OperationProtocol.java:138-139 | Signed and unsigned readings of a field name the same number |

## Left out

- VideoDelivery.SentIsDecodable: sequence numbers wrap modulo 2^64, so they strictly increase while at most 2^64 packets were made, which is the condition it states.
- VideoDelivery.RecoveringHasRequested: speaks of the moments between calls; inside a call the controller is already recovering while the request is still on its way to the encoder.
- HostAudioSink.GapsAreMarked: claims the gaps the sink makes; a caller's own mark goes to the next packet popped, which need not be the one the caller had in mind.
- HostVideoSink.SinkRunKeepsAccounts: the statistics counters are unbounded integers here and 64-bit words in the source.
- TopologyState.DisplayTopologyStateService.ReplaceExternalDisplays: a list with several faults is rejected for one of them; which one may depend on the order the library sort gives equal ids, and is left open.
- VideoBackend.TableNamesRegisteredBuffers: needs encoder ids that are fresh among the entries, because it promises distinct ids as well; for registered ones alone see `RunKeepsNames`.
- VaapiEncoder.Impl.DequeueOutput: says when a missing codec is polled, not what libavcodec then does.
- VaapiEncoder.Drive: a codec that stays busy forever is not modelled; each codec asks to be tried again finitely often, and a call that waits without a limit ends with it.
- FramePacing.RunIsPaced: speaks of positive timestamps that never go back, at one rate of at most 10^9 frames per second; for any timestamps see `KeptFrameSetsSlot`, for the rates of sessions `VideoBackend.SessionsArePaced`.
- InputRuns.PointersLieOnDisplay: floats have 24 significant bits and exponents without bounds, so there is no infinity and no subnormal; coordinates come near neither.
- OperationAgreement.InvalidationsAreUnderstood: takes the bound stream ids to be 32-bit words, as every bind request on the wire has them.
- OperationAgreement.HeadersAgree: starts from 24 bytes; short reads end the connection before a header exists.
- SendLoop and SenderLoop: the endless loops are runs of their critical sections; one turn of the video loop is `HostVideoSink.Impl.SendNext`.
- Finitely many interrupted sends: a send that is interrupted forever never returns in the source either.
- VideoBackend.VideoFrameConsumerBackend.DrainOutput: the frame counters of a session are unbounded here and 64-bit words in the source.
- The runtime state that a configuration update reports back: a copy of fields.
- EGL, VA-API, gralloc, MediaCodec and Opus calls: foreign libraries, replaced by an abstract FIFO codec and by outcomes of steps.
- Sockets, accept, polling, peer credentials and file modes: I/O.
- The listener list of the topology service: registration and removal are single list operations, and notifications leave the lock before they are sent, so no order is promised.
- Unbind requests and responses and error payloads of FDO1: the same layout work as the messages modelled.
- The other fixed-size codecs (PCM record, FSA1 header, FHC1, simulation records) and `DeviceProfile`: repeats of the same byte layout, or float parsing.
- Binder forwarding and the power, radio, Wi-Fi and encoder command handlers: field checks and dispatch.
- Gauss-Markov noise, system entropy, logging and error strings.
