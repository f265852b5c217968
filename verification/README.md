# Verified models of the Ubo app's protocols and codecs

Ubo is the application and client software of a small home device: a Python
application with a Redux-like store, C clients that draw its menu on LVGL
displays, and the wire between them. This project models the algorithms in it
whose correctness does not follow from reading any one function: incremental
frame parsers, a shared worker thread, the store's run loop, the translation of
objects to messages and back, and a number of smaller machines. Each is a Dafny
model that makes the same decisions as the code, with proofs of what it
promises. `dafny verify dfyconfig.toml` checks everything.

## Layout

Code that updates objects in place is a class whose methods are proved equal to
a specification on values; what the source promises is then proved about that
specification for every input, run or interleaving.

- `Framing`, `FrameSessions`, `FrameParsers`: the gRPC-Web and tcp-lite parsers
  of the C client, which share their buffer discipline and differ in the header.
  `Framing` has the state on values (`Feed`, `Pop`, `Drain`) and, beside it, what
  a byte stream means when parsed in one go (`Frames`, `Oversized`, `Broken`);
  `FrameParser` is the C struct with its growing buffer. `FrameSessions` has the
  encoders, the callers that drain after each feed, and the capacity.
- `StoreStreams`: the store stream from its chunks to its messages.
- `TcpLiteServer`: the Python end of the tcp-lite connection.
- `BlockingWorkers`, `WorkerDeliveries`, `WedgedVerdicts`: the process-wide worker
  thread as a step relation over any number of instances, callers and event loops.
  One step is at most one access to shared state, so the model keeps the races of the
  code, for instance between the thread's look at `wedged` and a caller's setting it.
  The second module is about what becomes of a call's outcome, the third about how
  long the worker refuses work.
- `StoreLoop`: the batched loop of the store, for any reducer.
- `Conversion`, `ConversionLaws`, `ObjectLaws`, `MessageShapes`, `ObjectExamples`:
  building messages from application values and rebuilding the values, over any
  finite schema in which the oneof wrappers are not circular.
- `CircularReferences`: the logger's expansion of arbitrary object graphs.
- `ChangeDetection`: the FNV-1a hash (section 2 of draft-eastlake-fnv) and the
  store handler of the C client that compares hashes.
- `Subscriptions`: the latest-wins slot and the bounded event queue between the
  store's thread and a subscriber's event loop.
- `KeyQueue`: the key ring buffer and its dispatch thread.
- `ZipLatest`: the merge of many asynchronous sources.
- `LowResChunks`, `FrameStreams`: reduced frames in chunks, and retained stills.
- `WifiQr`: the escaped Wi-Fi join record, with a reader for it.
- `Wrappers`, `Bytes`: what several of these share.

## Where the code does less than it says

In each case the model follows the code, and the condition under which the
documented behaviour holds is proved exactly.

- The blocking worker's refusal is documented to last until the overdue call
  returns (ubo_app/utils/blocking_worker.py:100-106, 190-191). The caller's
  deadline, the setting of the abandonment token and the thread's look at the flag
  are not ordered, so both halves of this can fail, each under an exact condition:
  - The flag can outlast the call. From a reachable wedged state it can become
    final before the thread ever lifts it if and only if the thread is past its
    look at the flag and no drain is queued or about to be
    (`VerdictCanLastExactly`): a queued call of any other kind may still be given
    up, and then lifts nothing. It can still be lifted if and only if a call is in
    progress or to come (`WedgeLiftsExactlyWhenACallComes`), and is final
    otherwise. `WedgedForever` is a run into that state.
  - The call can outlast the flag. After the deadline of a job has passed, it can
    run with the flag clear if and only if it had not been started and the thread
    had yet to look at the flag for a call ahead of it
    (`CallOutlivesVerdictExactly`). A call whose deadline passes while it runs
    never does. `LiftedTooEarly` is a run in which the caller has had its timeout,
    its call is running and new work is accepted.
- The gRPC-Web encoder writes the low 32 bits of a length and the tcp-lite
  reader gives up after five length bytes, so longer payloads do not come back:
  `RoundTripExactly`.
- Not every value of the application can be sent, and not every one that is sent
  comes back. `RoundTrip` and `ComesBackExactly` have both conditions, and what comes
  back otherwise, for every value, of any depth and in any place that may hold it:
  - It can be sent (`Sendable`) if and only if everything inside it can: no enum's
    place is empty (a `None` there is refused, although `build_message` has an
    expression for that case behind the check that refuses it,
    ubo_app/rpc/object_to_message.py:231-243); no set or date occurs outside a map
    held as it is; no attribute lacks a field; and in a map of messages only what has
    an arm in the message class occurs besides objects, so no list where the class
    has no arm for lists.
  - What is sent comes back (`Returnable`) if and only if everything inside it does:
    each object keeps all its attributes, that is, none has its name altered by the
    wire's naming rule (a digit next to a letter) unless it is empty by default, and
    no non-empty one is named like a time stamp, which returns as a date; an enum
    member is in an enum's place, since elsewhere only its value is sent, and is not
    named like an empty one; and a map held as it is contains nothing but scalars,
    enum members, lists and maps, with no empty entries.

  `ObjectExamples` has these where the application meets them. An action that adds a
  notification is sent if and only if the notification has a chime, and comes back if
  and only if it does not expire (`NotificationReturnsExactly`). The assistant's state
  cannot be sent once the capabilities of a model are known
  (`CapabilitiesAreRefused`). The action that sets services comes back only if it
  sets none (`ServicesReturnExactly`).
- `register_still` is documented to emit at once when the view is open
  (ubo_app/utils/frame_stream.py:112-113), but the first registration of all only
  begins to follow the stack: the contract of `RegisterStill` says when it emits,
  and `FirstStillIsLate` is a picture that is not.
- A key accepted after the dispatch thread has left is never sent
  (`LostExactlyAfterExit`); `LateKeyIsLost` is such a run. After the shutdown has
  begun only the thread that feeds keys for tests still presses any
  (ubo_lvgl/client/client_main.c:203-217).
- A view is not drawn if it collides with the one on screen or, at first, hashes
  to 0 (`MissedExactlyOnCollision`): `FirstViewIsMissed` and `LaterViewIsMissed`
  name such views.

## Model

| member | source | states |
|---|---|---|
| Framing.HeaderIsStable | ubo_lvgl/client/grpc_web_frame.c:157-166 | A header once readable, or once known to be malformed, reads the same whatever bytes arrive later; this is what lets the parser decide before the frame is complete |
| Framing.DiscardKeepsTrack | ubo_lvgl/client/grpc_web_frame.c:166-181 | Skipping an oversized frame, as far as it has arrived and the rest by `skip`, leaves ahead exactly what follows that frame, and costs one loss |
| Framing.TakeKeepsTrack | ubo_lvgl/client/grpc_web_frame.c:182-189 | Taking a complete frame yields the first frame of the remaining stream and leaves ahead what follows it |
| Framing.PopKeepsTrack | ubo_lvgl/client/grpc_web_frame.c:157-190 | For every state and every future input, a pop's frame and losses followed by what is ahead after it are what was ahead before it |
| Framing.FeedKeepsTrack | ubo_lvgl/client/grpc_web_frame.c:113-155 | A feed, also a refused one or one swallowed by `skip`, keeps the popped frames, the losses and what is still to come in step with all bytes fed |
| Framing.RunKeepsTrack | ubo_lvgl/client/grpc_web_frame.c:107-190 | The invariant of every run of feeds, pops and takes, including `skip > 0` only with nothing unread |
| Framing.StreamLaw | ubo_lvgl/client/grpc_web_frame.c:113-190 | For every way of cutting the stream and every interleaving of feeds and pops that stays within the buffer limit: frames popped plus frames still obtainable are the one-shot parse of all bytes without the oversized frames; losses are counted exactly; the parser ends poisoned exactly if the stream has a malformed header |
| Framing.PrefixLaw | ubo_lvgl/client/grpc_web_frame.c:113-190 | With no condition on the run, even past poisoning, popped frames are a prefix of the one-shot parse of whatever the stream becomes |
| Framing.DroppedLaw | ubo_lvgl/client/grpc_web_frame.c:107-111 | In every run `dropped` is set exactly if an oversized frame was discarded since it was last taken |
| Framing.FeedAnswers | ubo_lvgl/client/grpc_web_frame.c:113-155 | A feed returns true exactly if the parser is not poisoned after it, and accepts whatever still fits the limit |
| Framing.Grow | ubo_lvgl/client/grpc_web_frame.c:139-144 | The new capacity holds what is needed, and is less than twice that unless the old one was enough |
| FrameSessions.CapacityLaw | ubo_lvgl/client/grpc_web_frame.c:139-149 | In every run the capacity is 0 or 256 times a power of two and at most 2^21 |
| FrameSessions.LeftoverIsSmall | ubo_lvgl/client/grpc_web_frame.c:133-138 | What a drained parser keeps buffered leaves room for one more chunk of the admissible size |
| FrameSessions.PromptLaw | ubo_lvgl/client/ubo_rpc.c:113-144 | For a caller that drains after each feed, with chunks of at most 2^20 - 4 bytes (gRPC-Web; 2^20 - 5 tcp-lite), at every moment all frames within the limit contained in the bytes so far have been handed on, losses are exact, and the buffer limit is never what poisons the parser |
| FrameSessions.GrpcWebIsNeverPoisoned | ubo_lvgl/client/grpc_web_frame.c:133-190 | For all bytes in chunks of at most 2^20 - 4, a draining gRPC-Web client never poisons its parser |
| FrameSessions.MaxChunkIsTight | ubo_lvgl/client/tcp_lite_frame.c:87-92 | On neither wire can that bound be raised by one byte: after two admissible chunks any third one above it overflows |
| FrameSessions.ShortLengths | ubo_lvgl/client/tcp_lite_frame.h:34-45 | Lengths up to the frame limit take at most three bytes; the five bytes of the reader hold exactly the lengths below 2^35 |
| FrameSessions.LengthRoundTrip | ubo_lvgl/client/tcp_lite_frame.c:8-20 | Reading an encoded length in front of any bytes gives the length and its byte count, or finds it too long for the reader, exactly by the number of bytes |
| FrameSessions.DecodedLengthFits | ubo_lvgl/client/tcp_lite_frame.c:126-150 | Whatever bytes are read, a length that is accepted is one the 32-bit or 64-bit word can hold |
| FrameSessions.EncodedHeader | ubo_lvgl/client/grpc_web_frame.c:6-23 | How the reader sees any encoded header: flag, header size and length, the length modulo 2^32 for gRPC-Web, malformed from 2^35 on for tcp-lite |
| FrameSessions.RoundTrip | ubo_lvgl/client/grpc_web_frame.c:6-23 | The one-shot parse of any list of encoded frames is that list, and the stream is not malformed |
| FrameSessions.RoundTripExactly | ubo_lvgl/client/tcp_lite_frame.c:8-38 | Any list of encoded frames is read back as that list if and only if every length is below 2^32 (gRPC-Web) or 2^35 (tcp-lite) |
| FrameSessions.CountOversized | ubo_lvgl/client/grpc_web_frame.c:166-181 | The losses in an encoded stream are exactly the frames above the limit |
| FrameSessions.Delivery | ubo_lvgl/client/grpc_web_frame.c:6-190 | End to end: encoded frames arriving in any admissible chunks reach a draining client exactly as the sublist of those of at most 2^20 bytes, in order; a larger one loses only itself and the stream is never poisoned |
| FrameParsers.FrameParser.constructor | ubo_lvgl/client/grpc_web_frame.c:85-93 | A new parser is the empty state |
| FrameParsers.FrameParser.Compact | ubo_lvgl/client/grpc_web_frame.c:127-132 | Moving the unread bytes to the front of the buffer changes nothing observable |
| FrameParsers.FrameParser.Reserve | ubo_lvgl/client/grpc_web_frame.c:139-149 | The capacity is doubled from 256 just until it holds the bytes needed, and the contents survive |
| FrameParsers.FrameParser.Append | ubo_lvgl/client/grpc_web_frame.c:139-154 | The rest of the data stands behind what was buffered |
| FrameParsers.FrameParser.Feed | ubo_lvgl/client/grpc_web_frame.c:113-155 | The in-place feed is the feed of the specification: swallowing, compaction, limit, growth and result |
| FrameParsers.FrameParser.ReadLength | ubo_lvgl/client/tcp_lite_frame.c:121-155 | The loop over the length bytes reads what the recursive definition does: complete, incomplete or malformed |
| FrameParsers.FrameParser.PeekHeader | ubo_lvgl/client/tcp_lite_frame.c:114-156 | The header at the read position, for either wire |
| FrameParsers.FrameParser.DropOversized | ubo_lvgl/client/grpc_web_frame.c:166-181 | Position, `skip` and `dropped` after an oversized header, keeping `skip > 0` only with nothing unread |
| FrameParsers.FrameParser.Take | ubo_lvgl/client/grpc_web_frame.c:182-189 | The frame handed out in place is the one the specification pops |
| FrameParsers.FrameParser.Next | ubo_lvgl/client/grpc_web_frame.c:157-190 | The in-place loop is one pop of the specification; the payload is a range of the buffer and the buffer's bytes are not touched |
| FrameParsers.FrameParser.TakeDropped | ubo_lvgl/client/grpc_web_frame.c:107-111 | Returns the flag and clears it, and nothing else |
| FrameParsers.FrameParser.DrainAll | ubo_lvgl/client/ubo_rpc.c:118-133 | All obtainable frames in order, without the trailers |
| FrameParsers.FrameParser.OnChunk | ubo_lvgl/client/ubo_rpc.c:113-144 | The stream callback: a refused feed stops the stream and delivers nothing; otherwise all data payloads, a report exactly if a frame was lost, and going on exactly if not poisoned |
| StoreStreams.ServeStream | ubo_lvgl/client/ubo_rpc.c:113-144 | A new parser served with chunks of at most 2^20 - 4 bytes never refuses to go on; the messages handed on in all are the payloads of the data frames within the limit of the one-shot parse of all bytes, in order; and a loss is reported with just the chunks that disclosed an oversized frame |
| StoreStreams.MessagesArrive | ubo_lvgl/client/grpc_web_frame.c:6-27 | What a server sends as data frames and a trailer, however cut, comes out as every payload of at most 2^20 bytes, in order, and not the trailer |
| TcpLiteServer.EncodeVarint | ubo_app/rpc/mcu_server.py:68-81 | Negative values are refused; any other is encoded as the C client encodes it |
| TcpLiteServer.EncodeFrame | ubo_app/rpc/mcu_server.py:84-86 | A frame is encoded as the C client encodes it, whatever the client's word size |
| TcpLiteServer.StreamReader.ReadExactly | ubo_app/rpc/mcu_server.py:89-91 | Exactly the next bytes, or end of stream if there are too few |
| TcpLiteServer.StreamReader.ReadVarint | ubo_app/rpc/mcu_server.py:94-106 | The loop with its shifts reads what the recursive definition does and consumes exactly those bytes; it refuses after ten continuation bytes |
| TcpLiteServer.StreamReader.ReadFrame | ubo_app/rpc/mcu_server.py:109-117 | One frame off the stream, refusing lengths above the limit before reading them |
| TcpLiteServer.VarintRoundTrip | ubo_app/rpc/mcu_server.py:68-106 | An encoded number in front of any bytes is read back, consuming just its own bytes, precisely if it is below 2^70, and refused otherwise |
| TcpLiteServer.TenContinuationsAreRefused | ubo_app/rpc/mcu_server.py:94-106 | Ten continuation bytes are refused whatever follows |
| TcpLiteServer.FrameOfEncoded | ubo_app/rpc/mcu_server.py:84-117 | An encoded frame in front of any bytes is read back, or refused exactly if above 2^20 bytes |
| TcpLiteServer.ConnectionRoundTrip | ubo_app/rpc/mcu_server.py:84-117 | A connection of any list of frames is read as that list up to the first oversized one, which ends it |
| TcpLiteServer.CutConnection | ubo_app/rpc/mcu_server.py:89-117 | A connection that breaks off after any byte gives exactly the frames complete by then and then the end of the stream, never a wrong frame or length |
| TcpLiteServer.Interoperation | ubo_lvgl/client/tcp_lite_frame.c:22-176 | The Python server's sequential reading and the C client's incremental parser, under any chunking, get the same frames out of the same bytes |
| BlockingWorkers.InvKept | ubo_app/utils/blocking_worker.py:49-93 | Every step of every instance, caller, event loop and thread keeps the invariant: at most one thread, FIFO service, outcomes only of finished calls, futures only settled with their own call's outcome, drains behind their instance's work |
| BlockingWorkers.ReachableInv | ubo_app/utils/blocking_worker.py:66-255 | The invariant holds in every reachable state |
| BlockingWorkers.OneCallAtATime | ubo_app/utils/blocking_worker.py:141-161 | However many instances race to attach, of all calls ever started at most one has not returned |
| BlockingWorkers.QueueOrder | ubo_app/utils/blocking_worker.py:66-75 | Calls start in queue order, each at most once, and a job the thread has passed was either started or skipped because it was abandoned |
| BlockingWorkers.SettledOnce | ubo_app/utils/blocking_worker.py:49-63 | A settled or cancelled future never changes again, and is settled only with the outcome of its own finished call |
| BlockingWorkers.AbandonedNeverStarts | ubo_app/utils/blocking_worker.py:69-73 | A job abandoned before the thread looked at its token is not started in any continuation |
| BlockingWorkers.DrainLaw | ubo_app/utils/blocking_worker.py:241-255 | A completed drain implies that each job queued before it has returned or was skipped for a caller that gave up, and none of them is running |
| BlockingWorkers.ClosedInstanceIsSilent | ubo_app/utils/blocking_worker.py:194-204 | After an instance's drain has completed no call of that instance runs or ever starts, in any continuation |
| WorkerDeliveries.NoOutcomeIsLost | ubo_app/utils/blocking_worker.py:74-93 | In every reachable state the outcome of each finished call, result or exception, on a loop still open and with a pending future, is being handed over or waits on that loop, and the callback then settles the future with just that outcome |
| WorkerDeliveries.NobodyLeavesPending | ubo_app/utils/blocking_worker.py:213-239 | A caller that has returned or raised leaves its future settled or cancelled |
| WorkerDeliveries.OutcomeIsReturned | ubo_app/utils/blocking_worker.py:74-79 | Every outcome on record is the one with which that very call returned at some step of the run |
| WorkerDeliveries.JobCanBeServed | ubo_app/utils/blocking_worker.py:66-93 | From every reachable state each queued job nobody has given up, on an open loop, can be called and its future settled with whatever its call returns or raises |
| WorkerDeliveries.CloseDrains | ubo_app/utils/blocking_worker.py:241-255 | Closing an instance marks it closed and, unless the worker is wedged, leads to a drain behind all its work that can complete; on a wedged worker there is none |
| WedgedVerdicts.StuckAlong | ubo_app/utils/blocking_worker.py:197-199 | Wedged with no call in progress or to come stays so for ever, and nothing is started again by any instance |
| WedgedVerdicts.ClearEventually | ubo_app/utils/blocking_worker.py:80-88 | Wedged with a call in progress or an unabandoned job queued, there is a run that lifts the verdict |
| WedgedVerdicts.WedgeLiftsExactlyWhenACallComes | ubo_app/utils/blocking_worker.py:80-106 | The verdict can be lifted if and only if a call is in progress before the thread's check or an unabandoned job is still to come; otherwise no call is ever started again |
| WedgedVerdicts.Silence | ubo_app/utils/blocking_worker.py:213-230 | From any reachable state wedged past the thread's look, with no drain to come, there is a run in which every caller gives up before its call and the verdict becomes final |
| WedgedVerdicts.VerdictCanLastExactly | ubo_app/utils/blocking_worker.py:69-88 | From a reachable wedged state, a run that never lifts the verdict can make it final if and only if the thread is past its look at the flag and no drain is queued or about to be queued; otherwise a lift comes first in every such run |
| WedgedVerdicts.OvertakeVerdict | ubo_app/utils/blocking_worker.py:220-230 | With a call ahead whose look at the flag is still to come, there is a run in which an overdue job is called with the verdict on it already lifted |
| WedgedVerdicts.CallOutlivesVerdictExactly | ubo_app/utils/blocking_worker.py:190-191 | After a deadline passes, a continuation in which the overdue call runs with the flag clear exists if and only if the call had not started and the thread had yet to look at the flag for a call in progress or an unabandoned job ahead |
| WedgedVerdicts.LiftedTooEarly | ubo_app/utils/blocking_worker.py:80-88 | A reachable state in which a caller has had its timeout, its call is running, the worker is not wedged and accepts new work |
| WedgedVerdicts.WedgedForever | ubo_app/utils/blocking_worker.py:83-93 | A reachable state in which the only call has returned, the thread is idle, the queue is empty and the worker is wedged for good |
| StoreLoop.AfterSplits | ubo_app/store/main.py:544-566 | Reducing some actions and then some more is reducing them together, so batches cannot change what is reduced |
| StoreLoop.OneEnd | ubo_app/store/main.py:540-570 | There is one state in which the action queue can run empty |
| StoreLoop.Store.constructor | ubo_app/store/main.py:529-540 | A store starts with the given state and queues |
| StoreLoop.Store.Dispatch | ubo_app/store/main.py:555-557 | What a reducer returns goes to the ends of the two queues, in order |
| StoreLoop.Store.Reduce | ubo_app/store/main.py:550-561 | Reducing one action: complete, state-only and other results, with what they dispatch |
| StoreLoop.Store.ProcessAction | ubo_app/store/main.py:548-566 | One action leaves the queue and is reduced, an absent action is passed over, and the finish action announces itself last |
| StoreLoop.Store.RunEventHandlers | ubo_app/store/main.py:568-570 | All queued events are handed over, oldest first |
| StoreLoop.Store.Round | ubo_app/store/main.py:541-570 | One round reduces a batch or all there is, then hands over everything; no event queued in it waits for as many actions as a batch holds |
| StoreLoop.AfterRecounts | ubo_app/store/main.py:544-566 | Any number of reductions, told without its steps: the state is the reducer folded over the actions reduced; those are the first of the actions queued at the start, absent ones left out, followed by all that complete results returned, in order, and the rest is still queued; the states set and the events emitted are those of the results, in order, with the finish event behind its action's |
| StoreLoop.Store.RunRounds | ubo_app/store/main.py:540-570 | Any finite part of any run, ending or not: it amounts to what is said above, every round reduces an action unless the store comes to rest, and every event waits for fewer actions than a batch holds |
| StoreLoop.Store.Run | ubo_app/store/main.py:529-570 | For every batch size, an application that comes to rest has then reduced all actions ever queued, in order, to the fold of the reducer over them, with the events handed over in the order they were queued |
| StoreLoop.Store.RunDraining | ubo_app/store/main.py:530-536 | The same for the loop this one overrides, which drains all actions before any event |
| StoreLoop.RunBoth | ubo_app/store/main.py:525-570 | Refinement: started alike, both loops reduce the same actions to the same states and hand over the same events in the same order |
| ConversionLaws.WrapsExactlyWhenReachable | ubo_app/rpc/object_to_message.py:141-173 | Wrapping in a oneof succeeds if and only if some chain of oneof wrappers leads from the expected class to the object's |
| ConversionLaws.OneLayer | ubo_app/rpc/message_to_object.py:101-105 | One layer of wrapping comes off exactly if the arm belongs to the oneof group, and otherwise cannot be reduced; the generator writes only classes that consist of their group (ubo_app/rpc/generator/_types.py:307-331) |
| ConversionLaws.WrapIsUndone | ubo_app/rpc/message_to_object.py:153-154 | Reducing a successful wrapper repeatedly recovers the very message wrapped, and both rebuild to the same object |
| ConversionLaws.BasicIsUndone | ubo_app/rpc/object_to_message.py:77-95 | Every scalar comes back from its `BasicType` as the same kind of scalar: bool apart from int, None apart from an empty arm |
| ConversionLaws.DynamicRoundTrip | ubo_app/rpc/object_to_message.py:98-138 | A value without objects, at a class for dynamic ones, converts exactly if it is made of scalars, enum members and lists nested no deeper than the class has list arms, and then rebuilds to itself up to tuples becoming lists |
| ConversionLaws.NothingConverts | ubo_app/rpc/object_to_message.py:110-138 | At a class with no arm for scalars or lists nothing but an object can be converted |
| ConversionLaws.SetIsRebuilt | ubo_app/rpc/message_to_object.py:174-177 | The message of a set rebuilds to the set of what it holds |
| MessageShapes.BuiltConforms | ubo_app/rpc/object_to_message.py:223-350 | For all values whatever: what is built for a place is a message of the class expected there, each of its fields a field of the class holding a message of that field's class, with every oneof, optional, list and map wrapper in between |
| MessageShapes.WrapConforms | ubo_app/rpc/object_to_message.py:160-171 | A oneof wrapper is of the expected class, and each layer in it is in an arm of its own class |
| MessageShapes.ArmFitsScalar | ubo_app/rpc/object_to_message.py:84-95 | A scalar is in the arm for its kind, and None in none |
| ObjectLaws.PlaceIsUndone | ubo_app/rpc/object_to_message.py:301-326 | An object put where its class is reached directly, through oneofs or as a single field rebuilds like the bare object |
| ObjectLaws.MessageReturns | ubo_app/rpc/message_to_object.py:190-202 | A message whose fields stand for the attributes of an object rebuilds if and only if something arrives of every attribute, and then to the object of what arrives: the value, the date for a number under the name of a time stamp, None or the default for an empty one |
| ObjectLaws.ObjectRoundTripExactly | ubo_app/rpc/object_to_message.py:328-347 | An object on its own is built if and only if its class has a field for each attribute and each attribute can be sent, and what it is built to rebuilds to just what arrives of its attributes |
| ObjectLaws.ObjectComesBackExactly | ubo_app/rpc/message_to_object.py:190-202 | And it rebuilds to itself if and only if all its attributes are kept and returnable |
| ObjectLaws.RoundTrip | ubo_app/rpc/message_to_object.py:111-252 | Every value of any depth (scalars, enum members, lists, maps of either kind, sets and dates, objects, oneof-wrapped and optional ones), in any place that may hold it, is built if and only if it is sendable there, and rebuilds to just what arrives of it there, told of values alone, or to nothing if nothing does; a scalar is sent as itself, an enum member outside an enum's place as its value |
| ObjectLaws.ComesBackExactly | ubo_app/rpc/message_to_object.py:111-252 | What has been sent rebuilds to itself, up to tuples becoming lists, if and only if it is returnable in its place |
| ObjectLaws.ArrivesUnchanged | ubo_app/rpc/message_to_object.py:190-252 | What arrives of a value is the value itself if and only if it is returnable |
| ObjectLaws.RawArrives | ubo_app/rpc/message_to_object.py:137-145 | What a map holds as it is rebuilds if and only if it consists of scalars, enum members, lists and maps, and then to itself without the empty entries of maps |
| ObjectLaws.RawReturnsExactly | ubo_app/rpc/message_to_object.py:137-145 | So it comes back unchanged if and only if, besides, no entry of a map is empty |
| ObjectLaws.PlaceFails | ubo_app/rpc/object_to_message.py:141-211 | An object that cannot be built on its own cannot be built for any oneof, optional or other place |
| ObjectLaws.BuildsExactly | ubo_app/rpc/object_to_message.py:223-350 | What cannot be sent: exactly the values that are not sendable, at any depth and in any place |
| ObjectLaws.ObjectBuildsExactly | ubo_app/rpc/object_to_message.py:328-347 | The same for an object on its own, whatever attributes its application class declares |
| ObjectExamples.TimestampDoesNotReturn | ubo_app/rpc/message_to_object.py:246-250 | Under every name ending in `_timestamp`, every number is built and comes back as the date that it is the seconds of |
| ObjectExamples.RenamedDoesNotReturn | ubo_app/rpc/message_to_object.py:190-202 | Under every name that the wire alters, a number is built and its object cannot be rebuilt |
| ObjectExamples.NotificationReturnsExactly | ubo_app/store/services/notifications.py:85-139 | With a notification of two of its attributes, inside its action, inside the union of actions: it is sent if and only if `chime` is set, returns if and only if `expiration_timestamp` is not, and with a number there returns with the date of just that number |
| ObjectExamples.CapabilitiesAreRefused | ubo_app/store/services/assistant.py:1504-1506 | The state with its map of tuples can be built if and only if the map is empty |
| ObjectExamples.ServicesReturnExactly | ubo_app/store/settings/types.py:54-58 | The action with its map of objects can always be built, and comes back if and only if the map is empty |
| ObjectLaws.EmptyEnumIsRefused | ubo_app/rpc/object_to_message.py:227-243 | An object with a None in an enum field cannot be built, whatever else it holds |
| CircularReferences.Walk | ubo_app/logger.py:49-78 | The expansion terminates on every finite heap, cyclic or not, and never forgets an object it has met |
| CircularReferences.Expansion.Expand | ubo_app/logger.py:49-78 | The recursion with its dictionary updated in place returns what the functional one does and leaves the same dictionary; each object is expanded at most once |
| CircularReferences.AgreesWithPlainRecursion | ubo_app/logger.py:56-61 | On every acyclic part of a heap, however shared, the memoised expansion equals plain structural recursion |
| CircularReferences.WalkConsistent | ubo_app/logger.py:63-76 | On every heap the dictionary stays consistent: a finished object is shown as its children are remembered, with placeholders only for objects then unfinished |
| CircularReferences.CleanMeansAcyclic | ubo_app/logger.py:59-63 | An expansion without placeholder proves that no circle can be reached |
| CircularReferences.PlaceholderMeansCircle | ubo_app/logger.py:59-63 | A placeholder is shown if and only if a circle can be reached |
| CircularReferences.ExpansionDepicts | ubo_app/logger.py:49-78 | On every heap the expansion shows what there is: the same leaves, keys, items and texts, dictionaries as dictionaries, lists as lists and tuples as tuples, and a placeholder only for an object from which references lead back to it, never for the object itself |
| CircularReferences.DepictionIsUnique | ubo_app/logger.py:65-74 | Without placeholders there is only one such depiction, so the expansion is determined by the heap |
| ChangeDetection.BlobHash | ubo_lvgl/client/client_core.c:41-48 | The loop computes FNV-1a with 32-bit wrap-around |
| ChangeDetection.PrimeIsInvertible | ubo_lvgl/client/client_core.c:45 | Multiplying by 16777619 modulo 2^32 is undone by 0x359C449B |
| ChangeDetection.HashInverts | ubo_lvgl/client/client_core.c:42-48 | From the final hash and the bytes the initial hash is recovered: each blob permutes the hash states |
| ChangeDetection.SuffixCancels | ubo_lvgl/client/client_core.c:42-48 | Two blobs with a common suffix collide exactly if their fronts do |
| ChangeDetection.OneByteSeparates | ubo_lvgl/client/client_core.c:42-48 | Blobs of equal length that differ in exactly one byte never collide |
| ChangeDetection.Client.constructor | ubo_lvgl/client/client_core.c:58 | Nothing is rendered and both remembered hashes are 0, which is the initial value of the results below |
| ChangeDetection.Client.HandleStore | ubo_lvgl/client/client_core.c:50-101 | One update: connection, status bar, view and blanking with their guards; the renderings are those of the offers so far whose hash changed |
| ChangeDetection.Client.OfferView | ubo_lvgl/client/client_core.c:68-81 | One more view is offered: it is rendered and remembered exactly if its hash is not the remembered one |
| ChangeDetection.Client.OfferStatusBar | ubo_lvgl/client/client_core.c:59-67 | The same for the status bar, with its own remembered hash |
| ChangeDetection.TypeIsNamed | ubo_lvgl/client/client_core.c:37-39 | A result is of a type if and only if it has a URL that contains the name |
| ChangeDetection.FirstViewIsMissed | ubo_lvgl/client/client_core.c:58-70 | The view CC 24 31 C4 hashes to 0 and is not drawn by a client that has just started |
| ChangeDetection.LaterViewIsMissed | ubo_lvgl/client/client_core.c:68-70 | Two different views that collide: after the first is drawn the second is not |
| ChangeDetection.ScreenHasTheLastHash | ubo_lvgl/client/client_core.c:68-81 | What is on screen always has the hash of the last offer; if nothing is, every offer hashed to the initial value |
| ChangeDetection.SingleByteChangeIsRendered | ubo_lvgl/client/client_core.c:68-81 | A view that differs from the one on screen in one byte is always rendered |
| ChangeDetection.MissedExactlyOnCollision | ubo_lvgl/client/client_core.c:58-81 | An offer is not rendered if and only if it collides with the one on screen, or at first with the initial value |
| Subscriptions.LatestWins | ubo_app/rpc/store_service.py:466-497 | In every reachable state the event is set exactly if the slot is full, so no wake-up is in vain; what is sent is an in-order subsequence of what was put, and with the slot empty the last sent is the last put |
| Subscriptions.CatchesUp | ubo_app/rpc/store_service.py:474-497 | From every reachable state one step for each callback that is due and at most two of the consumer bring the client the last of all snapshots the store has handed over |
| Subscriptions.EventsAreAccountedFor | ubo_app/rpc/store_service.py:273-408 | In every run each event is taken, waiting or dropped; dropped are just those put while 256 were waiting, told by the puts and gets alone, so none as long as no more were put; those kept are in order; sent are those taken of a subscribed type; warnings are given at the first and each twentieth loss |
| Subscriptions.FilterKeeps | ubo_app/rpc/store_service.py:396-408 | Sent is each event of a subscribed type as often as it was taken, and no other |
| Subscriptions.FilterIsInOrder | ubo_app/rpc/store_service.py:396-408 | And they are sent in the order in which they were taken |
| KeyQueue.Stored | ubo_lvgl/client/client_main.c:192 | A key is kept up to seven characters, whole if it fits |
| KeyQueue.Ring.constructor | ubo_lvgl/client/client_main.c:32-33 | An empty ring of 32 places |
| KeyQueue.Ring.OnInput | ubo_lvgl/client/client_main.c:185-198 | The ring refines a FIFO sequence: a pressed key goes to its end if fewer than 32 wait, else nothing changes; a release does nothing |
| KeyQueue.Ring.Take | ubo_lvgl/client/client_main.c:174-177 | The oldest key is taken off the sequence |
| KeyQueue.Perform | ubo_lvgl/client/client_main.c:163-198 | The ring in memory carries out the protocol below: each step leaves in it exactly the model's queue, signals exactly if a key was accepted, and hands the worker the key the model sends |
| KeyQueue.InvKept | ubo_lvgl/client/client_main.c:163-198 | Every step of inputs, main thread and worker keeps the invariant, in particular that a sleeping worker has an empty queue or a wake-up coming |
| KeyQueue.KeysAreAccountedFor | ubo_lvgl/client/client_main.c:163-182 | In every interleaving the accepted keys are those dispatched, then the one in hand, then those queued, in order; the worker leaves only when stopped with all accepted until then dispatched |
| KeyQueue.NoKeyIsDropped | ubo_lvgl/client/client_main.c:190-196 | As long as no more keys are pressed than the ring holds, every one is accepted |
| KeyQueue.ShutdownIsNotLost | ubo_lvgl/client/client_main.c:273-277 | Although `stop` is set outside the mutex, after the signal the worker is never asleep or about to be, in any continuation |
| KeyQueue.WorkerLeaves | ubo_lvgl/client/client_main.c:163-182 | After the signal the worker always has a step and each of its steps comes nearer to leaving |
| KeyQueue.LateKeysStay | ubo_lvgl/client/client_main.c:185-198 | Once the worker has left, nothing is dispatched and queued keys stay |
| KeyQueue.LostExactlyAfterExit | ubo_lvgl/client/client_main.c:170-173 | An accepted key is never dispatched in any continuation if and only if it was accepted after the worker left |
| KeyQueue.LateKeyIsLost | ubo_lvgl/client/client_main.c:163-198 | A run in which a key is accepted after the worker has left and is never dispatched |
| ZipLatest.Consume | ubo_app/utils/zip_latest.py:48-78 | For every order of arrival: the tuples yielded are those of the items read; it finishes, raises the first failure or waits exactly as the end marks and failures read demand |
| ZipLatest.YieldsAreSnapshots | ubo_app/utils/zip_latest.py:73-74 | One tuple per item, the k-th holding each source's latest among the first k items, or the default |
| ZipLatest.LatestIsTheLast | ubo_app/utils/zip_latest.py:49-73 | The latest of a source is its item behind which it has no other, and the default if it has none |
| ZipLatest.LatestIsPerSource | ubo_app/utils/zip_latest.py:49-58 | What counts as latest of a source depends on its own items only, however the sources interleave |
| ZipLatest.FinishedMeansAllRead | ubo_app/utils/zip_latest.py:64-70 | Finishing implies that every source has ended and that nothing any source sent is unread |
| WifiQr.EscapeWifiQr | ubo_app/utils/hotspot_qr.py:24-28 | The five replacements in turn amount to escaping each special character once |
| WifiQr.BuildWifiQr | ubo_app/utils/hotspot_qr.py:31-33 | The record built is the one the reader below is proved for |
| WifiQr.ReplaceExtends | ubo_app/utils/hotspot_qr.py:25-27 | Replacing one more character extends the set escaped, provided the backslash came first |
| WifiQr.UnescapeInverts | ubo_app/utils/hotspot_qr.py:24-28 | Unescaping undoes escaping for all texts |
| WifiQr.EscapeGoesByCharacters | ubo_app/utils/hotspot_qr.py:24-28 | Escaping puts a backslash before each backslash, semicolon, comma, colon and quotation mark and changes no other character |
| WifiQr.PayloadFields | ubo_app/utils/hotspot_qr.py:31-33 | The record has exactly the fields S, T and P, in this order, with the escaped name, WPA and the escaped password |
| WifiQr.PayloadLength | ubo_app/utils/hotspot_qr.py:33 | Besides the two escaped texts the record has nothing but its marks |
| WifiQr.EscapedIsOneField | ubo_app/utils/hotspot_qr.py:31-33 | An escaped text never ends a field; the semicolon behind it does |
| WifiQr.PayloadIsRead | ubo_app/utils/hotspot_qr.py:31-33 | Splitting at unescaped semicolons and unescaping recovers the exact name and password, for all names and passwords |
| LowResChunks.ReducedSize | ubo_app/utils/frame_stream.py:73-79 | For frames of any size the reduced one is between 1 and 120 pixels wide and high |
| LowResChunks.StrideIsLeast | ubo_app/utils/frame_stream.py:73 | The step is the least with which both sides come to at most 120 |
| LowResChunks.ReducedIsWhole | ubo_app/utils/frame_stream.py:74-79 | The reduced frame has a row and a column for each row and column of the source on a step, and no other |
| LowResChunks.ChunkIsFull | ubo_app/utils/frame_stream.py:88-89 | One more row than a full chunk has would not fit |
| LowResChunks.ChunkSize | ubo_app/utils/frame_stream.py:88-89 | A chunk holds at least one row and at most 8192 bytes |
| LowResChunks.SampleInBounds | ubo_app/utils/frame_stream.py:74-78 | The source pixel of each output pixel lies within the frame's data |
| LowResChunks.PixelInPayload | ubo_app/utils/frame_stream.py:81-86 | Output pixel (row, col) stands at its place in the payload and is the packed source pixel (row * step, col * step) |
| LowResChunks.PixelDecodes | ubo_app/utils/frame_stream.py:81-86 | Read low byte first, a packed pixel gives back the upper 5, 6 and 5 bits of the source's red, green and blue |
| LowResChunks.OneChunk | ubo_app/utils/frame_stream.py:90-99 | Each chunk is a whole number of rows, no more than allowed, and stands where its row offset says |
| LowResChunks.ChunksCover | ubo_app/utils/frame_stream.py:90-99 | From any row on the chunks are the rest of the payload, each beginning at the row where the one before ends |
| LowResChunks.ChunksRebuildPayload | ubo_app/utils/frame_stream.py:46-99 | For frames of any size the chunks together are the payload, without gap or overlap, each of at most 8192 bytes of whole rows |
| LowResChunks.NoChunksExactly | ubo_app/utils/frame_stream.py:64-65 | There are no chunks exactly if the frame is empty or short of data |
| FrameStreams.StillRegistry.constructor | ubo_app/utils/frame_stream.py:41-43 | The registry starts empty and not following the stack |
| FrameStreams.StillRegistry.LowResChunkEvents | ubo_app/utils/frame_stream.py:46-99 | The chunks of a frame, or none if it is empty, short of data, or neither forced nor a tenth of a second after the last; only a frame sent counts as last |
| FrameStreams.StillRegistry.EmitStill | ubo_app/utils/frame_stream.py:159-189 | A still is emitted in full and reduced, and is never throttled |
| FrameStreams.StillRegistry.RegisterStill | ubo_app/utils/frame_stream.py:102-117 | The picture is retained, and emitted at once exactly if its view is on the stack and a stack change has been heard of. Once one has, every view really on the stack with a retained picture has had exactly that picture since the later of opening and registration; before, nothing at all has been emitted |
| FrameStreams.FirstStillIsLate | ubo_app/utils/frame_stream.py:198-230 | The first picture of all, registered while its view is open, is retained and not emitted |
| FrameStreams.StillRegistry.ForgetStill | ubo_app/utils/frame_stream.py:120-122 | Only the picture of that stream is dropped, and nothing is emitted |
| FrameStreams.StillRegistry.ChangeStack | ubo_app/utils/frame_stream.py:198-218 | Emitted are the pictures of exactly the views that open and have one, one each, nothing for any other; the invariant above is kept |
| FrameStreams.StillRegistry.EmitAll | ubo_app/utils/frame_stream.py:217-218 | The loop over the opening views sends each picture once, in whatever order |
| FrameStreams.OpenExactly | ubo_app/utils/frame_stream.py:202-206 | Open are exactly the non-empty streams of the render views on the stack |
| FrameStreams.EmissionShowsPicture | ubo_app/utils/frame_stream.py:159-182 | An emission is of its stream, has the whole picture, and chunks that make up the whole reduced one |

## Left out

- StoreLoop.Store.Run: requires an application that comes to rest, because the loop of one that does not never returns; `RunRounds` covers every finite part of such a run.
- StoreLoop.Store.RunEventHandlers: handlers only schedule work, as the store's handler wrapper does (ubo_app/store/main.py:318-354), so none dispatches while events are handed over; dispatches by other threads during a run, listeners and reducers that raise are not modelled.
- FrameParsers.FrameParser.Feed: allocation always succeeds, and sums of sizes do not wrap around at the limit of `size_t`.
- FrameParsers.FrameParser.Next: the out-pointer is a range of the buffer; freeing a parser and the text of a trailer are not modelled.
- TcpLiteServer.EncodeFrame: the C encoder's length buffer of five bytes (ubo_lvgl/client/tcp_lite_frame.c:24) is the caller's bound on the payload; larger payloads are modelled for the bytes alone.
- FrameStreams.StillRegistry.ChangeStack: stack changes reach the registry at once and in order; their asynchronous delivery, the replay to new subscribers (`open_still_events`) and the moment of other dispatches in between are not modelled.
- FrameStreams.StillRegistry.LowResChunkEvents: time is a number given by the caller, and the division that finds the step is exact rather than in floating point.
- ZipLatest.Consume: cancelling the readers when the consumer stops early is not modelled, and the queue is given by the order of arrival.
- CircularReferences.PlaceholderMeansCircle: the placeholder is told apart from every text; an object whose own text equals it would look like a circle.
- ObjectLaws.RoundTrip: speaks of objects whose message class mirrors the application class field by field, or lacks a field, where the schema takes them, and not of objects inside the lists of a dynamically typed map; the protobuf wrapper types are outside it.
- Conversion.Build: enums are string enums, as all of the application's are, and their members are not equated with their values; the keys of a map are strings; whether an enum class lacks a member of the name is not modelled.
- ChangeDetection.Client.HandleStore: rendering is a recorded event and decoding the blanking message is a parameter.
- Worker threads: other resource names, which share only the lock of creation; the step relation is on values, since its actors are threads and event loops rather than one object's methods. The same holds for `Subscriptions` and the worker half of `KeyQueue`.
- Conversion.RebuildField: every number makes a date, also one that is out of the range of dates.
- Clocks: a deadline may pass at any time, or never.
- Class lookup, imports, caches and the resolution of type annotations in the conversion: a schema gives the classes, the attributes and whether None is accepted.
- Encoding messages to protobuf wire bytes and the precision of floats on the wire.
- Sockets, HTTP, threads' start-up, logging and the user interface.
- The reconnect policy, registries and name normalisers: true but easy.
