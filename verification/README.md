# A verified model of the Surface Serial Hub driver

The Surface Serial Hub (SSH) driver talks to the system aggregator module of a Surface device over a
serial line. This project models its protocol engine, with two of its clients, in Dafny 4.11, and proves what the
engine is for: a response is matched to its request whatever the line delivers and however the threads
interleave; the chunks in which intact frames arrive do not matter; and a frame with a damaged byte has no effect
when it is evaluated whole, nor in any chunks unless the damage is in the header of a command (`HarmlessIff`). Nothing was
executed. `dafny verify dfyconfig.toml` checks everything.

## How it is laid out

| modules | what they hold |
|---|---|
| `Bytes`, `Crc`, `Frames` | bytes and words, the checksum written out concretely, the wire format |
| `CrcMeaning`, `CrcValues` | the checksum as division by a polynomial; its check value, and a whole frame byte for byte |
| `Receiver` | one call of the receive path as functions of the receiver's state and the filled part of the evaluation buffer |
| `Damage`, `Evaluation`, `Streams`, `Window`, `FifoRoom`, `NoRoom`, `RoundTrip` | what is proved about these functions: damaged frames, any buffer content, streams of frames, the FIFO, its room and the lack of it, the serializer |
| `SerialReceiver`, `SerialWriter` | the receiver and the writer as classes with their arrays, updated in place, proved equal to the functions |
| `Protocol` | the request engine as a transition system: one requester, and the receive callback beside it, one message at a step |
| `RequestInvariant`, `RequestSteps`, `RequestTheorems` | its invariant, the proof that each step keeps it, and what follows for every run |
| `RequesterMoves`, `IntactCalls`, `CrowdedRuns` | where the requester's steps lead, calls that must succeed, and runs in which the FIFO runs out of room |
| `Script`, `ScriptOutcomes` | a call in a given environment: the steps it takes, and what it comes to if the answer is delivered on time |
| `SerialHub` | the request engine as the driver runs it, loop and all; it takes exactly the steps of the script |
| `Controller` | the exported calls and the state (uninitialized, initialized, suspended) that gates them |
| `EventWork`, `EventOutcomes`, `HandlerRemoval` | work objects of event notifications, handler registration and removal, as steps; what becomes of an event; when a removal is complete |
| `DtxHistory`, `DtxEvents` | the event rings of the detachment driver: their histories, and the rings in their arrays |
| `San`, `Consumers` | ACPI requests with their own retry loop, and the all-or-nothing consumer links |

Fields named as histories (`accepted`, `events`, `heard`, `log` and so on) record what happened; no branch reads them.

## Hypotheses

- The kernel's primitives are taken at their word: a section under the lock of the handler table or of a ring is one step, a completion is a counter
  that a wait takes one from, a kfifo is a byte queue of 512 bytes, `flush_workqueue` waits for what is on the queue
  when it is called, and a wait ends without the completion only if the counter is zero at that moment.
- A command frame whose length field is below 8 can make the code read past the filled part of the evaluation buffer:
  its request id is not there, or its payload length wraps around. The model marks this with the field `overread` and goes on
  without an effect; from there on it says nothing about the code. `OverreadIff` says exactly when one step does this and
  `LoopOverreadIff` when a whole call does, `ShortFrameOverreads` gives eleven bytes that do it in every state, and
  `StreamReadsInside` shows that no stream of delimitable frames does.
- The result buffers and the two driver buffers do not overlap.
- The evaluation of one message is one step: the requester's waits and FIFO reads may fall between two messages of a receive
  call, not inside the handling of one. In `SerialHub` whole receive calls run between two steps of the requester; these are some of the runs of `Protocol`.
- A file of the detachment driver has one reader at a time (`ReadTakes` needs this for "at least one").

## Where the code and its comments disagree

The model follows the code.

- 0x0000 is called no valid request id (module/surface_sam_ssh.c:80). The first request carries it (`FirstIdIsZero`), and so does exactly every 2048th one after it (`ZeroIdIff`, `IdsOnTheWire`).
- Removal of a handler is meant to make sure that it is not in use any more (module/surface_sam_ssh.c:449-452). This holds for the event queue (`HandlerQuiescence`). On the path that runs a handler inside the receive call it fails exactly if that call had looked the handler up before (`RemovalLeavesUseIff`), which can happen exactly to handlers whose delay callback may ask for immediate execution (`OutlivesIffImmediate`, with the run in `InlineOutlivesRemoval`): the keyboard's (module/surface_sam_vhf.c:184-192), not the one for power events (module/surface_sam_san.c:221-232).
- The evaluation buffer "also works for reading" (module/surface_sam_ssh.c:66). It waits in vain exactly on a checked command header that announces 254 bytes or more (`FullBufferWaitsIff`, `OversizedJams`; `OversizedHeader` is one). These are the responses of 246 and 247 bytes (`OversizedIffLongPayload`), the largest the length field can announce; the maximum of 251 in module/surface_sam_ssh.h:29 is beyond it.
- A response that finds no room in the FIFO is meant to be discarded (module/surface_sam_ssh.c:1137), but only its first ten bytes are, so the rest is taken for new messages (`NoRoomCutsFrame`). Whether a notification behind it is lost then depends on the chunks, exactly unless the response fills the evaluation buffer (`ChunksMatterIff`). `DelayedRoomIff` and `RoomIffFewRetries` say when there is room, and `ChunksMatterInWindow` and `RoomRunsOut` that every window can run out of it.
- A damaged command is meant to be discarded (module/surface_sam_ssh.c:1067-1075). If the damage is in its header, what has arrived is discarded, and the rest is taken for new messages: the damage has an effect, in some chunks, exactly if something behind the place where it is noticed has one on its own (`LostFrameActsIff`), and `CarriedFrameActs` is a frame for which it does, whichever header byte is damaged.
- A read of the detachment driver returns the length of all the events it has dequeued, but copies each of them to the same place (module/surface_sam_dtx.c:252), so the reader can rely on finding them exactly if there is at most one (`ShownIff`).

## Model

| member | source | states |
|---|---|---|
| Crc.OneByteChangesCrc | module/surface_sam_ssh.c:460-463 | a change of any one byte of a message of any length changes its checksum |
| Crc.MixInjective | module/surface_sam_ssh.c:460-463 | the checksum step is injective in the register and in the byte, whatever follows |
| CrcMeaning.ShiftIsTimesX | module/surface_sam_ssh.c:460-463 | a shift of the register multiplies the polynomial of its digits by x, modulo x^16 + x^12 + x^5 + 1 |
| CrcMeaning.ByteStep | module/surface_sam_ssh.c:460-463 | a byte is added to the upper eight digits and shifted in eight times, the first one into 0xffff |
| CrcValues.CheckValue | module/surface_sam_ssh.c:460-463 | the check value of this checksum, 0x29b1 for the bytes 0x31 to 0x39 |
| CrcValues.AckBytes | module/surface_sam_ssh.c:546-559 | the ACK frame of the sequence id 0, byte for byte |
| Receiver.EvalBuf | module/surface_sam_ssh.c:1146-1177 | a step never consumes more than there is, and has no effect when it asks for more bytes |
| Receiver.EvalLoop | module/surface_sam_ssh.c:1203-1214 | the loop terminates and leaves exactly a suffix of the buffer |
| Receiver.ReceiveBuf | module/surface_sam_ssh.c:1198-1218 | a call never overfills the evaluation buffer, and leaves in it exactly the unconsumed end of its old content and the bytes accepted |
| Damage.DamageIsDetected | module/surface_sam_ssh.c:985-1101 | a frame with one byte altered, at any place, has no effect when it is evaluated whole; and exactly which positions cost the frames behind it |
| Damage.DamageInChunks | module/surface_sam_ssh.c:1179-1214 | a control frame altered anywhere, and a command altered behind its header, has no effect in whatever chunks it arrives |
| Damage.DamagedFrameIsSkipped | module/surface_sam_ssh.c:1179-1214 | where the altered byte leaves the end recognisable, a stream in any chunks is handled as if the frame were not in it |
| Damage.LostFrameActsIff | module/surface_sam_ssh.c:1067-1075 | where it does not, the frame has an effect in some chunks exactly if one of the rests it can leave behind has one on its own |
| Damage.LostFrameIsSilent | module/surface_sam_ssh.c:1151-1160 | so not if there are no sync bytes behind the first six |
| Damage.CarriedFrameActs | module/surface_sam_ssh.c:1067-1075 | a command that carries a notification as payload: damage to any byte of its header, and two chunks, make the receiver handle the payload |
| Damage.HarmlessIff | module/surface_sam_ssh.c:1065-1101 | at a position of a command, damage is harmless in any chunks exactly from the ninth byte on |
| Damage.DamagedControl | module/surface_sam_ssh.c:973-1000 | evaluated whole, the same for control frames, type bytes that reroute to the other handler included |
| Damage.DamagedCommand | module/surface_sam_ssh.c:1043-1101 | evaluated whole, the same for command frames |
| Evaluation.LoopStops | module/surface_sam_ssh.c:1203-1210 | the loop stops only on an empty buffer or on bytes that need more bytes |
| Evaluation.FullBufferWaitsIff | module/surface_sam_ssh.c:1043-1081 | a full buffer makes the evaluation wait exactly if a checked header announcing more than it holds is at its front |
| Evaluation.FullOnlyIfOversized | module/surface_sam_ssh.c:1198-1214 | a call leaves the buffer full only with such a header at its front; otherwise the next one takes a byte |
| Evaluation.OversizedJams | module/surface_sam_ssh.c:1198-1214 | behind such a header any further calls only pile up bytes until the buffer is full, and change nothing |
| Evaluation.OversizedHeader | module/surface_sam_ssh.c:1078-1081 | eight bytes that are such a header |
| Evaluation.OversizedIffLongPayload | module/surface_sam_ssh.c:37-66 | of the commands that can be serialized, exactly those with more than 245 bytes of payload are too long for the buffer |
| Evaluation.OverreadIff | module/surface_sam_ssh.c:1043-1143 | the largest offset a step reads is outside the filled part exactly for a short command that passes every check and whose id is not there, is an event's, or is awaited with room in the FIFO |
| Evaluation.LoopOverreadIff | module/surface_sam_ssh.c:1203-1210 | a whole evaluation reads outside exactly if this is so at one of the places it comes to |
| Evaluation.StreamReadsInside | module/surface_sam_ssh.c:1043-1143 | no stream of delimitable frames that find room makes it read outside |
| Evaluation.ShortFrameOverreads | module/surface_sam_ssh.c:1103-1104 | eleven bytes that make it read outside in every state |
| Streams.FrameIsLocal | module/surface_sam_ssh.c:973-1144 | a delimitable frame is handled alike whatever follows, and is consumed whole exactly if an awaited response finds room |
| Streams.PrefixWaits | module/surface_sam_ssh.c:985-1081 | every proper beginning of a delimitable frame makes the receiver wait |
| Streams.LoopProgresses | module/surface_sam_ssh.c:1203-1214 | the loop on any beginning of a stream does what handling the frames one by one does |
| Streams.OfferKeepsStanding | module/surface_sam_ssh.c:1198-1218 | each call keeps that, and takes at least one byte if offered any |
| Streams.ProgressIsFold | module/surface_sam_ssh.c:1203-1214 | what the frame-by-frame reference means: whole frames folded, the unfinished one pending |
| Streams.ChunkIndependence | module/surface_sam_ssh.c:1179-1219 | for every stream and every way of offering it in chunks, the receiver has handled the whole frames one by one and holds exactly the unfinished one |
| Window.StepKinds | module/surface_sam_ssh.c:1002-1143 | a step accepts nothing, or the valid expected control frame or awaited response at the front |
| Window.ReceiveExtends | module/surface_sam_ssh.c:1017-1040 | a call queues each accepted frame whole with one completion, keeps the order RETRY* ACK response, and accepts only contiguous received bytes |
| FifoRoom.RoomIffFewRetries | module/surface_sam_ssh.c:1126-1138 | the largest response finds room exactly if at most 87 RETRY packets came before the ACK |
| FifoRoom.BudgetGivesRoom | module/surface_sam_ssh.c:1021-1030 | within that budget neither not-enough-space branch is reachable |
| FifoRoom.WindowHasRoom | module/surface_sam_ssh.c:1021-1138 | a window with at most 87 accepted RETRY frames has room for every frame of its stream |
| FifoRoom.ChunkIndependenceInWindow | module/surface_sam_ssh.c:599-612 | chunk independence from a restart on, without a hypothesis on the FIFO, within the budget |
| NoRoom.NoRoomCutsFrame | module/surface_sam_ssh.c:1132-1138 | without room, an awaited response is cut after ten bytes |
| NoRoom.ChunksMatterWithoutRoom | module/surface_sam_ssh.c:1132-1138 | without room, the notification behind the response is lost if its first byte comes in the same call, and noticed if it does not |
| NoRoom.ChunksMatterIff | module/surface_sam_ssh.c:1132-1138 | some way of delivering both loses the notification exactly if the response does not fill the evaluation buffer |
| NoRoom.DelayedRoomIff | module/surface_sam_ssh.c:1017-1138 | a response behind n RETRY frames and the ACK is awaited, and finds room exactly if 3 * (n + 1) + 3 bytes and its payload fit into 512 |
| NoRoom.ChunksMatterInWindow | module/surface_sam_ssh.c:599-612 | from every restart the receiver comes to where chunks matter, with delimitable frames that all find room until then |
| CrowdedRuns.RoomRunsOut | module/surface_sam_ssh.c:1132-1138 | every idle run of the engine can be continued with a call whose own response, even an empty one, finds no room |
| RoundTrip.CommandRoundTrip | module/surface_sam_ssh.c:503-544 | a serialized command passes every check and decodes to every field and the payload |
| RoundTrip.ControlRoundTrip | module/surface_sam_ssh.c:546-559 | a serialized control frame passes every check and decodes to its type and sequence id |
| RoundTrip.CommandLayout | module/surface_sam_ssh.c:503-544 | every byte of a serialized command, in numbers |
| RoundTrip.ControlLayout | module/surface_sam_ssh.c:546-559 | every byte of a serialized control frame, in numbers |
| RoundTrip.CommandRebuilds | module/surface_sam_ssh.c:1043-1101 | a checked command is the serialization of what it decodes to exactly if its padding is zero |
| RoundTrip.ControlRebuilds | module/surface_sam_ssh.c:973-1000 | the same for control frames |
| RoundTrip.CommandIsReceived | module/surface_sam_ssh.c:1103-1143 | a serialized command with an id of 1 to 31 reaches the event code, an awaited response that finds room in the 512 bytes the FIFO, field by field; any other has no effect |
| RoundTrip.NoticedIffEventId | module/surface_sam_ssh.c:278-281 | whatever follows and in every state, it adds exactly its event if its id is one of 1 to 31, and none if not |
| RoundTrip.AckIsReceived | module/surface_sam_ssh.c:1002-1040 | a serialized ACK is accepted exactly in control mode with room and the expected sequence id |
| RoundTrip.RetryIsReceived | module/surface_sam_ssh.c:1002-1040 | a serialized RETRY is accepted exactly in control mode with room, whatever its sequence id |
| SerialReceiver.SshReceiver.Restart | module/surface_sam_ssh.c:599-612 | opens a window in place |
| SerialReceiver.SshReceiver.DiscardAll | module/surface_sam_ssh.c:614-623 | closes it: discard mode, empty FIFO and evaluation buffer |
| SerialReceiver.SshReceiver.ReceiveMsgCtrl | module/surface_sam_ssh.c:973-1041 | the control handler does in place what the function says |
| SerialReceiver.SshReceiver.ReceiveMsgCmd | module/surface_sam_ssh.c:1043-1144 | the command handler does in place what the function says |
| SerialReceiver.SshReceiver.EvalBuf | module/surface_sam_ssh.c:1146-1177 | so does the dispatch |
| SerialReceiver.SshReceiver.Evaluate | module/surface_sam_ssh.c:1203-1210 | the loop consumes exactly what the recursive specification consumes |
| SerialReceiver.SshReceiver.ReceiveBuf | module/surface_sam_ssh.c:1179-1219 | copying in, evaluating and moving to the front in the array refine the specification on sequences |
| SerialWriter.RequestFrame | module/surface_sam_ssh.c:37-44 | a request takes 18 bytes and its payload, at most the size of the write buffer |
| SerialWriter.SshWriter.WriteCrc | module/surface_sam_ssh.c:471-475 | appends the checksum of what was written from a mark on |
| SerialWriter.SshWriter.WriteHdr | module/surface_sam_ssh.c:503-518 | appends the header and its checksum |
| SerialWriter.SshWriter.WriteCmd | module/surface_sam_ssh.c:520-544 | appends the command part, the payload and their checksum |
| SerialWriter.SshWriter.WriteAck | module/surface_sam_ssh.c:546-559 | appends the acknowledgement and its checksum |
| SerialWriter.SshWriter.WriteMsgCmd | module/surface_sam_ssh.c:582-589 | the buffer holds exactly the request's frame |
| SerialWriter.SshWriter.WriteMsgAck | module/surface_sam_ssh.c:591-597 | the buffer holds exactly the ACK frame |
| SerialWriter.BuildEventAck | module/surface_sam_ssh.c:816-834 | the hand-built ACK has the same bytes |
| RequestSteps.ArriveKeeps | module/surface_sam_ssh.c:1196-1201 | taking in any bytes keeps the request engine's invariant at every point of the requester |
| RequestSteps.EvaluateKeeps | module/surface_sam_ssh.c:1203-1210 | so does evaluating the next message, whatever it is |
| RequestSteps.NextIsRetryOrAck | module/surface_sam_ssh.c:651-659 | the packet announced by a completion, while the ACK is awaited, is a RETRY or the ACK with this request's sequence id |
| RequestSteps.NextIsResponse | module/surface_sam_ssh.c:674-677 | the packet behind the ACK is the response to this request, and the last one |
| RequestSteps.TakeAckAtPc | module/surface_sam_ssh.c:651-670 | so reading it leads to where only RETRY packets have been read, to the answered state, or to an explained end |
| RequestSteps.TakeHeaderAtPc | module/surface_sam_ssh.c:674-682 | reading the response's header leads to where its payload is next, or to the refusal of a payload too long |
| RequestSteps.TakePayloadAtPc | module/surface_sam_ssh.c:684-694 | the payload read is that of the response, and its ACK is written |
| RequestSteps.StepKeeps | module/surface_sam_ssh.c:625-704 | every step of the requester or the receiver keeps the invariant |
| RequestTheorems.CompletionAssuresPacket | module/surface_sam_ssh.c:651-686 | in every run, completions equal whole packets in the FIFO, and no FIFO read falls short |
| RequestTheorems.WindowsAreSeparate | module/surface_sam_ssh.c:599-623 | in every run, only frames received in this call's window can be read from the FIFO |
| RequestTheorems.RunHasRoom | module/surface_sam_ssh.c:1021-1138 | in every state of every run, within the budget of RETRY frames nothing is dropped for want of room |
| RequestTheorems.EndToEnd | module/surface_sam_ssh.c:625-704 | a successful call with a result returns exactly the payload of a checked frame with this call's id, received behind this call's ACK in this call's window, and acknowledged last |
| RequestTheorems.CallDiscipline | module/surface_sam_ssh.c:644-670 | at most three identical transmissions; counters advance by one exactly if the ACK was read; success implies it was; the buffer changes only with an acknowledged response |
| RequestTheorems.StatusTells | module/surface_sam_ssh.c:635-704 | why a call returned what it did: -22 for a request or a response too long, the error of the write that failed, -5 after three transmissions without the ACK or without the response in time, else 0 |
| RequestTheorems.CountersCount | module/surface_sam_ssh.c:669-670 | in every run the sequence id is the request counter modulo 256, despite both wrap-arounds |
| RequestTheorems.WireIds | module/surface_sam_ssh.c:274-281 | no request id looks like an event, and ids coincide exactly 2048 requests apart |
| RequestTheorems.AskedLayout | module/surface_sam_ssh.c:520-544 | the bytes of a request, in numbers: where its fields, its ids and its payload are |
| RequestTheorems.ZeroIdIff | module/surface_sam_ssh.c:274-276 | the id is 0x0000 exactly for every 2048th request, the first one included |
| RequestTheorems.IdsOnTheWire | module/surface_sam_ssh.c:520-544 | in every run, each transmission is a checked command frame carrying its call's id, 0x0000 exactly if the ACKs read before are a multiple of 2048 |
| RequestTheorems.FirstIdIsZero | module/surface_sam_ssh.c:643-649 | the first frame ever sent carries 0x0000 |
| RequestTheorems.CallsShareId | module/surface_sam_ssh.c:527-529 | two calls share a wire id exactly if the ACKs between them are a multiple of 2048; the next call reuses it exactly if the one before was not acknowledged |
| IntactCalls.IntactCallSucceeds | module/surface_sam_ssh.c:625-704 | let a call receive any delimitable frames of which its receiver accepts at most two RETRYs, the ACK and, if the call wants one, a response, in any chunks and interleaving, other traffic included; without a write error or a timeout of the response, and with an attempt to spare for each RETRY and timeout, it can only end acknowledged: with 0 and exactly the payload of the response, acknowledged last, if the buffer holds it; with -22 if not; with 0 and an unchanged buffer if none is wanted |
| IntactCalls.NoTimeout | module/surface_sam_ssh.c:651-674 | once these have been evaluated, no wait times out |
| IntactCalls.IntactCallEnds | module/surface_sam_ssh.c:644-704 | and at most 13 steps of the requester end the call |
| IntactCalls.IntactCallHappens | module/surface_sam_ssh.c:625-704 | from every idle run and for every such stream such an interleaving exists |
| IntactCalls.ReplyAnswers | module/surface_sam_ssh.c:1002-1143 | up to two RETRYs, the ACK, a notification and a response, serialized, are such a stream |
| Script.FedReceives | module/surface_sam_ssh.c:1179-1219 | the steps of the receive calls in a script come to what `ReceiveAll` says of their chunks |
| Script.WindowRun | module/surface_sam_ssh.c:644-704 | the script of a call is a run of the engine, and ends it |
| ScriptOutcomes.AnsweredOnTime | module/surface_sam_ssh.c:625-704 | from every idle run: if the environment delivers the ACK in time for any of the three attempts, and the rest of a stream in time for the wait for the response, in any chunks that the evaluation buffer holds, the scripted call succeeds as in `IntactCallSucceeds` |
| ScriptOutcomes.ReplyIsOnTime | module/surface_sam_ssh.c:625-704 | an environment that does this: unanswered transmissions, RETRYs, the ACK, then a notification and the response |
| ScriptOutcomes.ReplyBringsPayload | module/surface_sam_ssh.c:672-699 | with such a reply the call returns 0 and exactly its payload if the buffer holds it, and otherwise -22 and no byte |
| SerialHub.SamSshEc.Interrupt | module/surface_sam_ssh.c:1179-1219 | receive calls between two steps leave the receiver exactly as `ReceiveAll` says of the chunks, and change nothing of the requester's |
| SerialHub.SamSshEc.TryOnce | module/surface_sam_ssh.c:646-659 | one transmission and wait follows the script; its status is the answer to the write |
| SerialHub.SamSshEc.Ask | module/surface_sam_ssh.c:644-667 | so does the retry loop; a failed first write ends it |
| SerialHub.SamSshEc.FetchResponse | module/surface_sam_ssh.c:672-699 | so does the reading of the response into the caller's array |
| SerialHub.SamSshEc.RqstUnlocked | module/surface_sam_ssh.c:625-704 | the whole call takes exactly the steps of its script, and adds one record, with its status and buffer, to which the theorems on finished calls apply; it succeeds with every stream that its environment delivers on time, and returns the error of the first write if that fails |
| Controller.FramesAreGated | module/surface_sam_ssh.c:227-250 | every frame sent in any call of a gated log is the command of a request allowed in the state of that call, or the ACK of its response: nothing while uninitialized, no command but suspend while suspended |
| Controller.ControlCommandsOnWire | module/surface_sam_ssh.c:283-391 | the bytes on the line for enabling and disabling an event source, suspend and resume |
| Controller.SamController.Issue | module/surface_sam_ssh.c:227-250 | the one way to the request engine: exactly one call, in the present state, which must allow it; `Valid()` keeps the whole log gated |
| Controller.SamController.Rqst | module/surface_sam_ssh.c:706-728 | refused calls leave the engine exactly as it was; others make one call of it and return its outcome, success on a timely answer included |
| Controller.SamController.SetEventSource | module/surface_sam_ssh.c:283-391 | enabling and disabling an event source: -22 exactly for ids other than 1 to 31, and exactly the one command, field by field |
| Controller.SamController.Suspend | module/surface_sam_ssh.c:1322-1341 | sends the suspend command and nothing else, and counts as suspended whatever the answer |
| Controller.SamController.Resume | module/surface_sam_ssh.c:1343-1363 | sends the resume command as initialized and nothing else |
| Controller.SamController.Probe | module/surface_sam_ssh.c:1377-1505 | initialized exactly on success; sends the resume command exactly if the device could be opened; a failure restores the state |
| Controller.SamController.Remove | module/surface_sam_ssh.c:1507-1579 | sends the suspend command and nothing else, and ends uninitialized |
| Controller.SamController.Perform | module/surface_sam_ssh.c:227-391 | which exported call goes to the engine, in which state, with what request, and what state it leaves |
| Controller.SamController.Listen | module/surface_sam_ssh.c:1179-1219 | bytes that arrive between two calls change the receiver as `ReceiveAll` says, and nothing else; none while the device is closed |
| Controller.SamController.Operate | module/surface_sam_ssh.c:706-728 | any run of exported calls, bytes arriving between them: the path of states it takes, and exactly the records its calls leave, each with the state of the path there |
| Controller.RunIsGated | module/surface_sam_ssh.c:227-250 | in any such run, each record was left by a call that goes to the engine in the state the path has there, and this state allows its request |
| Controller.AsleepIsQuiet | module/surface_sam_ssh.c:706-728 | from a suspend or a removal on, whatever is called, nothing but the suspend command is sent until a resume or a probe |
| EventWork.EventObjectLifetime | module/surface_sam_ssh.c:844-971 | in every interleaving each work object is freed exactly once, never touched afterwards, acknowledged and handled at most once, and its id indexes the handler table |
| EventOutcomes.AcknowledgedIffReady | module/surface_sam_ssh.c:844-871 | in every run, an event is acknowledged, with its own sequence id, exactly if the controller was last said to be initialized when its worker looked |
| EventOutcomes.HandledIffRegistered | module/surface_sam_ssh.c:873-917 | in every run and on both paths, it is given to a handler exactly if one was registered when it was looked up, and to that one |
| EventOutcomes.PathIffDelay | module/surface_sam_ssh.c:953-970 | it is handled inside the receive call exactly if the registered delay callback answers immediate, after a timer exactly if it asks for a delay, and on the queue at once otherwise |
| EventOutcomes.NothingElseOnRecord | module/surface_sam_ssh.c:844-917 | what was not acknowledged has no acknowledgement on record, and what was not handled no call |
| EventOutcomes.EventCompletes | module/surface_sam_ssh.c:844-971 | from every state, at most nine steps of its two workers finish an event |
| EventWork.HandlerQuiescence | module/surface_sam_ssh.c:425-456 | after a complete removal no queued execution of the handler runs or starts, and no delay callback is called, in any further run without registration |
| HandlerRemoval.RemovalLeavesUseIff | module/surface_sam_ssh.c:425-456 | after a complete removal a handler is called in some further run without registration exactly if a receive call had looked it up and not called it yet |
| HandlerRemoval.OutlivesIffImmediate | module/surface_sam_ssh.c:956-970 | a handler can be called after its removal exactly if it has a delay callback that may answer immediate |
| HandlerRemoval.RemovalWithoutImmediate | module/surface_sam_ssh.c:425-456 | if none such is registered, a complete removal leaves no execution on any path, and none starts |
| HandlerRemoval.InlineOutlivesRemoval | module/surface_sam_ssh.c:964-966 | the run in which the receive call calls the handler after its removal, for every event id and every such handler |
| DtxHistory.RingHistory | module/surface_sam_dtx.c:359-378 | over any run, a client can read the last at most 15 undequeued events, in order, without duplicates, and loses an event exactly if 15 newer ones came before it was dequeued |
| DtxHistory.DrainedIsRun | module/surface_sam_dtx.c:237-257 | a read between whose looks any events are pushed, or whose copying fails, is a run of pushes and single reads |
| DtxHistory.DrainedUndisturbed | module/surface_sam_dtx.c:237-257 | without that, it dequeues at once as many as fit |
| DtxHistory.ReadTakes | module/surface_sam_dtx.c:203-260 | a read dequeues events in the order of the pushes, none twice, at least one and at most as many as fit, and fewer only if there are no more |
| DtxHistory.ReadAnswers | module/surface_sam_dtx.c:203-260 | exactly what a read answers, with which error for which cause; with an unread event and room for one it takes at least one, whether it may wait or not |
| DtxHistory.ShownIff | module/surface_sam_dtx.c:251-256 | the reader can rely on finding all the events a read has dequeued exactly if that is at most one |
| DtxEvents.Client.PushEvent | module/surface_sam_dtx.c:365-375 | the ring in its array follows the history |
| DtxEvents.Client.Read | module/surface_sam_dtx.c:203-260 | the array does what `Outcome` says of the history, which `ReadAnswers` and `ReadTakes` describe; the reader's buffer holds the last of the events at its front and is otherwise unchanged |
| DtxEvents.Client.Look | module/surface_sam_dtx.c:238-248 | one look under the lock takes the oldest event of the ring, after whatever was pushed before |
| DtxEvents.Client.Drain | module/surface_sam_dtx.c:237-257 | the loop follows the history through all pushes and copying errors in between, and copies each event to the front of the reader's buffer |
| DtxEvents.Device.PushEvent | module/surface_sam_dtx.c:359-382 | an event reaches every open client exactly once |
| DtxEvents.Device.Open | module/surface_sam_dtx.c:160-185 | a new client starts empty and disturbs no other |
| DtxEvents.Device.Release | module/surface_sam_dtx.c:187-201 | a released client is no longer among those that get events; the others stay |
| San.SanRqst | module/surface_sam_san.c:334-411 | invalid packages are left alone; for the others, each transmission of each attempt carries the package's target, instance, command and payload from their places, and asks for a response exactly if the package does; they are answered with length payload + 2 within a byte: the quirk, the payload of the response, or an error; the log grows by the attempts and by the calls others make between them, and nothing else; the attempts hold at most 15 transmissions |
| San.AttemptOnTheWire | module/surface_sam_san.c:345-356 | the bytes of these transmissions, taken from the bytes of the package |
| San.TryAll | module/surface_sam_san.c:362-369 | retries exactly after an I/O error, at most five attempts, and everything logged meanwhile is one of them or a call of others |
| San.VolumeBound | module/surface_sam_san.c:362-369 | the records logged since the request came in that are attempts hold at most 5 * 3 transmissions in all |
| San.AttemptIds | module/surface_sam_san.c:362-369 | two attempts carry the same id exactly if the ACKs between them are a multiple of 2048; a retry that follows at once reuses the id exactly if the attempt before was not acknowledged |
| San.RetryReusesIdIff | module/surface_sam_san.c:362-369 | with fewer than 2047 calls of others between them, a retry reuses the id exactly if neither the attempt before nor any of these was acknowledged |
| San.RecordFacts | module/surface_sam_san.c:367-398 | what a finished request of the engine gives the translator |
| San.GsbBuffer.Answer | module/surface_sam_san.c:387-405 | overwrites the package in place and leaves the bytes behind the payload |
| Consumers.ConsumerLinks.MakeLinks | module/surface_sam_san.c:515-583 | on failure no stateless link is left; on success one link for each consumer present; the status is that of the first error |
| Consumers.ConsumerLinks.Unlink | module/surface_sam_san.c:585-602 | deletes each stateless link once, and only links that exist |
| Consumers.LinkThenUnlink | module/surface_sam_san.c:515-602 | linking and unlinking restores the table of links for every table and every pattern of failures |
| Consumers.Rollback | module/surface_sam_san.c:575-580 | the cleanup deletes exactly the stateless links made |
| Consumers.SucceedsIffNoError | module/surface_sam_san.c:544-566 | linking succeeds exactly if no consumer causes an error |
| Consumers.LinkStatus | module/surface_sam_san.c:544-566 | over the answers for each consumer and whether it is required: when linking succeeds, and otherwise which consumer gives which error |
| Consumers.PresentIsFound | module/surface_sam_san.c:544-553 | on success the consumers linked are those whose path was found |

## Left out

- Kernel services: serial device, DMA check, ACPI resources and `_DSM` calls, allocation failures, memory barriers, input, misc and HID registration. Their answers are parameters where a branch depends on them.
- Timing: timeouts and delays are choices of the environment.
- What the code does after it has read past the evaluation buffer (see Hypotheses).
- The reset of buffers and handler table in probe and remove, beyond the controller state; `surface_sam_ssh_consumer_register`.
- A partially accepted write of the serial device counts as the status it returns.
- DtxEvents.Client.Read: a second reader of the same file, which may empty the ring between the check and the loop.
- Damage.DamagedFrameIsSkipped: what a frame whose end is lost does to the frames around it; in any chunks it may cost those that follow.
- SerialHub.SamSshEc.Interrupt: a receive call that overlaps a step of the requester; `Protocol` has these runs. The part of a chunk that the evaluation buffer does not take is not offered again here; it is in `ChunkIndependence`.
- ScriptOutcomes.AnsweredOnTime: streams whose frames behind the ACK come neither with it nor before the wait for the response; `IntactCallSucceeds` covers any times.
- NoRoom.ChunksMatterIff: leaves out responses that carry the sync bytes in the fields behind their tenth byte, which may then be taken for a frame of any kind.
- EventWork: handlers and delay callbacks are opaque; what they do is not modelled.
- The checks of the exported handler calls on id and controller state, beyond the id check, in EventWork.
- The data part of an ACPI package is taken to be 255 bytes long, which its one-byte length field suggests; the other package kinds (ETWL, RQSG) change nothing of interest.
- Freeing of the links array on the failure path of `san_consumers_link`, which the code omits.
- module/surface_sam_vhf.c, module/surface_sam_sid.c, module/surface_sam_base.c, module/surface_sam_ssh_sysfs.c, and the power and thermal handlers of module/surface_sam_san.c: tables and thin wrappers.
- The latch and detachment state machine described in doc/surface-dtx.txt: it is firmware, not code of this repository.
