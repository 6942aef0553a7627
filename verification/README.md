# Nightshift on Orange Pi: a verified model

Nightshift keeps one authoritative system state on an Orange Pi, shows it on a T5 panel over a serial
link, takes commands over MQTT and derives its mode from a pressure sensor. This project models four
parts of it in Dafny 4.11 and proves what they promise:

1. **The wire.** The checksum, byte stuffing, frames and payloads of T5-Link v1, and the read loop that
   recovers frames from chunks of bytes (`Crc`, `Cobs`, `Wire`, `Protocol`, `Deframer`); and which
   flipped bits and zero bytes the checksum notices (`CrcPeriod`, `CrcStart`, `FewFlips`).
2. **At-most-once handling.** The UART session with its bounded cache and the MQTT handler with its
   expiring one, over runs of any length; and the pending table that matches responses to requests
   (`Session`, `Gateway`, `GatewayHistory`, `MqttCommands`, `SendMatching`).
3. **The authoritative state.** The dwell timer, the pressure adapter, and the composition of both with
   the orchestrator and the gateway's panel tracking; and the full panel sync (`StateMachine`,
   `PressureAdapter`, `Orchestrator`, `History`, `FullSync`).
4. **The task ledger.** Tasks, notices and recorded decisions (`Tasks`, `TaskHistory`).

Code that changes state step by step is a class or a loop whose contract ties the new state to a
function of the old one; the theorems are about those functions and about whole runs built from them.
The `History` modules tell what a run led to from what happened in it alone: the messages, frames, answers
and acts, field by field and number by number, without naming the functions that compute a step.
A stretch of code between two awaits is one step, and a run is any interleaving of such steps. Clocks,
digests, handler answers and whether a send returns are parameters, and so are the dwell, the staleness
limit and the cache size (3000 ms, 10000 ms and 256 by default). `dafny verify dfyconfig.toml` checks
the whole project.

Four properties one could expect do not hold as they stand. The code is modelled as it is, and the
exact condition under which each holds is proved:

- nightshift/domain/state_machine.py:8 gives NIGHT_EXEC to a release of 3 s. A release of `dwell_ms + D` milliseconds, with
  evaluations at most `D` apart, is not always noticed for `D >= 3`: it always is exactly from
  `dwell_ms + 2 * D - 2` milliseconds on, and without a dwell from `D - 1` on
  (`StateMachine.NoticedExactly`).
- The orchestrator's heartbeat handler (nightshift/services/orchestrator.py:412-419), which keeps the revision, keeps the
  content too exactly when PANEL_OFFLINE is clear (`Orchestrator.HeartbeatKeepsContent`); the gateway's
  events make that so in every run (`Orchestrator.SameRevisionSameContent`).
- nightshift/domain/pressure.py:49-50 says a valid sample belongs to the current boot. It need not after an availability
  message of a new boot (`PressureAdapter.FormerBootStaysValid`); the held sample was taken in the
  current boot exactly while the last sequence number is not negative
  (`PressureAdapter.CurrentBootExactly`).
- A send has its own entry in the pending table (nightshift/hardware/uart/gateway.py:165-184) as long as no send takes a number
  still in use, and only so long: a number is in use when a whole multiple of 65535 allocations
  separates it from that of an open send (`SendMatching.MatchedExactly`).

## Model

| member | source | states |
|---|---|---|
| Crc.ComputeCrc16 | nightshift/hardware/uart/codec.py:6-17 | the nested loop computes the checksum the laws below are about |
| Crc.VectorIsByte | nightshift/hardware/uart/codec.py:10 | the bit vector fed to the register has the byte's value |
| Crc.ByteLoopIsSerial | nightshift/hardware/uart/codec.py:8-17 | the byte loop equals a register fed bit by bit, most significant bit first |
| Crc.SerialLinear | nightshift/hardware/uart/codec.py:8-17 | the register is linear over GF(2) in its start value and its input together |
| Crc.BurstDetected | nightshift/hardware/uart/codec.py:6-17 | equal-length data that differ, but only within sixteen consecutive bits, have different checksums |
| CrcStart.StartInverts | nightshift/hardware/uart/codec.py:8-17 | the checksum of two bytes or more is the plain remainder of their bits with the first sixteen inverted |
| CrcStart.ShortData | nightshift/hardware/uart/codec.py:8-17 | the checksum of no bytes is 0xFFFF, and that of one byte is fixed by the padded byte's |
| CrcStart.LeadingZerosExactly | nightshift/hardware/uart/codec.py:8-17 | zero bytes in front of any data change the checksum unless there are a multiple of 32767 of them |
| Cobs.CobsEncode | nightshift/hardware/uart/codec.py:20-40 | the loop yields the encoding the laws below are about, for all data |
| Cobs.CobsDecode | nightshift/hardware/uart/codec.py:43-65 | the loop yields the decoding or the error it raises, for all inputs |
| Cobs.RoundTrip | nightshift/hardware/uart/codec.py:20-65 | decoding inverts encoding for all data, and an encoding has no zero byte |
| Cobs.NearCanonical | nightshift/hardware/uart/codec.py:20-65 | encoding inverts decoding on accepted zero-free frames, up to one final 01 added exactly when the last block is full |
| Cobs.EncodeShortBlock | nightshift/hardware/uart/codec.py:28-39 | fewer than 254 nonzero bytes, with the zero after them, become one code byte and themselves |
| Cobs.EncodeFullBlock | nightshift/hardware/uart/codec.py:33-37 | 254 nonzero bytes in front become a full block that implies no zero |
| Cobs.AcceptsExactly | nightshift/hardware/uart/codec.py:43-65 | the decoder accepts exactly the frames made of blocks as long as their code bytes say, and yields those blocks joined by zeros |
| Cobs.RefusesExactly | nightshift/hardware/uart/codec.py:44-58 | why any other frame is refused |
| Cobs.EncodeLength | nightshift/hardware/uart/codec.py:20-40 | at most one byte of overhead plus one per 254, and exactly that on zero-free data |
| Wire.UnstuffStuff | nightshift/hardware/uart/codec.py:68-90 | unstuffing inverts stuffing for every raw frame |
| Wire.UnstuffAccepts | nightshift/hardware/uart/codec.py:75-90 | an image is accepted as a raw frame if and only if it is terminated and decodes to that frame and its own checksum |
| Wire.UnstuffRefuses | nightshift/hardware/uart/codec.py:75-90 | which of the four errors any other image raises |
| Wire.LowByteFirst | nightshift/hardware/uart/codec.py:70-71 | the low byte of the checksum goes out first |
| Wire.AcceptedImage | nightshift/hardware/uart/codec.py:75-90 | a zero-free image that is accepted is the sender's own, give or take an empty last block |
| Wire.StuffShape | nightshift/hardware/uart/codec.py:68-72 | an image has one zero, its last byte, and a bounded length |
| Wire.BurstRejected | nightshift/hardware/uart/codec.py:84-89 | a raw frame changed within sixteen consecutive bits is refused as a checksum mismatch |
| Wire.CrcParity | nightshift/hardware/uart/codec.py:8-17 | the checksum has the bit parity of the data |
| Wire.BodyIsEven | nightshift/hardware/uart/codec.py:70-71 | data followed by its checksum bytes has even parity |
| Wire.OddFlipsRejected | nightshift/hardware/uart/codec.py:80-89 | any odd number of flipped bits in data or checksum is refused as a checksum mismatch |
| CrcPeriod.PeriodExactly | nightshift/hardware/uart/codec.py:12-16 | stepping the register multiplies by a power of x that is one exactly at the multiples of 32767 |
| CrcPeriod.TwoBitsCancel | nightshift/hardware/uart/codec.py:8-17 | two set bits leave an idle register idle exactly when they lie whole periods apart |
| FewFlips.FewFlipsExactly | nightshift/hardware/uart/codec.py:68-90 | every change of one to three bits in data or checksum is refused as a mismatch if and only if the raw frame has at most 4093 bytes |
| FewFlips.ChangedFrameDropped | nightshift/hardware/uart/gateway.py:212-217 | any frame that can be sent is dropped by the read loop when one to three bits of its body change |
| Protocol.ParseAccepts | nightshift/hardware/uart/protocol.py:48-66 | parsing yields a frame if and only if it is a version-1 frame whose header and payload begin the bytes |
| Protocol.FrameLayout | nightshift/hardware/uart/protocol.py:33-46 | which frames can be sent, and every header byte of one |
| Protocol.DeliversExactly | nightshift/hardware/uart/gateway.py:212-217 | the read loop dispatches a frame for an image if and only if it is terminated and decodes to bytes with their own checksum that begin with that version-1 frame |
| Protocol.FrameRoundTrip | nightshift/hardware/uart/protocol.py:33-66 | a packable frame survives stuffing, unstuffing and parsing exactly when its version is 1 |
| Protocol.FrameImage | nightshift/hardware/uart/protocol.py:33-46 | the image of a frame has one zero, its last byte, and at most 1042 bytes |
| Protocol.StringRoundTrip | nightshift/hardware/uart/protocol.py:498-507 | a length-prefixed string is read back whatever follows it |
| Protocol.ShortPayloads | nightshift/hardware/uart/protocol.py:412-507 | which payloads are too short to parse, and what a string cut short reads as |
| Protocol.HelloLayout | nightshift/hardware/uart/protocol.py:147-164 | every byte of a hello's fixed fields |
| Protocol.UiActionLayout | nightshift/hardware/uart/protocol.py:260-273 | every byte of a UI action's fixed fields, the value in two's complement |
| Protocol.PageEventLayout | nightshift/hardware/uart/protocol.py:398-404 | every byte of a page event |
| Protocol.HeartbeatLayout | nightshift/hardware/uart/protocol.py:171-183 | every byte of a heartbeat response |
| Protocol.HelloRoundTrip | nightshift/hardware/uart/protocol.py:147-164 | hello encodes exactly when its fields fit, and is then read back |
| Protocol.HelloFieldsRead | nightshift/hardware/uart/protocol.py:412-427 | reading a hello loses none of its fixed bytes |
| Protocol.UiActionRoundTrip | nightshift/hardware/uart/protocol.py:260-273 | a UI action encodes exactly when its fields fit, and is then read back, sign included |
| Protocol.UiActionFieldsRead | nightshift/hardware/uart/protocol.py:478-483 | reading a UI action loses none of its fixed bytes |
| Protocol.PageEventRoundTrip | nightshift/hardware/uart/protocol.py:398-404 | a page event is read back modulo the encoder's masks, for all integers |
| Protocol.PageEventRead | nightshift/hardware/uart/protocol.py:486-490 | reading a page event loses none of its six bytes |
| Protocol.HeartbeatRoundTrip | nightshift/hardware/uart/protocol.py:171-183 | a heartbeat response is read back modulo the encoder's masks, for all integers |
| Protocol.HeartbeatRead | nightshift/hardware/uart/protocol.py:430-441 | reading a heartbeat response loses none of its fourteen bytes |
| Protocol.UiActionDelivered | nightshift/hardware/uart/protocol.py:260-273 | a UI action whose text leaves room in a frame reaches the parser unchanged |
| Protocol.HelloDelivered | nightshift/hardware/uart/protocol.py:147-164 | a hello whose version text leaves room in a frame reaches the parser unchanged |
| Deframer.DrainBuffer | nightshift/hardware/uart/gateway.py:208-217 | the inner loop dispatches exactly the frames of the buffer cut at zeros, in order, and keeps the rest |
| Deframer.ReadLoop | nightshift/hardware/uart/gateway.py:198-217 | what is dispatched and kept depends on the bytes alone, not on how they were chunked; what is kept has no zero |
| Deframer.CutsStream | nightshift/hardware/uart/gateway.py:208-211 | the images and the rest make up the stream; each image has one zero, its last byte |
| Deframer.CutIsUnique | nightshift/hardware/uart/gateway.py:208-211 | there is no other way to cut a stream so |
| Deframer.Resynchronises | nightshift/hardware/uart/gateway.py:208-217 | after any bytes ending in a zero, every frame sent is dispatched once, in order and unchanged |
| Deframer.AtMostOneLost | nightshift/hardware/uart/gateway.py:208-217 | after any bytes at all, only the first frame sent can be lost |
| Session.UartSession.constructor | nightshift/hardware/uart/session.py:32-35 | a session starts with no boot, an empty cache and nothing in flight |
| Session.UartSession.ResetTo | nightshift/hardware/uart/session.py:37-40 | a reset takes the new boot and forgets everything else |
| Session.UartSession.CheckAction | nightshift/hardware/uart/session.py:45-69 | refines Check: disposition and new in-flight set for all inputs, cache and boot untouched |
| Session.UartSession.RecordResult | nightshift/hardware/uart/session.py:71-80 | refines Record: the oldest item makes room, the key leaves the in-flight set |
| Session.UartSession.CancelInFlight | nightshift/hardware/uart/session.py:82-83 | refines Cancel |
| Session.CancelUndoesCheck | nightshift/hardware/uart/session.py:45-83 | EXECUTE is answered exactly for a key of the session neither cached nor in flight, only it changes anything, and cancelling takes it back |
| Session.PutThenGet | nightshift/hardware/uart/session.py:54-80 | storing under a key answers for that key and leaves every other answer alone |
| Gateway.UartGateway.OnUiAction | nightshift/hardware/uart/gateway.py:292-361 | refines HandleUiAction: report, acknowledgement and session for every frame, also when the handler raises |
| Gateway.UartGateway.OnFrame | nightshift/hardware/uart/gateway.py:229-290 | refines Dispatch: report, acknowledgement and session for every frame |
| Gateway.EveryRequestAnswered | nightshift/hardware/uart/gateway.py:229-378 | at any place of any run who is acknowledged, and with which status number and data; an acknowledgement that fits a frame reaches the panel's parser as the response to its request |
| GatewayHistory.BootIsLatest | nightshift/hardware/uart/gateway.py:236-248 | the session's boot is the one named by the latest well-formed hello |
| GatewayHistory.SessionsOnFrames | nightshift/hardware/uart/gateway.py:245-248 | a session starts exactly at a hello of another boot than the latest, and is of the boot at payload bytes 3 to 6 |
| GatewayHistory.RecordsKept | nightshift/hardware/uart/gateway.py:245-358 | any other arrival, a repeated hello too, keeps every result of the session and adds at most one |
| GatewayHistory.CacheHoldsLast | nightshift/hardware/uart/session.py:71-80 | at any moment the cache holds the last of those results |
| GatewayHistory.EveryReport | nightshift/hardware/uart/gateway.py:229-361 | what is done with every frame of every run, refusals by number, from the frame, the latest hello, the handler's answer and what was done before |
| GatewayHistory.HellosKeepReplay | nightshift/hardware/uart/gateway.py:245-325 | as long as no hello of another boot comes, an executed UI action is replayed until a cacheful of other results came after |
| Gateway.CacheIsWindow | nightshift/hardware/uart/session.py:54-80 | after any run the cache is the last results of the session, in order, under distinct keys, and apart from it the keys in flight are exactly those the handler raised on |
| Gateway.SessionOfBoot | nightshift/hardware/uart/session.py:37-40 | after any run every key cached or in flight is of the session's boot |
| Gateway.AtMostOncePerWindow | nightshift/hardware/uart/gateway.py:315-358 | the handler runs twice for one key in one session only if its first run returned, and then with at least a cacheful of other results in between |
| Gateway.RunsExactly | nightshift/hardware/uart/gateway.py:315-358 | after any run a UI action runs the handler if and only if its key is neither among the last results the cache holds nor one the handler raised on |
| Gateway.WindowDecides | nightshift/hardware/uart/gateway.py:315-358 | an executed key is replayed or refused as a conflict while fewer results than the cache holds came after, and runs the handler again exactly from then on |
| Gateway.RaisedStaysBusy | nightshift/hardware/uart/gateway.py:332-349 | a key the handler raised on is answered BUSY for the rest of the session |
| Gateway.DuplicateReplays | nightshift/hardware/uart/gateway.py:322-335 | a duplicate right after the handler ran changes nothing and gets the same acknowledgement, or BUSY if the handler raised |
| Gateway.RetransmissionsExecuteOnce | nightshift/hardware/uart/gateway.py:197-361 | the bytes of a UI action sent several times run its handler once, and all copies get the first acknowledgement, or BUSY if the handler raised |
| SendMatching.SequencesRepeat | nightshift/hardware/uart/gateway.py:151-153 | sequence numbers stay in 1..65535 and repeat exactly every 65535 allocations |
| SendMatching.UartLink.SendCommand | nightshift/hardware/uart/gateway.py:155-188 | the retry loop returns the first answer that only timeouts precede, and leaves no entry of its own on any exit |
| SendMatching.EndsExactly | nightshift/hardware/uart/gateway.py:176-184 | a send is over exactly when it has its answer, fails, or times out on its last attempt |
| SendMatching.AttemptsCounted | nightshift/hardware/uart/gateway.py:170-182 | in every run an open send is on the attempt after those that timed out |
| SendMatching.GivesUpExactly | nightshift/hardware/uart/gateway.py:170-188 | in every run a timeout ends a send if and only if it is the one after its last retry |
| SendMatching.BeginMatchedExactly | nightshift/hardware/uart/gateway.py:165-173 | a new send keeps open sends and pending entries in one-to-one correspondence if and only if no open send is a whole multiple of 65535 allocations older |
| SendMatching.FreeIsUnused | nightshift/hardware/uart/gateway.py:172-173 | which is exactly when the pending table has no entry under the new number |
| SendMatching.MatchedExactly | nightshift/hardware/uart/gateway.py:165-184 | in every run the correspondence holds up to any step if and only if no send so far took a number in use |
| SendMatching.AlwaysMatched | nightshift/hardware/uart/gateway.py:165-184 | it holds in every run where no send outlives 65534 further allocations |
| SendMatching.OwnSlots | nightshift/hardware/uart/gateway.py:151-173 | while it holds no two open sends share a number |
| SendMatching.ResponseMatches | nightshift/hardware/uart/gateway.py:230-234 | a response answers the open send with its number if it still waits, and no other |
| SendMatching.ExitCleansUp | nightshift/hardware/uart/gateway.py:176-188 | however a send ends its entry is gone and every other send keeps its own |
| SendMatching.SharedSlotReached | nightshift/hardware/uart/gateway.py:151-173 | a new gateway can get to two open sends on one number |
| SendMatching.SharedNumberMisdirects | nightshift/hardware/uart/gateway.py:183-184 | from then on a response reaches the later send only, and the end of the earlier one takes the later one's entry |
| MqttCommands.MqttCommandHandler.EvictCache | nightshift/integrations/mqtt/command_handler.py:255-260 | exactly the entries whose time has passed are dropped |
| MqttCommands.MqttCommandHandler.HandleMessage | nightshift/integrations/mqtt/command_handler.py:55-122 | refines Handle: outcome, reply and cache for every message, including a dispatch that raises |
| MqttCommands.AllRemembered | nightshift/integrations/mqtt/command_handler.py:98-120 | at every moment of a run a completed command is cached with its reply, or its entry's time has passed |
| MqttCommands.CompletedDecides | nightshift/integrations/mqtt/command_handler.py:78-96 | while a completed command's entry counts, a live command under its request id gets the stored reply if its digest is the same and "state_conflict" if not, and changes nothing |
| MqttCommands.RedeliveryAnswered | nightshift/integrations/mqtt/command_handler.py:70-96 | a redelivered completed command gets its stored reply while it lives and "expired" afterwards |
| MqttCommands.DispatchedExactly | nightshift/integrations/mqtt/command_handler.py:70-98 | after any run a command is dispatched if and only if it lives and no completed command's entry counts for its request id |
| MqttCommands.LaterDeliveryDecided | nightshift/integrations/mqtt/command_handler.py:70-120 | in a run of any length despite eviction, a later delivery under a completed request id is expired, repeated or refused, never executed, while the entry counts |
| MqttCommands.CompletesAtMostOnce | nightshift/integrations/mqtt/command_handler.py:70-120 | one envelope completes at most once in a run of any length despite eviction |
| MqttCommands.CacheExactly | nightshift/integrations/mqtt/command_handler.py:98-120 | once a delivery was dispatched the cache has entries exactly for the request ids that a completed command still counts for |
| MqttCommands.EveryOutcomeTells | nightshift/integrations/mqtt/command_handler.py:70-122 | in every run what each delivery's sender is told, field by field: the effect's own ok, code, message and data once completed, a refusal's otherwise, or the reply an earlier completion got |
| StateMachine.StateMachineV2.EvaluateNow | nightshift/domain/state_machine.py:46-90 | refines Evaluate: decision and timer for every call |
| StateMachine.StateMachineV2.Reset | nightshift/domain/state_machine.py:92-93 | clears the timer |
| StateMachine.SinceIsRunStart | nightshift/domain/state_machine.py:75-77 | the timer holds the time of the first call of the current valid all-released run |
| StateMachine.NightExactly | nightshift/domain/state_machine.py:46-90 | when a call decides NIGHT_EXEC, DAY_WORK or a sensor error, each as an if-and-only-if on the sample's age and inputs over the trace, and the reason given |
| StateMachine.NoticedExactly | nightshift/domain/state_machine.py:75-85 | with calls at most D apart, releases of a length are always noticed before they end if and only if the length is at least dwell + 2D - 2 ms, or D - 1 ms without a dwell; dwell + D is enough only for D up to 2 |
| PressureAdapter.PressureMqttAdapter.HandleAvailability | nightshift/integrations/mqtt/pressure_adapter.py:161-190 | refines Receive on availability messages |
| PressureAdapter.PressureMqttAdapter.HandleState | nightshift/integrations/mqtt/pressure_adapter.py:192-230 | refines Receive on decoded samples of the configured device |
| PressureAdapter.AlwaysHeldMatches | nightshift/integrations/mqtt/pressure_adapter.py:209-227 | in every reachable state a non-negative last sequence number and boot are the held sample's |
| PressureAdapter.HeldExactly | nightshift/integrations/mqtt/pressure_adapter.py:168-227 | after any messages the adapter holds what the last availability message said, the last sample newer than all its boot's before it, when that came, and when any of it last changed |
| PressureAdapter.NextUpdates | nightshift/integrations/mqtt/pressure_adapter.py:168-230 | on_updated is called exactly for availability messages and new samples |
| PressureAdapter.FormerBootStaysValid | nightshift/integrations/mqtt/pressure_adapter.py:177-187 | after an availability message of a new boot the old boot's sample is held and valid |
| PressureAdapter.CurrentBootExactly | nightshift/integrations/mqtt/pressure_adapter.py:176-227 | in every run the held sample was taken in the adapter's current boot if and only if the last sequence number is not negative |
| PressureAdapter.GreatestIsHeld | nightshift/integrations/mqtt/pressure_adapter.py:209-227 | after one boot's messages the held reading is the received one with the greatest sequence number |
| PressureAdapter.OrderAndDuplicatesIrrelevant | nightshift/integrations/mqtt/pressure_adapter.py:209-227 | what is held does not depend on order or duplicates of one boot's samples |
| PressureAdapter.OnlineIsLastAvailability | nightshift/integrations/mqtt/pressure_adapter.py:168-187 | the online flag is the last availability message's, and a held sample is never dropped |
| Orchestrator.PanelWatch.HelloAccepted | nightshift/hardware/uart/gateway.py:261-264 | a hello announces the panel once |
| Orchestrator.PanelWatch.HeartbeatAnswered | nightshift/hardware/uart/gateway.py:390-421 | an accepted heartbeat announces the panel first if it was gone; a refused one changes nothing |
| Orchestrator.PanelWatch.HeartbeatTimedOut | nightshift/hardware/uart/gateway.py:422-426 | a timeout announces the loss once |
| Orchestrator.NightshiftOrchestrator.EvaluateAndApply | nightshift/services/orchestrator.py:209-233 | refines ApplyDecision, and reports a change exactly when the content changed |
| Orchestrator.NightshiftOrchestrator.OnHeartbeatReceived | nightshift/services/orchestrator.py:404-426 | refines ApplyHeartbeat; a full sync is due exactly when the panel was not online |
| Orchestrator.NightshiftOrchestrator.OnConnectivityChanged | nightshift/services/orchestrator.py:436-450 | refines ApplyConnectivity; publishes exactly when attention changed |
| Orchestrator.NightshiftOrchestrator.OnEvent | nightshift/services/orchestrator.py:403-450 | refines ApplyEvent |
| Orchestrator.NightshiftOrchestrator.UpdateConfirmationCount | nightshift/services/orchestrator.py:523-533 | refines ApplyPendingCount |
| Orchestrator.AlwaysMeaningful | nightshift/services/orchestrator.py:99-110 | in every reachable state NEED_CONFIRM means a positive count, SENSOR_ERROR implies IDLE, PANEL_OFFLINE implies no panel, and gateway and orchestrator agree on the panel |
| Orchestrator.LatestDecisionShown | nightshift/services/orchestrator.py:209-233 | in every run mode and SENSOR_ERROR are those of the latest evaluation, until the next one |
| History.EvaluationTells | nightshift/services/orchestrator.py:195-233 | in every run an evaluation shows SENSOR_ERROR if and only if the device did not last say online, sent no new sample or sent its last one too long ago, and DAY_WORK if and only if a current sample has an input set |
| History.NightExecExactly | nightshift/services/orchestrator.py:195-233 | in every run an evaluation shows NIGHT_EXEC if and only if evaluations that span the dwell all found a current released sample, and then no press was heard between them |
| History.DueExactly | nightshift/integrations/mqtt/pressure_adapter.py:189-230 | the adapter waits exactly from a message that changed what it holds until its evaluation ran |
| History.UpdatesEvaluated | nightshift/integrations/mqtt/pressure_adapter.py:189-230 | between such a message and the next one taken its evaluation runs |
| History.LastStepTells | nightshift/services/orchestrator.py:158-450 | in every run panel, telemetry, count and work state are what the last hello, heartbeat or timeout, the last count, and the last allowed pause or resume made them |
| History.NoStepTells | nightshift/services/orchestrator.py:99-110 | before any such step each part is what the orchestrator starts with |
| History.ExecutorMovesExactly | nightshift/services/executor_service.py:11-18 | which transitions the executor allows |
| History.RevisionTells | nightshift/domain/models.py:66-105 | in every run exactly which steps raise the revision, and that what changes carries the step's time |
| Orchestrator.PartsHaveOwners | nightshift/services/orchestrator.py:158-273 | each part of the state changes only in the one kind of step that owns it |
| Orchestrator.PanelOfflineExactly | nightshift/services/orchestrator.py:436-448 | in every run PANEL_OFFLINE is set exactly while a panel once there is gone |
| Orchestrator.NextRevises | nightshift/domain/models.py:66-105 | every step raises the revision by at most one, and by one whenever the content changes |
| Orchestrator.SameRevisionSameContent | nightshift/services/orchestrator.py:403-450 | in every run revisions never go back, and two states of one revision have one content |
| Orchestrator.TimerTracksRun | nightshift/services/orchestrator.py:195-213 | the timer dates from an evaluation since which all evaluations saw a release, and any press accepted since still awaits its evaluation |
| Orchestrator.NoPressLost | nightshift/integrations/mqtt/pressure_adapter.py:209-230 | NIGHT_EXEC is reached only at the end of a dwell in which every evaluation saw a release and no press was accepted |
| Orchestrator.UnevaluatedPressIsLost | nightshift/integrations/mqtt/pressure_adapter.py:229-230 | had the adapter not awaited the evaluation, a press could pass unnoticed |
| FullSync.SendCoreState | nightshift/services/orchestrator.py:281-304 | sends mode, attention and work state in order, up to the first failure |
| FullSync.FullSyncLocked | nightshift/services/orchestrator.py:324-401 | nothing is sent when a table read raises; else what goes out is the script up to the first send that raises, before or after its command went out |
| FullSync.AloneStopsAtFailure | nightshift/services/orchestrator.py:324-401 | step by step on the line a sync sends what the whole call sends and stops where it stops |
| FullSync.PublishesSent | nightshift/services/orchestrator.py:273-280 | in every run a publish reaches the line at once, between whatever a sync sends, and leaves the sync where it is |
| FullSync.EndMeansWhole | nightshift/services/orchestrator.py:396-399 | STATE_SYNC_END is sent only after every earlier send was answered, and then the announced items were all sent |
| FullSync.NoPartialSnapshot | nightshift/services/orchestrator.py:320-401 | however syncs fail and publishes interleave, every STATE_SYNC_END closes one whole snapshot of at most sixteen tasks |
| FullSync.WholeSnapshot | nightshift/services/orchestrator.py:281-399 | what a whole snapshot holds, command by command |
| Tasks.TaskService.Create | nightshift/services/task_service.py:42-70 | appends a pending task under the next id |
| Tasks.TaskService.Transition | nightshift/services/task_service.py:147-158 | moves the row if it is in the expected state, and else changes nothing |
| Tasks.TaskService.Confirm | nightshift/services/task_service.py:80-81 | PENDING to ACTIVE |
| Tasks.TaskService.Reject | nightshift/services/task_service.py:83-84 | PENDING to COMPLETED |
| Tasks.TaskService.Complete | nightshift/services/task_service.py:86-87 | ACTIVE to COMPLETED |
| Tasks.TaskService.Fail | nightshift/services/task_service.py:89-90 | ACTIVE to FAILED |
| Tasks.TaskService.Retry | nightshift/services/task_service.py:92-93 | FAILED to PENDING |
| Tasks.ConfirmationService.Dismiss | nightshift/services/notice_service.py:67-76 | dismisses an active notice, and else changes nothing |
| Tasks.ConfirmationService.Settle | nightshift/services/confirmation_service.py:43-98 | confirm and reject change the row, append the record and count what is pending, or change nothing |
| Tasks.BooksBalance | nightshift/services/confirmation_service.py:43-98 | in every state of every interleaving decisions made minus retries is 0 or 1 per task, and the pending count is created plus retried minus decided |
| Tasks.RecordedBooksBalance | nightshift/services/confirmation_service.py:89-98 | the same of recorded decisions whenever none is waiting to be recorded |
| TaskHistory.RowStep | nightshift/services/task_service.py:147-158 | an act changes of a task at most its state, with its time |
| TaskHistory.RowsAdded | nightshift/services/task_service.py:42-70 | only a creation adds a row, at the end |
| TaskHistory.MovesExactly | nightshift/services/task_service.py:80-93 | which acts change the state of a task, and to what |
| TaskHistory.LastMoveTells | nightshift/services/confirmation_service.py:43-87 | in every run a task is ACTIVE, COMPLETED, FAILED or again PENDING exactly as the last act that moved it was a confirmation, a rejection or good finish, a bad finish, or a retry |
| TaskHistory.NoMoveTells | nightshift/services/task_service.py:42-70 | a task that no act moved is as it was created |
| TaskHistory.DecidedWhenOpen | nightshift/services/confirmation_service.py:46-57 | a decision can be made exactly on a pending task or a notice not yet dismissed |
| TaskHistory.RecordsAreDecisions | nightshift/services/confirmation_service.py:89-98 | in every run the records written and waiting are exactly the decisions made, each as it was made |
| TaskHistory.DismissedOnce | nightshift/services/notice_service.py:67-76 | a decided notice stays dismissed with its time, and is decided only once |
| TaskHistory.SettleIsTwoActs | nightshift/services/confirmation_service.py:43-87 | a call of confirm or reject is a decision and its record with nothing in between |
| Tasks.CompletedForGood | nightshift/services/task_service.py:80-93 | a completed task stays completed |
| Tasks.MakeDashboard | nightshift/services/task_service.py:113-145 | the loop over groups, in any order, yields the six counts over the tasks |
| Tasks.EveryTaskCounted | nightshift/services/task_service.py:122-145 | the six counters and open tasks outside the four quadrants count every task once |

## Left out

- The serial port, the MQTT broker, reconnection and backoff, the event loop's scheduling, and shutdown.
- SQL and the database file: a table is a sequence whose ids are positions counted from one; grouping and LIMIT are taken as SQL defines them.
- The orchestrator's lock: `Orchestrator` allows every interleaving of steps, which includes the locked ones; `FullSync` keeps the lock between syncs only.
- Log calls. Several in gateway.py pass keyword arguments a standard logger rejects. So the exception of a UI action handler leaves the dispatch and is dropped by the read loop with the key still in flight, as `Gateway` models it; the read loop's own error path is not modelled, and the panel is lost only by heartbeat timeouts.
- The digests: an arbitrary function of payload or envelope, with no injectivity assumed.
- JSON and UTF-8: messages arrive decoded or unusable, strings are bytes. The sample's device id, checked by the adapter, and its presence flag, fixed by the codec, are not fields of the model.
- parse_get_info_response, which slices 14 bytes for a 16-byte format and cannot succeed, and the encoders of display commands.
- The contents of state and list frames in a sync: `FullSync` models which commands are sent, and each item's task, but not that all frames of one sync carry one revision, which unlocked events do not ensure.
- Token counters and the dispatch table of UI actions and MQTT commands: a handled action is its answer, a dispatched command its effect.
- What moves the executor besides pause and resume: its other transitions come at any time it allows them.
- Session.UartSession.RecordResult: requires room for at least one item, as the constant 256 gives; with no room the source raises.
