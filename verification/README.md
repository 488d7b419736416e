# SENTRY-CELL: a verified model of the firmware's hard core and its host link

A Dafny 4.11 model of the SENTRY-CELL firmware (ATmega328P) and of the supervisor at the
other end of its serial line, with proofs of what the two keep over every run, every
interleaving with interrupts, and unbounded time. `dafny verify dfyconfig.toml` checks it.

State that the source changes in place is a class whose methods are proved against a pure
machine; the properties are proved of that machine for all runs.

- CRC (`Crc8`, `CrcDivision`, `CrcDetection`): both bit loops compute the remainder of
  `data * x^8` by `x^8 + x^2 + x + 1`, the polynomial of section 4.3.2 of ITU-T I.432.1,
  without that Recommendation's added pattern; the order of `x` is exactly 127; which error
  patterns survive.
- Frames (`Frames`, `Status`): encoding and decoding are inverse, damage is detected, all
  eight reports cross the wire, byte by byte as documented.
- Parser (`Parser`, `ParserTiming`): the byte machine refines a recursive scanner;
  resynchronisation bound and its sharpness; conservation of candidates; the 100 ms timeout
  over a wrapping clock.
- Slots (`Slots`): nine response slots, exactly-once answers, two passes drain them and one
  does not.
- UART (`Ring`, `Uart`, `RxTiming`): two lock-free rings are FIFOs under every interleaving of
  single loads and stores with both interrupts; the transmitter never sticks and empties its
  ring; when reception loses nothing.
- Protocol (`Protocol`, `Communication`): the static state of protocol.c and
  `communication_task` refine the machines above, from received to transmitted bytes, over one
  call and over any run of calls.
- Time (`Scheduler`, `Servo`, `Capture`): periodic dispatch over a wrapping clock, the pulse
  train and its latency, the ultrasonic handshake under capture interrupts.
- Safety (`Safety`, `Application`, `Reaction`): the SAFE latch, the output policy, the button,
  when the stepper steps, how often tasks are called, the reaction bound and that it is attained.
- Main loop (`Inputs`, `Firmware`, `Answering`): `main` as one object over any inputs. Every pass
  takes its inputs from its tick, every due call is made, it halts only when a received frame
  asks for it, loses no byte when passes are short enough, reacts to an obstacle that echoes, and
  answers a request within `9 + g` ms.
- Diagnostics (`Profilers`): saturating counters equal folds of the whole history.
- Host (`HostLink`, `Dashboard`, `Poller`, `EndToEnd`): reads under any chunking, when they
  succeed and that they give nothing else, the cached store as a fold of its history, the poll
  schedule, a polling cycle across both ends.

Conventions. Bytes are integers 0 to 255; C widths, wrap-around and saturation are written
out. Environment steps are explicit: `Interrupts()` runs any number of interrupts in any order
and is called between every two shared accesses of foreground code; time, CPU cycles, the wire,
the button, the echo line, and what the operating system reads and writes are inputs. A ghost
history in a class records what has happened to it, and its invariant ties the real fields to
that history.

Where the code and its documents disagree, the model follows the code:

- docs/protocol/uart_binary_protocol.md:95-96 promises a reset whenever 100 ms elapse between
  bytes. The code compares at its checks, one at the start of each call of the task, and not
  when the second byte is processed: `ParserTiming.PauseIsSeenWhen` gives the exact condition
  for any checks. A pause of 100 ms is missed when the millisecond turns between the check and
  the byte of the same call (`ParserTiming.UnseenPause`); with at most `d` ms between the two,
  every pause of `100 + d` ms is seen (`ParserTiming.LongPausesAreSeen`).
- docs/requirements/validation_requirements_v1.md:46 (VAL-REQ-009) accepts the relay ON only
  in ACTIVE. After a critical obstacle it stays on until the next control task:
  `Safety.OnOutsideActiveWhen` says exactly when, `Safety.RelayOutlivesFault` gives a run. The
  weaker VAL-REQ-015 (line 64, "next respective service execution") holds.
- docs/requirements/validation_requirements_v1.md:44 (VAL-REQ-007) asks that all phase drive be
  removed outside ACTIVE. It is removed by the next actuator task: `Safety.DrivenOutsideActiveWhen`
  says exactly when a phase is still on, `Safety.PhaseOutlivesActive` gives a run.

## Model

| member | source | states |
|---|---|---|
| Crc8.ShiftOnce | firmware/protocol/crc8.c:20-24 | one turn of the C bit loop on a `uint8_t` is one shift of the feedback register |
| Crc8.ShiftOnceMasked | supervisor/protocol.py:112-116 | one turn of the Python bit loop, on a wider integer masked to a byte, is the same shift |
| Crc8.Crc8Compute | firmware/protocol/crc8.c:7-30 | for every array and every length a `uint8_t` can hold, the value of the register after the bytes; 0 for a null pointer |
| Crc8.Crc8Atm | supervisor/protocol.py:107-118 | for every byte string of any length, the same value as the C code |
| CrcDivision.RegisterIsBitRegister | firmware/protocol/crc8.c:14-27 | the byte-wise loop equals a bit-serial divider fed with the message bits, most significant first |
| CrcDivision.RegisterDivides | firmware/protocol/crc8.c:14-27 | the bit-serial divider leaves a quotient and a remainder: message * x^8 = quotient * (x^8+x^2+x+1) + register |
| CrcDivision.DivisionIsUnique | firmware/protocol/crc8.c:14-27 | a message has only one such quotient and remainder |
| CrcDivision.CrcIsTheRemainder | supervisor/protocol.py:107-118 | a byte is the CRC of a message if and only if it is the remainder of message * x^8 by x^8+x^2+x+1 |
| CrcDetection.RegisterIsLinear | supervisor/protocol.py:107-118 | the CRC register of the exclusive or of two messages of equal length is the exclusive or of their registers |
| CrcDetection.ResidueIsZero | supervisor/protocol.py:172-173 | data followed by a byte leaves residue 0 if and only if that byte is the CRC of the data |
| CrcDetection.ParityIsKept | supervisor/protocol.py:107-118 | the register has odd parity exactly when the message has an odd number of ones: x + 1 divides the generator |
| CrcDetection.OrderDivides127 | supervisor/protocol.py:107-118 | x^127 = 1 modulo the generator |
| CrcDetection.OrderIsNotLess | supervisor/protocol.py:107-118 | no smaller positive power of x is 1, so the order is exactly 127 |
| CrcDetection.TwoBitsSurvive | supervisor/protocol.py:107-118 | two ones in at most 127 bits never cancel |
| CrcDetection.BurstSurvives | supervisor/protocol.py:107-118 | ones confined to eight consecutive bits never cancel |
| CrcDetection.DetectablePatternSurvives | supervisor/protocol.py:107-118 | one, two or three errors, an odd number, or a burst of at most eight bits leave a non-zero register |
| Frames.RoundTrip | supervisor/protocol.py:128-179 | `encode_frame` succeeds exactly on octet fields and at most 8 payload bytes, and `decode_frame` returns the same frame |
| Frames.DecodedIsEncoded | supervisor/protocol.py:145-179 | a byte string decodes to a frame if and only if it is the encoding of that frame |
| Frames.WireLayout | docs/protocol/uart_binary_protocol.md:36-51 | the bytes of a frame in order, and what the CRC covers |
| Frames.RefusedWhen | supervisor/protocol.py:145-179 | which error a byte string gets, in the order of the checks |
| Frames.DamageAcceptedWhen | supervisor/protocol.py:145-179 | replaced bytes are accepted if and only if SOF, VERSION and LENGTH are intact and the error pattern has CRC 0 |
| Frames.DamageIsDetected | supervisor/protocol.py:145-179 | 1, 2 or 3 changed bits anywhere in a frame, any odd number, or any burst of at most 8 bits, is rejected |
| Status.ReportCrosses | firmware/protocol/protocol.c:440-715 | each of the eight reports, framed by the firmware, is decoded by the host to the same values (the watchdog flag as 0 or 1), and by a decoder for another kind to an error |
| Status.ReportIsLaidOut | docs/protocol/uart_binary_protocol.md:186-214 | the type and every payload byte of each report, least significant first |
| Status.DecodedIsReport | supervisor/protocol.py:182-352 | a frame decodes to a report if and only if it is the frame of that report |
| Status.RefusedWhen | supervisor/protocol.py:182-352 | which error a decoder gives |
| Parser.SoundIsKept | firmware/protocol/protocol.c:324-336 | in READ_PAYLOAD the index is below a length of at most 8, so the reset branch is unreachable |
| Parser.FeedWhole | firmware/protocol/protocol.c:278-351 | a complete candidate gets from the byte parser the verdict that `decode_frame` gives to the whole string |
| Parser.ParserRefinesScanner | firmware/protocol/protocol.c:278-351 | for every byte stream, what the parser delivers and what it still holds are those of a scanner that skips to SOF, drops an offending version or length byte unexamined, and otherwise judges whole frames |
| Parser.RankFalls | firmware/protocol/protocol.c:278-351 | outside WAIT_SOF a rank of at most 13 falls with every byte |
| Parser.QuietBytesReset | firmware/protocol/protocol.c:278-351 | as many bytes other than SOF as the rank says bring the parser to WAIT_SOF |
| Parser.Resynchronises | firmware/protocol/protocol.c:278-351 | after any garbage and 13 bytes other than SOF the next encoded frame is delivered intact |
| Parser.TwelveAreNotEnough | firmware/protocol/protocol.c:278-351 | 12 such bytes can leave the parser waiting for a CRC |
| Parser.FrameIsSwallowed | firmware/protocol/protocol.c:278-351 | and then the next frame is lost |
| Parser.StreamIsDelivered | firmware/protocol/protocol.c:278-351 | any list of encoded frames is delivered frame by frame |
| ParserTiming.CandidatesAreConserved | firmware/protocol/protocol.c:278-361 | every SOF accepted as a start ends exactly once as delivered, CRC error, version error, length error or timeout, or is in progress; both counters are the true counts cut off at 255 |
| ParserTiming.ClockDoesNotMatter | firmware/protocol/protocol.c:278-361 | without a timeout the timed parser delivers what the untimed one does |
| ParserTiming.DeliveredAfterTimeout | firmware/protocol/protocol.c:353-361 | the frame after a timeout is delivered, whatever came before |
| ParserTiming.DeliveredIsReceived | firmware/protocol/protocol.c:278-361 | every frame delivered occurs, encoded and contiguous, among the bytes received |
| ParserTiming.TimeoutIsExact | firmware/protocol/protocol.c:353-361 | in spite of the 32-bit wrap a check times out an open candidate exactly when it comes 100 ms or more after the last byte |
| ParserTiming.QuickIsNotTimedOut | firmware/protocol/protocol.c:353-361 | bytes and checks that all lie within 100 ms cause no timeout |
| ParserTiming.PauseIsSeenWhen | docs/protocol/uart_binary_protocol.md:95-96 | for any number of checks between two bytes, a timeout is reported if and only if a candidate is open and one of the checks comes 100 ms or more after the first byte |
| ParserTiming.LongPausesAreSeen | firmware/main.c:254-260 | if the check of the call that reads the second byte comes at most d ms before that byte, every pause of 100 + d ms or more in an open candidate is seen, and none below 100 ms is |
| ParserTiming.UnseenPause | docs/protocol/uart_binary_protocol.md:95-96 | calls every 10 ms, and a pause of exactly 100 ms that is not reported because the check of the second call was made one tick earlier |
| Slots.HandlerDoesItsDuty | firmware/protocol/protocol.c:98-248 | for every frame and every slot, handling does what the message registry demands: a request takes its slot if that is free and is dropped if not, with the right answer type, sequence and NACK reason, and no other slot changes |
| Slots.AnsweredExactlyOnce | firmware/protocol/protocol.c:98-461 | over every run and for every slot, pending + accepted = queued + pending, as sequences of answers in order |
| Slots.ServeSlot | firmware/main.c:269-357 | what a service pass leaves in each slot |
| Slots.TwoPassesDrain | firmware/main.c:269-357 | two passes that each start with an empty transmit ring queue everything that is owed |
| Slots.OnePassIsNotEnough | firmware/main.c:269-357 | one pass can leave a slot unserved |
| Slots.UnansweredFalls | firmware/main.c:269-357 | the unanswered bytes, at most 105, fall by the size of each answer taken |
| Ring.Push | firmware/hal/uart.c:33-43 | writing at the head and advancing it appends to the queue |
| Ring.Pop | firmware/hal/uart.c:51-57 | advancing the tail removes the oldest byte |
| Ring.EmptyAndFull | firmware/hal/uart.c:33-54 | head equals tail exactly when nothing is queued, and the next head exactly when one slot is left |
| Uart.Uart.RxIsr | firmware/hal/uart.c:31-47 | a byte is stored at the end of the queue, or dropped and counted exactly when 31 are unread |
| Uart.Uart.UdreIsr | firmware/hal/uart.c:49-61 | the oldest published byte is sent; with none the interrupt disables itself |
| Uart.Uart.CopyIn | firmware/hal/uart.c:119-122 | the copy loop stages exactly the caller's bytes, with interrupts after every store |
| Uart.Uart.Stage | firmware/hal/uart.c:119-122 | a byte copied past the published head changes nothing that is queued |
| Uart.Uart.FreeSpace | firmware/hal/uart.c:110-113 | a stale tail only under-estimates the free space |
| Uart.Uart.Commit | firmware/hal/uart.c:124-126 | publishing and the separate load and store of the enable bit keep the invariant with interrupts in between |
| Uart.Uart.TxWrite | firmware/hal/uart.c:95-128 | all bytes are accepted or none; accepted whenever they fit beside what is queued; null and empty input as the code has them |
| Uart.Uart.ReadByte | firmware/hal/uart.c:130-146 | the oldest unread byte, exactly when there is one, with interrupts between all accesses; a failing call has found the ring empty |
| Uart.Uart.Peek | firmware/hal/uart.c:132-141 | the loads of head, tail and slot, with interrupts between them, give the oldest unread byte |
| Uart.Uart.QueueOnlyGrows | firmware/hal/uart.c:31-47 | interrupts never change an unread byte |
| Uart.Uart.QueueOnlyShrinks | firmware/hal/uart.c:49-61 | interrupts never add to the transmit queue |
| Uart.Uart.Interrupts | firmware/hal/uart.c:31-61 | the invariant holds under any number of both interrupts in any order |
| Uart.Uart.HistoriesAreFifo | firmware/hal/uart.c:31-146 | what the invariant kept by every method says of the histories: bytes sent are a prefix of bytes accepted, bytes delivered a prefix of bytes kept, seen = kept + dropped, and unsent bytes find the interrupt enabled |
| Uart.Uart.TransmitAll | firmware/hal/uart.c:49-61 | with nothing newly accepted, exactly as many data register interrupts as there are bytes in the ring, each of them enabled, send all that was accepted, and one more disables the interrupt |
| Uart.Uart.NothingIsLost | firmware/hal/uart.c:31-47 | when arrivals are a byte time apart and the ring has been drained in time, nothing has been dropped since power-up: every byte that arrived has been delivered or is in the ring |
| RxTiming.NothingIsDropped | firmware/hal/uart.c:31-47 | no byte is lost when bytes are 16,640 cycles apart and each comes less than 515,840 cycles after the ring was last found empty |
| RxTiming.FullRateFills | firmware/hal/uart.c:31-47 | at full rate an unread ring loses exactly what comes after 31 bytes, from cycle 515,840 on |
| RxTiming.StillDrained | firmware/hal/uart.c:31-47 | a ring drained in time so far stays so while nothing is logged 515,840 cycles or more after it was last found empty |
| Protocol.Protocol.constructor | firmware/protocol/protocol.c:250-276 | initial state of parser, counters and slots |
| Protocol.Protocol.ResetParser | firmware/protocol/protocol.c:50-58 | the parser and its clock are as at start-up, counters and pending answers kept |
| Protocol.Protocol.PrepareNack | firmware/protocol/protocol.c:89-96 | the shared slot holds a NACK with this sequence and reason |
| Protocol.Protocol.HandleFrame | firmware/protocol/protocol.c:98-248 | the pending flags, sequences and frame after handling are those of the slot machine |
| Protocol.Protocol.HandleStatus | firmware/protocol/protocol.c:102-112 | one status branch: the request is remembered, ignored when one is pending, or refused with a NACK |
| Protocol.Protocol.HandleImmediate | firmware/protocol/protocol.c:216-247 | PONG, ACK or NACK for the remaining types |
| Protocol.Protocol.CopyEcho | firmware/protocol/protocol.c:235-242 | the ACK carries the payload received |
| Protocol.Protocol.AcceptSof | firmware/protocol/protocol.c:285-291 | WAIT_SOF |
| Protocol.Protocol.AcceptHeader | firmware/protocol/protocol.c:293-322 | the four header states, byte by byte |
| Protocol.Protocol.StorePayload | firmware/protocol/protocol.c:324-336 | a payload byte goes to the next place, and the last one leads to READ_CRC |
| Protocol.Protocol.JudgeFrame | firmware/protocol/protocol.c:338-345 | the CRC byte delivers the frame or counts an error, and the parser is reset |
| Protocol.Protocol.ProcessByte | firmware/protocol/protocol.c:278-351 | parser state, clock, counters and slots after a byte are those of the timed parser and the slot machine |
| Protocol.Protocol.CheckTimeout | firmware/protocol/protocol.c:353-361 | the same for a timeout check |
| Protocol.Protocol.GetResponse | firmware/protocol/protocol.c:378-395 | the copy equals the pending frame |
| Protocol.Protocol.SendResponse | firmware/main.c:269-274 | the shared answer is queued whole and released, or nothing changes |
| Protocol.Protocol.SendStatus | firmware/protocol/protocol.c:430-715 | a requested report is queued whole with its sequence and its request cleared, or nothing changes |
| Protocol.SendFrame | firmware/protocol/protocol.c:402-428 | the bytes accepted by the transmitter are the encoding of the frame, or none; it succeeds when they fit; null and long frames are refused |
| Protocol.Layout | firmware/protocol/protocol.c:411-426 | the bytes laid out are the encoding of the frame |
| Protocol.FrameCrcOf | firmware/protocol/protocol.c:67-87 | the CRC over version, type, sequence, length and payload; 0 for an impossible length |
| Communication.Drain | firmware/main.c:257-260 | every byte read goes to the parser, in order, until the ring is found empty |
| Communication.Receive | firmware/main.c:254-260 | the timeout check and the drain loop: parser and slots are where the machines are after the check and the bytes, and the ring has been found empty |
| Communication.ServePass | firmware/main.c:269-357 | the nine tests in service order queue exactly the answers of the slots that the transmitter took; only what does not fit beside the unsent bytes is refused |
| Communication.CommunicationTask | firmware/main.c:219-357 | one call: one timeout check, then bytes until the ring is found empty, and from them to bytes accepted: parser, slots and transmitted frames are those of the machines; with what was unsent at its start, only what does not fit is refused; it blocks exactly when a block has been requested, and then sends nothing |
| Communication.TurnsAreEvents | firmware/main.c:219-357 | a run of task calls is a run of the slot machine, and the frames it sends for each slot, by header, are those that the slot machine queues |
| Communication.EveryRequestOnce | firmware/main.c:219-357 | over every run of calls from start-up, the frames of each slot, with the one still owed, are the answers of the requests that the slot accepted, in order |
| Communication.BlockIsAskedFor | firmware/protocol/protocol.c:206-214 | for any log, a block is requested afterwards if and only if one was before or the log holds an INJECT_WATCHDOG_BLOCK frame without payload |
| Communication.BlockWasReceived | firmware/main.c:219-268 | a run of calls from start-up that ends in a block has received such a frame, encoded and contiguous |
| Communication.RunTask | firmware/main.c:219-357 | the task on the real objects, called once for each input or until a block: the bytes read are those its calls heard, the bytes accepted for transmission are the frames of its calls, which answer every accepted request once, in order, slot by slot; a run from start-up blocks only if a frame that asks for it has been received |
| Scheduler.OnceInOrder | firmware/scheduler/scheduler.c:49-63 | a pass dispatches exactly the due tasks, once each, in registration order |
| Scheduler.Scheduler.constructor | firmware/scheduler/scheduler.c:16-26 | an empty table |
| Scheduler.Scheduler.AddTask | firmware/scheduler/scheduler.c:28-47 | registration takes the first free slot; it fails exactly for a null task, a zero period or a full table, and then changes nothing |
| Scheduler.Scheduler.Run | firmware/scheduler/scheduler.c:49-63 | the calls made and the new table |
| Scheduler.WrapIsInvisible | firmware/scheduler/scheduler.c:49-63 | over unbounded time, with period + gap at most 2^32, wrapped comparisons dispatch as true elapsed time would |
| Scheduler.PeriodIsKept | firmware/scheduler/scheduler.c:49-63 | with passes at most g ms apart, consecutive dispatches of a task are p to p + g - 1 ms apart, for ever |
| Scheduler.ExactAtFullRate | firmware/scheduler/scheduler.c:49-63 | with a pass in every ms, dispatch times are exactly t0 + k * p |
| Scheduler.LateByAWrap | firmware/scheduler/scheduler.c:57-58 | a pass 2^32 ms after a dispatch finds the task not due |
| Capture.Capture.CaptureIsr | firmware/drivers/hcsr04.c:20-36 | rising edge, falling edge, result; its last branch is never reached |
| Capture.Capture.Interrupts | firmware/drivers/hcsr04.c:20-36 | under any edges and interrupts an idle driver stays as it is, a result stays ready, and a measurement that ends has one |
| Capture.Capture.Start | firmware/drivers/hcsr04.c:59-83 | starts exactly when idle, and forgets all earlier edges; from then on the driver is waiting with its interrupt enabled, or has a result |
| Capture.Capture.Abort | firmware/drivers/hcsr04.c:101-112 | idle without a result, from any state |
| Capture.Capture.Dispatch | firmware/main.c:180-209 | a start is never refused; a whole echo that has come since the start on a low line, each edge served before the next, is read with its exact width; any result is the wrapped distance of a rising and a later falling edge, both after the start made by the previous dispatch, even when the interrupt comes between the test and the abort |
| Capture.Capture.Settle | firmware/drivers/hcsr04.c:20-36 | whatever is still to happen on the line happens, and the driver ends with a result or on the way to one |
| Capture.Capture.EchoIsReady | firmware/drivers/hcsr04.c:20-36 | such an echo has made the driver idle with a ready result of its width |
| Capture.Capture.FirstEchoIsReady | firmware/drivers/hcsr04.c:20-83 | with captures prompt and none waiting, a first rise after the start and the fall after it have given a result from these two edges |
| Capture.Capture.ShortEchoIsExact | firmware/drivers/hcsr04.c:24-31 | with prompt captures an echo shorter than 65,536 ticks is measured exactly, and is the first after the start |
| Servo.TrainIsExact | firmware/drivers/servo.c:21-45 | the compare match of every rising edge is 40,000 ticks after the one before; that of its falling edge 2000 ticks after it for a command of 1 ms and 4000 for 2 ms, and there is no other |
| Servo.EdgesCarryLatency | firmware/drivers/servo.c:21-45 | the edges that the interrupt writes have that period and that width but for the difference of two interrupt latencies |
| Servo.ErrorDoesNotGrow | firmware/drivers/servo.c:44 | over n frames the error is still only the difference of two latencies |
| Servo.Servo.constructor | firmware/drivers/servo.c:47-59 | the first match comes 2000 ticks after initialisation, with a command of 1 ms |
| Servo.Servo.CompareIsr | firmware/drivers/servo.c:21-45 | each interrupt appends one change with its match, its latency and the command latched at the rising edge; the next match comes 2000 ticks per ms of the command after a rise, and after a fall what is left of 40,000 |
| Servo.Servo.SetPulseMs | firmware/drivers/servo.c:61-67 | 1 and 2 are taken, and any other value is ignored |
| Servo.LatencyBound | firmware/drivers/servo.c:44 | the next match is on time if and only if the interrupt is entered within the interval; otherwise it is a whole turn of the timer late |
| Safety.CriticalWindow | firmware/main.c:195-204 | a pulse is critical if and only if it has 116 to 2435 ticks |
| Safety.OneCall | firmware/main.c:71-217 | what one task call keeps: consistent outputs, the fault record, the latch |
| Safety.InvInEveryRun | firmware/main.c:71-217 | it holds after every run of task calls in any order |
| Safety.FaultsAgree | firmware/diagnostics/diagnostics.c:12-20 | SAFE_STATE if and only if the last fault is the obstacle if and only if the fault count is 1 |
| Safety.FallbackPatternIsNeverShown | firmware/main.c:50-69 | in SAFE_STATE the LED always shows the double blink |
| Safety.SafeStateIsLatched | firmware/app/system_fsm.c:10-37 | once entered, SAFE_STATE is never left, no step is made, and from the first control and actuator call on the outputs are off for ever |
| Safety.OnOutsideActiveWhen | docs/requirements/validation_requirements_v1.md:46 | relay, motor and servo are on outside ACTIVE if and only if SAFE_STATE has been entered and no control call has seen it yet |
| Safety.RelayOutlivesFault | docs/requirements/validation_requirements_v1.md:46 | a run from power-up, with the start of the measurement before its evaluation, whose relay is on in SAFE_STATE |
| Safety.DrivenWhen | docs/requirements/validation_requirements_v1.md:44 | a stepper phase is driven if and only if a step has been made that no actuator call outside ACTIVE has followed |
| Safety.DrivenOutsideActiveWhen | docs/requirements/validation_requirements_v1.md:44 | a phase is driven outside ACTIVE if and only if one was when ACTIVE was left and no actuator call has been made since |
| Safety.PhaseOutlivesActive | docs/requirements/validation_requirements_v1.md:44 | a run with a phase driven in IDLE |
| Safety.OneTogglePerPress | firmware/main.c:117-129 | between two button transitions, and before the first, the button was seen released |
| Safety.ToggleWhen | firmware/main.c:117-129 | outside SAFE_STATE a control call moves between IDLE and ACTIVE if and only if it sees the button pressed and the control call before it saw it released |
| Safety.StepsArePeriodic | firmware/main.c:83-88 | while ACTIVE lasts and whatever other calls come between, steps follow the rule of a periodic task of 5 ms from the time that `last_step_ms` holds |
| Safety.MarkIsKept | firmware/main.c:83-92 | over any run from start-up `last_step_ms` is the wrapped time of the last actuator call that made a step or found a state other than ACTIVE |
| Safety.StepWhen | firmware/main.c:83-92 | over any run from start-up an actuator call makes a step if and only if the state is ACTIVE and 5 ms or more have gone by since that call, however the clock wraps |
| Safety.NoStepAfterIdle | firmware/main.c:83-92 | after an actuator call that finds a state other than ACTIVE no actuator call within 5 ms makes a step, whatever is pressed |
| Safety.StepsAfterEntry | firmware/main.c:83-92 | when ACTIVE is entered after such a call at t and lasts, the steps are 5 to 4 + g ms apart, counted from t |
| Safety.StepsInActive | firmware/main.c:83-92 | the same for any run that has come to ACTIVE, counted from its last such call |
| Application.Application.constructor | firmware/main.c:375-403 | the initialisation order ends in IDLE with safe outputs and an idle driver |
| Application.Application.HandleEvent | firmware/app/system_fsm.c:10-37 | exactly four changes: BOOT to IDLE, IDLE to ACTIVE and back, ACTIVE to SAFE_STATE, each on its event |
| Application.Application.RecordFault | firmware/diagnostics/diagnostics.c:12-20 | a new fault is recorded and counted modulo 65,536, and no fault or a repeat changes nothing |
| Application.Application.SetSafeOutputs | firmware/main.c:41-48 | all five outputs off, nothing else changed |
| Application.Application.ActuatorServiceTask | firmware/main.c:71-101 | one actuator call of the machine of `Safety.StepWhen`, with interrupts around it |
| Application.Application.ControlTask | firmware/main.c:103-164 | one control call of the machine |
| Application.Application.ReadButton | firmware/main.c:117-129 | the button part of a control call |
| Application.Application.CommandOutputs | firmware/main.c:131-156 | the outputs that each state commands |
| Application.Application.ApplySafeStateLed | firmware/main.c:50-69 | the double blink of 150 ms at 0 and 300 of each second for an obstacle, and half a second on otherwise |
| Application.Application.SensorSafetyTask | firmware/main.c:166-217 | one sensor call of the machine, whose reading is the measurement started by the previous dispatch; a whole echo of 116 to 2435 ticks that has come and been served gives a critical reading |
| Reaction.PassByTime | firmware/scheduler/scheduler.c:49-63 | a pass calls each task exactly when its period has gone by in true time, and leaves no task overdue |
| Reaction.TasksKeepTheirPeriods | firmware/main.c:26-29 | in every run with passes at most g ms apart the actuator task is called every 1 to g ms, control and communication every 10 to 9 + g, the sensor task every 30 to 29 + g, and none is overdue at the end |
| Reaction.DeadlineHolds | firmware/main.c:103-217 | with an obstacle present each pass makes the outputs safe or does not move the deadline |
| Reaction.ReactionBound | firmware/main.c:103-217 | from an obstacle at t0 in ACTIVE, with passes at most g ms apart, relay, motor and servo are commanded safe by t0 + 95 + 4g ms: 99 ms at g = 1 |
| Reaction.BoundIsAttained | firmware/main.c:103-217 | at g = 30 a run whose outputs are still on one ms before the bound |
| Reaction.LoopIsOnTime | firmware/main.c:424-427 | every run of the loop keeps its tasks on time and its invariant, so the bound applies at any moment |
| Reaction.StaysSafe | firmware/main.c:424-427 | safe outputs stay safe, and no step is made, for the rest of the run |
| Inputs.ScheduleOfPass | firmware/scheduler/scheduler.c:49-63 | which tasks a pass calls depends on the times alone |
| Inputs.KeepUp | firmware/main.c:257-260 | with passes at most g ms apart of at most b cycles each, 16,000 (10 + g) + b <= 515,840, the receive ring is still drained in time after every pass |
| Inputs.EchoesAreHeard | firmware/main.c:180-209 | an obstacle that echoes in the pass after every start, with passes less than 30 ms apart, is heard whole by every evaluation of a measurement started since |
| Firmware.Firmware.constructor | firmware/main.c:368-421 | start-up registers all four tasks and enters the loop in IDLE, with nothing heard or sent |
| Firmware.RegisterTasks | firmware/main.c:394-413 | the four registrations succeed and make a table of tasks 0 to 3 with the periods 1, 10, 30 and 10 |
| Firmware.Firmware.Pass | firmware/main.c:424-427 | one turn of the loop over the real objects is one pass of the timed machine with the clock and button of its tick, whose reading is the pulse that the driver measured, critical when a near echo has been heard; the communication task is called exactly when due, once, and empties the ring; a halt leaves safe outputs |
| Firmware.Firmware.Loop | firmware/main.c:424-427 | the loop is a run of such passes, one for every tick up to a halt, with one call of the communication task for every tick at which it is due; when passes are close and short enough the receive ring stays drained in time |
| Firmware.Firmware.React | firmware/main.c:424-427 | the reaction bound for the real objects, from inputs alone: when every evaluated measurement started after the obstacle has heard an echo of 116 to 2435 ticks, outputs are safe by t0 + 95 + 4g ms, unless a frame that asks for a watchdog block has been received |
| Firmware.Firmware.CallCommunication | firmware/main.c:219-366 | the run of calls that parser, slots and accepted bytes follow is one call longer, with the clock and readings of the tick, and the ring has been found empty; or a block was asked for |
| Firmware.Firmware.HasAnswered | firmware/main.c:219-366 | at any moment the accepted bytes are the frames of the calls so far, which answer the accepted requests of each slot in order; a halted firmware has received a frame that asks for it |
| Firmware.RunFirmware | firmware/main.c:368-429 | from power-up, whatever the wire, button and echoes do: every pass takes its inputs from its tick, every task is called in its time, the communication task once for each tick at which it is due, the run is one of the timed machine, on time and within its invariant, or has halted with safe outputs after a frame that asks for it; its answers are in order; and with passes close and short enough no byte of the wire is lost |
| Answering.CallAnswers | firmware/main.c:219-357 | one call that reads a whole status request from idle answers it at once, and the host reads the report of that call |
| Answering.Respond | firmware/main.c:424-427 | the response time: a status request whole in the receive ring at time t, with at most 49 bytes unsent and passes at most g ms apart, has its one answer accepted for transmission by t + 9 + g ms |
| Profilers.RuntimeProfiler.RecordExecution | firmware/diagnostics/runtime_profiler.c:21-43 | busy ticks and overruns are the true sum and counts of the whole history, cut off at 2^32 - 1 and 65,535 |
| Profilers.RuntimeProfiler.ElapsedMs | firmware/diagnostics/runtime_profiler.c:50-53 | exact for less than 2^32 ms |
| Profilers.OverrunsAreCounted | firmware/diagnostics/runtime_profiler.c:26-42 | the overruns of a task are the executions of more than 2000 ticks per ms of its period |
| Profilers.TicksAddUp | firmware/diagnostics/runtime_profiler.c:29-37 | every execution of tasks 0 to 3 adds its ticks, and no other does |
| Profilers.TimingProfiler.Record | firmware/diagnostics/timing_profiler.c:20-26 | the maximum of all execution times of the task |
| Profilers.TimingProfiler.RecordStart | firmware/diagnostics/timing_profiler.c:37-76 | the largest distance of an interval from its period over the whole history, cut off at 65,535; the first start gives none |
| Profilers.WorstJitterIsMaximum | firmware/diagnostics/timing_profiler.c:55-70 | with consecutive starts less than 2^32 ms apart it is the largest true distance of an interval from its period, and it is attained |
| HostLink.SerialLink.ReadExact | supervisor/serial_link.py:74-109 | succeeds if and only if the bytes are coming and turns without a stop offer as many, and then takes just enough turns and precisely these bytes; otherwise it times out with what the chunks before the first stop brought, and is over for the next read; the argument errors in order |
| HostLink.SerialLink.Open | supervisor/serial_link.py:27-47 | opening twice is an error |
| HostLink.SerialLink.ReadProtocolFrame | supervisor/main.py:130-139 | times out if and only if the header or the rest that it announces does not arrive before a stop; result, bytes taken and turns spent are those of `HostLink.ReadFrame` |
| HostLink.ReceivedWhen | supervisor/serial_link.py:84-109 | all is received if and only if some turns without a passed deadline or a silent `select` offer it |
| HostLink.ReceivedIs | supervisor/serial_link.py:84-109 | how much is received, and which turns are left, in closed form |
| HostLink.FrameIsReadWhen | supervisor/main.py:130-139 | when a frame is read, and that it is then judged by its length byte and by all of its bytes |
| HostLink.ChunksDoNotMatter | supervisor/main.py:130-139 | unless a read times out, its result and the bytes it takes are what the stream spells, in any chunking |
| HostLink.EnoughArrives | supervisor/serial_link.py:74-109 | as many non-empty chunks before a deadline as bytes wanted suffice, whatever their sizes |
| HostLink.ProductiveAreCounted | supervisor/serial_link.py:84-109 | the chunks meant are those that bring something before the first stop |
| HostLink.ReadSucceeds | supervisor/main.py:130-139 | a frame is read when as many non-empty chunks come before a deadline as it has bytes |
| HostLink.SpelledFrame | supervisor/main.py:130-139 | a stream that starts with an encoded frame spells that frame and nothing after it |
| HostLink.ReadBack | supervisor/main.py:130-139 | any list of frames is read back frame by frame, each taking exactly its 6 + length bytes: as many as there are non-empty chunks for, and all of them when these are as many as bytes |
| HostLink.SerialLink.Write | supervisor/serial_link.py:60-72 | what the operating system takes is written, and it is an error exactly when that is not all |
| HostLink.SerialLink.RecoverRxAfterTimeout | supervisor/serial_link.py:111-115 | exactly the input that has arrived by the flush is discarded; nothing is when the flush fails |
| Dashboard.NewStore | supervisor/dashboard.py:262-279 | the limits that are refused, in order |
| Dashboard.DefaultStore | supervisor/dashboard.py:93-95 | the default limits |
| Dashboard.DashboardStore.RecordSuccess | supervisor/dashboard.py:349-407 | the snapshot shows every report of the cycle under its name, CONNECTED and without an error; snapshot, bounded history and bounded event log stay the folds of all outcomes |
| Dashboard.DashboardStore.RecordFailure | supervisor/dashboard.py:409-450 | the same folds; data and update time are kept, the connection is not CONNECTED, and the error is shown |
| Dashboard.DashboardStore.RecordValueChangeEvents | supervisor/dashboard.py:295-347 | one event for each counter that differs from the last success and for a newly seen marker, in order |
| Dashboard.DashboardStore.IsStale | supervisor/dashboard.py:125-142 | not stale exactly when the last outcome is a success no older than the limit |
| Dashboard.SnapshotIsOneCycle | supervisor/dashboard.py:362-374 | part by part, the data shown are those of one whole cycle, the latest success, with its time; without a success there are none; an error is shown exactly after a failure |
| Dashboard.ConnectionWhen | supervisor/dashboard.py:419-427 | CONNECTED if and only if the last outcome was a success; DEGRADED if and only if it was a failure soon enough after one |
| Dashboard.ErrorIsShown | supervisor/dashboard.py:415-432 | the last failure's message, cut off after 256 characters, an empty one replaced |
| Dashboard.NewestAreKept | supervisor/dashboard.py:277-278 | the bounded lists keep the newest entries |
| Dashboard.SamplesAreSuccesses | supervisor/dashboard.py:387-407 | the history holds one sample for each success, in order, with its time, link counters, memory and load |
| Dashboard.ValueEventsAre | supervisor/dashboard.py:295-347 | the events of a success by name and in order: link counters, watchdog marker, overrun counters, each against the success before |
| Dashboard.ConnectionEventIs | supervisor/dashboard.py:376-450 | which connection event an outcome makes, if any |
| Dashboard.OutcomeIsLogged | supervisor/dashboard.py:376-450 | what each outcome adds to the log: its connection event, then the value events of a success against the latest one before |
| Dashboard.OneEventPerChange | supervisor/dashboard.py:376-450 | the log holds exactly one connection event for every change of the connection |
| Poller.NextAnswer | supervisor/dashboard.py:497-516 | the firmware's answer at the head of the stream is accepted, with its values, and exactly its bytes are consumed |
| Poller.AcceptedWhen | supervisor/dashboard.py:499-516 | an answer is accepted if and only if it is the frame of that report with the sequence number of the request; which error comes first otherwise |
| Poller.RequestsAre | supervisor/dashboard.py:519-553 | the seven requests by type and sequence number |
| Poller.NextReading | supervisor/dashboard.py:492-516 | reading the next right answer succeeds with its values or times out, and does not time out while non-empty chunks are left for all remaining bytes |
| Poller.DashboardPoller.RequestOne | supervisor/dashboard.py:492-516 | one request written, and when it is taken whole one frame read and judged by type, sequence and decoder: exact in result and in what is left of the link |
| Poller.DashboardPoller.RequestAll | supervisor/dashboard.py:519-553 | seven requests with consecutive sequence numbers modulo 256; a stream of seven right answers gives exactly their cycle or a timeout or a partial write, and gives the cycle when writes are taken and enough chunks come before a deadline |
| Poller.DashboardPoller.PollOnce | supervisor/dashboard.py:518-581 | the requests are made, and one success, or one failure, or two when recovery fails, reaches the store, and nothing else; recovery is tried once after a timeout and only then; a link that serves seven right answers gives a success with their values |
| Poller.DashboardPoller.Run | supervisor/dashboard.py:586-606 | as many cycles as asked for unless a stop is seen; none starts early, the next time lies after the end and at least an interval after the previous one; the store holds what the cycles recorded and the line what they wrote, in order, with sequence numbers that run on |
| Poller.DashboardPoller.PollAndPlan | supervisor/dashboard.py:596-606 | one cycle and the time of the next; it is logged as a success if and only if one success reached the store, after all seven requests; a link that serves right answers makes it one |
| Poller.NoDrift | supervisor/dashboard.py:600-603 | while cycles succeed in time they are due at exact multiples of the interval |
| Poller.QuietAfterFailure | supervisor/dashboard.py:604-606 | after a failed cycle a whole interval passes before the next |
| EndToEnd.Exchange | firmware/main.c:219-357 | from idle, any calls that together read one status request, however its bytes are spread over them, send exactly one answer, from which the host reads the report of one of the calls; then the firmware is idle again |
| EndToEnd.SplitRequestIsHeard | firmware/main.c:254-260 | a request split at any byte over two calls is heard |
| EndToEnd.PromptRequestIsHeard | firmware/main.c:254-260 | a request whose calls lie within 100 ms is not timed out |
| EndToEnd.PromptCycleIsHeard | supervisor/dashboard.py:519-553 | in any run of the task, a cycle whose requests each come within 100 ms, with at most 49 bytes unsent, is heard as `EndToEnd.CycleIsAnswered` asks |
| EndToEnd.RoundsAreAnswered | firmware/main.c:219-357 | one state running through the calls of several requests sends exactly their answers, in order |
| EndToEnd.CycleIsAnswered | supervisor/dashboard.py:519-553 | over a whole polling cycle, threaded through all calls of the task, the firmware sends exactly the stream of seven answers that the poller expects, and is idle at the end |

## Left out

- Register set-up, ADC busy-wait, GPIO bit patterns, the stepper's phase sequence, the relay and motor pin levels: each actuator is one abstract field; the pin code adds only easy members.
- Watchdog timer, `.noinit` marker and reset cause (inline assembly and toolchain placement): a watchdog-block request is modelled as safe outputs followed by no further task call.
- Interrupt routines are atomic, as they are on this CPU; nested interrupts are not enabled by the program. The polling `uart_write_byte` and `uart_write_string` are not part of this model.
- `TIMER2_COMPA_vect` and `system_time_ms`: the millisecond clock is an input, monotone and at most `g` ms further at each pass. The cycles at which a pass begins and ends are inputs too, tied to the clock only where `Inputs.KeepsPace` is asked for; how long each task takes within a pass is not modelled, so the reaction bound is in pass times.
- The calls that each task makes to the profilers, and the ADC read: the profilers are proved on their own, for any history of records, and their readings enter `communication_task` as parameters.
- Physical echo behaviour: what happens on the echo line in a pass, edges and the moments at which a waiting capture interrupt may be entered, is any sequence given with the tick, played at any points of that pass. That a near obstacle gives a whole echo of 116 to 2435 ticks, each edge served before the next, is a hypothesis of the reaction bound; `Inputs.EchoesAreHeard` gives inputs that meet it.
- Firmware.Firmware.React: speaks of measurements whose start finds the echo line low and quiet in that pass; a start during an echo is covered by `Capture.Capture.Dispatch` and `Reaction.ReactionBound`, not by this bound.
- Answering.Respond: is for the eight status requests and for a request that nothing follows, since the poller waits for each answer; answers to several requests are those of `Slots.TwoPassesDrain`.
- Servo.Servo.CompareIsr: assumes that the interrupt is entered before the next interval ends; `Servo.LatencyBound` shows that this is exactly what the train needs. The few cycles between the pin write and the write of OCR1A count as one latency. `servo_stop`, which nothing calls, is not part of this model.
- Uart.Uart.RxIsr: its logged time is that of the interrupt entry, so `Uart.Uart.NothingIsLost` speaks of the spacing of entries; the two-byte buffer of the USART in front of it is not part of this model.
- Uart.Uart.TxWrite: the length is at most 255 and the caller's array is not one of the rings, as the C types give.
- Protocol.Protocol.StorePayload: the reset branch of READ_PAYLOAD and the default branch of the switch are proved unreachable, so they have no body here. The same holds for the last branch of the capture interrupt and the registration failure of `main`.
- Null output pointers of the accessors in protocol.c, and Python's type checks (`isinstance`), which Dafny's types exclude.
- Protocol.Protocol.SendStatus: the eight `_requested`/`send` pairs are one method over the status kind; the kind, type and layout of each are those of `Status.Payload`.
- memory_profiler.c (linker symbol, stack pointer), floating-point percentages, microseconds and UTC formatting.
- Serial port open, close and termios, `select`, sleeps, threads and locks: a read loop meets any finite sequence of outcomes, store methods are atomic, and clocks are environment inputs. The text of error messages is abbreviated.
- Poller.DashboardPoller.Run: runs for at most a given number of cycles, since the thread's loop has no end of its own; what each look at the stop event finds is an input.
- `status_payload` and `history_payload` (copies of the cached fields, the events in reverse), and the rest of `to_dict`, are not part of this model.
- HTTP server, static assets, CSV logs, command line, reports and the validation campaign: input, output and formatting.
