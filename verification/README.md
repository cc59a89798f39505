# Verified model of the marine pan-tilt tracker

The system points a pan-tilt camera mount at a boat. A host process captures frames, detects and
selects a target, turns its position into rate-limited angle commands, and sends them over a serial
line to servo firmware, which exists twice: in C++ for the controller board and in Python as the
executable model the host is developed against. This project models the parts of it that carry
state or protocol and proves what they promise, in Dafny:

| files | what they model |
|---|---|
| `Wire`, `Decimal`, `Tokens`, `Codec`, `Framing`, `StreamCodec` | the line protocol: numbers, tokens, commands, responses, the byte framer in both languages |
| `Firmware`, `FirmwareRuns`, `RuntimeLoop` | the Python firmware: sequence rules, duplicates, rejected-SET cache, watchdog, the bounded loop |
| `Millis`, `CppParsing`, `CppProtocol`, `CppRuns`, `CppStream` | the C++ firmware with its uint32 clock and fixed buffers, and its simulation of the Python model over whole runs of lines and of bytes |
| `Mapping`, `Link`, `Expiry`, `LinkLockstep`, `Transport`, `Actuator`, `HiddenMotions`, `TrackingLoop` | the host's actuator, composed with the firmware through a lossy link, and driven by the controller |
| `Ranking`, `Selector`, `SelectorRuns`, `Controller` | target ranking, locking and occlusion over time, and the proportional controller |
| `Channel`, `Pipeline`, `Schedule` | the latest-value channel, the three threads around two of them, and the deadlines |
| `Recorder`, `SessionSplit` | the wall-clock video recorder and the data-set split |

Run `dafny verify dfyconfig.toml` to check everything.

## How to read it

Each stateful object is a class whose methods are proved against a function on plain states
(`FirmwareStateMachine.HandleCommand` against `Handle`, `MarineTargetSelector.Select` against
`SelectTracked`, and so on); the main results are lemmas about runs of those functions, or methods
that drive the object through any sequence of calls. Python floats are exact reals. Bytes are
characters; the framer rejects everything outside printable ASCII, so nothing depends on more. The
C++ fields have their fixed widths, and its clock is a reading modulo 2^32 beside an unbounded one.

The hypotheses are visible in the contracts:

- The link (`Link`, `Transport`) may lose, delay and retransmit, may turn a reply into garbage, and
  every call on it may fail. It neither reorders nor forges, does not corrupt a request into a
  different one, does not hold a reply back for 65535 further commands, and the firmware behind it
  does not restart. Its limits and neutral pose are not assumed to match the host's.
- `SerialLink.span`, if given, is how long after it began an exchange's requests can still be
  handled, on clocks that do not go back; without it nothing is known of times. Agreement over whole
  sessions is proved with no hypothesis on times when the host never retries, and otherwise from
  exchanges shorter than the watchdog's timeout and, for CENTER, ending before the armed deadline
  (`Actuator.NothingHides`). Everything else is proved for any times.
- `CppRuns.Timely`, `CppStream.OnTime`: a deadline is looked at within 2^31 ms of passing;
  `Millis.ComparisonExact` says what happens otherwise. `CppRuns` looks at the watchdog at the moment
  of each line; `CppStream` only asks that no deadline passes unseen before one, which looking at
  that moment ensures (`CppStream.LookingIsOnTime`).
- In `Pipeline` the monotonic clock never returns less than before. In `Selector` it may do anything.

## Where the code does less than one would expect

Each of these is a lemma at an input the code can receive, most from power-on, next to a lemma with
the exact condition under which the expectation holds.

- The two firmware readings of a line differ on two families: an empty first token followed by a
  number, and an out-of-range pan followed by a malformed tilt (`CppParsing.EmptyNameExample`,
  `CppParsing.RangeBeforeIntegerExample`, `CppParsing.ReadingsAgreeExactly`).
- The board looks at the watchdog at the start and end of a loop pass but handles a line at a later
  clock reading: a command that comes after the deadline and before the next look is still carried
  out (`CppStream.LateSetExample`; in general `CppStream.LateSetIsCarriedOut`; which answers differ,
  exactly: `CppStream.UnseenExpiryShows`).
- If the watchdog expires between the attempts of one motion, the retry is refused and the host
  keeps its old pose, connected and certain (`HiddenMotions.RefusedAfterExpiry`; a session from
  power-on in which it happens: `Expiry.ExpiryInASession`; exactly when it can happen:
  `Expiry.HidesExactlyWhen`). A retry corrupted beyond parsing does the same at any time
  (`HiddenMotions.CorruptionInASession`, `HiddenMotions.RefusedAfterCorruption`). The next confirmed
  operation repairs it.
- A number the firmware never handles, as that of a STATUS whose every attempt is lost or of an
  operation cancelled after it took its number, stalls the session until a HELLO
  (`LinkLockstep.StallExample`; in general `LinkLockstep.MissedNumberStalls`; exactly which command
  is executed: `LinkLockstep.ExecutesExactlyWhenHandled`). A timed-out STATUS
  leaves the host connected (`Actuator.FailedWith`), and opening a connected host does nothing.
- A logical limit that maps to a fraction can round outwards; the accepted SET then leads to a pose
  that the next DISABLE or STATUS treats as a session fault (`Mapping.UnshowablePoseExample`,
  `Mapping.SetPosesAreShowable`).
- A clock failure releases a held lock but keeps the cached target, which is then returned for its
  frame at any later time (`SelectorRuns.StaleTargetExample`; in general
  `SelectorRuns.ClockFailureLeavesStaleTarget`; exactly when: `SelectorRuns.NoStaleTarget`).

## Model

| member | source | states |
|---|---|---|
| Decimal.ParseAcceptsExactlyPrinted | src/marine_ptz/serial_protocol.py:480-486 | a token parses to a value if and only if it is that value's one canonical decimal spelling and the value fits 32 bits: no leading zeros, no plus sign, no minus zero |
| Decimal.ParseInt32Strict | firmware/ptz_controller/protocol.cpp:74-111 | the digit loop accepts exactly the tokens the Python parser accepts, with the same value, without ever overflowing 32 bits |
| Tokens.SplitOfJoin | src/marine_ptz/serial_protocol.py:442-443 | splitting undoes joining with single spaces, empty tokens included |
| Tokens.JoinOfSplit | src/marine_ptz/serial_protocol.py:442-443 | joining undoes splitting, and there is always at least one token |
| Tokens.SplitHasNoSpace | src/marine_ptz/serial_protocol.py:442-443 | no token contains a space |
| Tokens.TokenizePreservingEmpty | firmware/ptz_controller/protocol.cpp:123-139 | the in-place tokenizer leaves C strings at the returned offsets that are exactly the first five tokens of the line |
| Codec.ParseCommandExact | src/marine_ptz/serial_protocol.py:364-394 | a frame parses to a command if and only if it is that command's text, optionally ended by LF or CRLF |
| Codec.CommandRoundTrip | src/marine_ptz/serial_protocol.py:327-343 | parsing an encoded command gives it back, for every command |
| Codec.CommandTextFits | src/marine_ptz/serial_protocol.py:473-477 | every command's text is printable and within the 63-byte frame limit |
| Codec.ParseResponseExact | src/marine_ptz/serial_protocol.py:397-439 | a frame parses to a response if and only if it is that response's text, optionally ended by LF or CRLF |
| Codec.ResponseRoundTrip | src/marine_ptz/serial_protocol.py:346-361 | parsing an encoded response gives it back, for every response that can be encoded |
| Codec.ResponseTextFits | src/marine_ptz/serial_protocol.py:346-361 | every response but a READY with long versions fits the frame limit with room to spare |
| Framing.FeedIsWholeLines | src/marine_ptz/serial_protocol.py:243-289 | the byte automaton reports exactly what splitting at LF and classifying each line by its first fault gives, and what it holds is the classification of the unfinished line |
| Framing.ChunkingIsIrrelevant | src/marine_ptz/serial_protocol.py:243-276 | events and state depend only on the bytes, not on how they are cut into chunks |
| Framing.FeedAppend | src/marine_ptz/serial_protocol.py:243-276 | feeding two stretches one after the other is feeding their concatenation |
| Framing.BufferStaysBounded | src/marine_ptz/serial_protocol.py:269-275 | whatever is fed, the buffer never holds more than the limit |
| Framing.FramedLineIsClean | src/marine_ptz/serial_protocol.py:251-275 | a delivered line is printable and within the limit |
| Framing.LineFramer.FeedBytes | src/marine_ptz/serial_protocol.py:243-276 | the mutating framer computes the automaton: same events, same new state |
| Framing.LineFramer.FinishLine | src/marine_ptz/serial_protocol.py:283-289 | the event of the finished line, and a fresh state |
| Framing.ProtocolFramer.FeedByte | firmware/ptz_controller/protocol.cpp:318-356 | the C++ framer takes the same step at limit 63 and never writes outside its 64-byte buffer |
| StreamCodec.CommandStreamRoundTrip | src/marine_ptz/serial_protocol.py:243-394 | any list of commands, encoded, concatenated and cut into arbitrary chunks, is framed and parsed back to exactly that list |
| StreamCodec.ResponseStreamRoundTrip | src/marine_ptz/serial_protocol.py:243-439 | the same for responses that fit the frame limit |
| Firmware.HandleKeepsInv | src/marine_ptz/firmware_model.py:154-187 | every command, in every state, keeps the limits, the watchdog state and deadline in step with enabled, and the caches consistent, and is answered under its own number |
| Firmware.TickKeepsInv | src/marine_ptz/firmware_model.py:123-131 | a tick keeps the invariant and a second one at the same time does nothing |
| Firmware.RepliesAreTruthful | src/marine_ptz/firmware_model.py:154-256 | every ACK and STATUS names the pose, enabled flag and watchdog state the firmware then has, and a STATUS is enabled exactly when ARMED |
| Firmware.FrameRepliesFit | src/marine_ptz/firmware_model.py:133-152 | whatever bytes arrive as a frame, the reply is encodable, and a frame that does not parse has no effect but the tick |
| Firmware.RepeatKeepsInv | src/marine_ptz/firmware_model.py:234-256 | answering a retransmission changes nothing but the watchdog deadline |
| Firmware.ExecuteAnswers | src/marine_ptz/firmware_model.py:189-232 | a command is answered with its own kind of response and never moves the outputs out of the limits |
| Firmware.FirmwareStateMachine.HandleCommand | src/marine_ptz/firmware_model.py:154-187 | the object's new state and response are those of the step function |
| Firmware.FirmwareStateMachine.DoTick | src/marine_ptz/firmware_model.py:123-131 | the object's tick is the step function's |
| Firmware.FirmwareStateMachine.Apply | src/marine_ptz/firmware_model.py:189-232 | executing a command on the fields is the step function's execution |
| Firmware.FirmwareStateMachine.DuplicateResponse | src/marine_ptz/firmware_model.py:234-256 | the answer to a retransmission and its effect on the watchdog |
| Firmware.FirmwareStateMachine.RememberExchange | src/marine_ptz/firmware_model.py:258-276 | what is remembered of an exchange, the rejected SET included |
| Firmware.FirmwareStateMachine.ReplyToFrame | src/marine_ptz/firmware_model.py:133-152 | the bytes answered to a frame and the state left |
| FirmwareRuns.WatchdogOverRuns | src/marine_ptz/firmware_model.py:123-131 | over every run, just after a tick at t the outputs are on if and only if an accepted ENABLE, an accepted SET or an exact duplicate of one lies less than the timeout before t with no accepted DISABLE since |
| FirmwareRuns.OutputsFollowLease | src/marine_ptz/firmware_model.py:189-256 | over every run, the deadline is the last grant plus the timeout while the outputs are on |
| FirmwareRuns.AtMostOnceMotion | src/marine_ptz/firmware_model.py:166-187 | however often one command is delivered and whatever ticks fall between, its pose is written at most once, ends as the old or the requested one, and is the requested one once any delivery was acknowledged |
| FirmwareRuns.Lockstep | src/marine_ptz/firmware_model.py:166-187 | through any number of exchanges and wraparounds, no delivery is answered BAD_SEQUENCE or STALE_SEQUENCE and the host's next number is the expected one |
| FirmwareRuns.ExpectedNumberIsFresh | src/marine_ptz/firmware_model.py:172-187 | a cached rejected SET never captures a number that has become the expected one again |
| FirmwareRuns.RunKeepsInv | src/marine_ptz/firmware_model.py:123-187 | the invariant holds after every run |
| Millis.ComparisonExact | firmware/ptz_controller/protocol.cpp:192-194 | for a deadline at most 2^31 ms ahead, the mod 2^32 comparison decides as unbounded time does if and only if the deadline is still ahead or the time since it lies in the lower half of the wrap |
| Millis.ComparisonRight | src/marine_ptz/firmware_model.py:373-381 | within 2^31 ms after a deadline, and before it, the comparison is right |
| Millis.ComparisonFailsLate | src/marine_ptz/firmware_model.py:373-381 | 2^31 ms late it is wrong: a concrete reading |
| CppParsing.ReadingsAgreeExactly | firmware/ptz_controller/protocol.cpp:421-483 | on every token list the C++ and the Python reading give the same command or the same error if and only if the line is in neither divergent family |
| CppParsing.EmptyNameExample | firmware/ptz_controller/protocol.cpp:421-424 | the line with an empty first token and 5 as second is answered ERR 0 in C++ and ERR 5 in Python |
| CppParsing.RangeBeforeIntegerExample | firmware/ptz_controller/protocol.cpp:468-480 | SET 4 200 nope is BAD_INTEGER in C++ and OUT_OF_RANGE in Python |
| CppProtocol.ProtocolState.HandleLine | firmware/ptz_controller/protocol.cpp:411-564 | from related states, one line leaves related states and the same response text, as the C++ reading of the line goes |
| CppProtocol.ProtocolState.TickWatchdog | firmware/ptz_controller/protocol.cpp:397-409 | the uint32 tick keeps the states related while the deadline is within the half range |
| CppProtocol.ProtocolState.Remember | firmware/ptz_controller/protocol.cpp:196-226 | the flat fields, lastSetAccepted and rejectedSetOutOfRange included, keep describing the remembered response |
| CppProtocol.ProtocolState.HandleDuplicate | firmware/ptz_controller/protocol.cpp:228-272 | recognizes exactly the last number, and answers and re-arms as the model does |
| CppProtocol.ProtocolState.HandleCachedRejectedSet | firmware/ptz_controller/protocol.cpp:274-298 | answers exactly the cached rejected SET's number, unless it is the expected one, with the cached code or STALE_SEQUENCE |
| CppProtocol.ProtocolState.Execute | firmware/ptz_controller/protocol.cpp:508-556 | each accepted command's effect on the fields and its response text |
| CppProtocol.ReadLine | firmware/ptz_controller/protocol.cpp:417-483 | reading the tokenized buffer gives the C++ outcome of the line's tokens |
| CppRuns.LineThroughCpp | src/marine_ptz/firmware_model.py:133-152 | the model's answer to a framed line, from the C++ reading: the same state always, the same response exactly off the divergent families |
| CppRuns.RunCpp | firmware/ptz_controller/protocol.cpp:358-564 | from power-on, on every run whose deadlines are looked at within 2^31 ms, the C++ state stays related to the Python model and all answers off the divergent families are the same text |
| CppRuns.StepStaysNear | src/marine_ptz/firmware_model.py:278-280 | after every input an armed deadline is no further ahead than one timeout |
| CppStream.RunBytes | firmware/ptz_controller/protocol.cpp:318-564 | from power-on, on any bytes at any times, if every deadline is looked at within 2^31 ms and none passes unseen before a line: framer and state stay related to the stream model's, every reply off the divergent lines is the model's, framing errors included, and with no such line the bytes sent are exactly the stream model's |
| CppStream.TakeByte | firmware/ptz_controller/ptz_controller.ino:137-161 | one byte through the framer, the in-place line handling or the framing error, and the queued response |
| CppStream.UnseenExpiryShows | firmware/ptz_controller/ptz_controller.ino:178-183 | if a deadline passed between the last look at the watchdog and a line, the board's answer differs from the model's exactly for the commands whose answer depends on the outputs |
| CppStream.LateSetIsCarriedOut | firmware/ptz_controller/ptz_controller.ino:127-183 | a SET in that gap is carried out and keeps the outputs on, where the model refuses it and has them off |
| CppStream.LateSetExample | firmware/ptz_controller/ptz_controller.ino:127-183 | it happens from power-on: HELLO 1 and ENABLE 2 at time zero, SET 3 handled as the timeout runs out |
| CppStream.LookingIsOnTime | tests/cpp/protocol_harness.cpp:76-110 | a run that looks at the watchdog at the moment of each line passes no deadline unseen, whatever other bytes and lines come at that moment |
| RuntimeLoop.OneReplyPerLine | src/marine_ptz/firmware_model.py:293-302 | the stream answers each completed line exactly once and nothing else |
| RuntimeLoop.FirmwareRuntimeModel.Pass | src/marine_ptz/firmware_model.py:338-362 | one pass looks at the watchdog, consumes the oldest bytes at exactly the readings given, stopping early only for a reply, emits, and looks again; emitted plus pending stays the startup frame plus all replies to the bytes consumed, and with any transmit capacity 66 per queued byte plus 1 per pending byte falls |
| RuntimeLoop.FirmwareRuntimeModel.Run | src/marine_ptz/firmware_model.py:335-370 | for any arrivals and passes in any order, what is sent and pending is the startup frame and every reply of the stream to the bytes consumed, at the readings of the passes that consumed them |
| RuntimeLoop.Serve | src/marine_ptz/firmware_model.py:305-370 | the same from a new loop around a firmware in any valid state |
| RuntimeLoop.FirmwareRuntimeModel.Drain | src/marine_ptz/firmware_model.py:338-362 | with transmit capacity in every pass the loop drains: everything fed is consumed, at the readings of the passes taken, and everything answered is emitted |
| RuntimeLoop.FirmwareRuntimeModel.Receive | src/marine_ptz/firmware_model.py:346-357 | bytes are consumed in order, one reading each, until a reply is pending, the budget is used up or none is left |
| RuntimeLoop.FirmwareRuntimeModel.ConsumeByte | src/marine_ptz/firmware_model.py:352-357 | one byte yields at most one reply, so keeping the first loses none |
| RuntimeLoop.FirmwareRuntimeModel.EmitPending | src/marine_ptz/firmware_model.py:364-370 | emits a prefix of what is pending, as long as capacity allows, and keeps the rest |
| RuntimeLoop.FirmwareRuntimeModel.FeedRx | src/marine_ptz/firmware_model.py:335-336 | received bytes join the queue in order |
| Mapping.RoundIsNearest | src/marine_ptz/serial_actuator.py:706-709 | no whole degree is nearer, and of two equally near the one further from zero is taken |
| Mapping.MapUndoesUnmap | src/marine_ptz/serial_actuator.py:692-703 | every confirmed pose, shown as a logical angle and mapped again, is itself |
| Mapping.MapStaysPhysical | src/marine_ptz/config.py:493-529 | under the accepted settings the physical-limit check never fails for a target within the logical limits |
| Mapping.InitialMapsToNeutral | src/marine_ptz/config.py:524-529 | the initial logical angle maps to exactly the neutral degree, within the accepted tolerance |
| Mapping.MapStep | src/marine_ptz/serial_actuator.py:692-696 | targets at most a step apart are sent as degrees at most the step's ceiling apart |
| Mapping.SetPosesAreShowable | src/marine_ptz/serial_actuator.py:550-614 | every accepted SET leads to a pose a later STATUS or DISABLE accepts if and only if neither mapped limit is rounded outwards |
| Mapping.UnshowablePoseExample | src/marine_ptz/serial_actuator.py:594-614 | with limits 10.4 to 90 the accepted target 10.4 is sent as 10, which the next DISABLE rejects as outside the limits |
| Link.EventKeepsInv | src/marine_ptz/firmware_model.py:154-276 | whatever is lost, delayed, resent or handled, requests and replies in flight stay matched to the numbers issued, and a reply to the newest handled number stays true |
| Link.ExchangeOutcome | src/marine_ptz/serial_actuator.py:448-521 | one whole exchange from a quiet link, for every pattern of losses: at most one write, the pose old or requested, a correlated ACK or STATUS names the firmware's pose, a correlated refusal means the old pose unless the watchdog expired after the motion |
| Link.CorrelatedReply | src/marine_ptz/serial_actuator.py:479-505 | a reply with the current number belongs to the current command and leaves nothing in flight that could still move the outputs |
| Link.QuietPersists | src/marine_ptz/serial_actuator.py:448-521 | with nothing more written, a quiet link stays quiet and the pose stays |
| Link.NoMotionStaysQuiet | src/marine_ptz/serial_actuator.py:677-680 | a STATUS, DISABLE or HELLO exchange, however it ends, leaves a quiet link quiet: why it need not mark the position uncertain |
| Link.RepeatOfApplied | src/marine_ptz/firmware_model.py:234-245 | a retransmission of an applied motion is refused only with NOT_ENABLED, and only once the outputs are off |
| Expiry.HidesExactlyWhen | src/marine_ptz/serial_actuator.py:448-521 | for a motion from any quiet link, older requests in flight included, and a watchdog armed no later than now: some course of losses, retries and times changes the pose and leaves a refusal waiting if and only if the host may write twice, the firmware would carry the motion out now, if need be after handling some of the older requests, the pose would change, and a request can be handled as late as the expiry: the end of a timeout from now or, for CENTER, the deadline already armed |
| Expiry.NothingHidden | src/marine_ptz/serial_actuator.py:458-491 | from any quiet link, one write hides no motion whatever its timing, and neither does an exchange whose handlings all come before that expiry, however often it writes |
| Expiry.EventKeepsOnce | src/marine_ptz/serial_actuator.py:471-491 | with at most one write, the current number is handled at most once, so its refusal means it moved nothing: kept by every event |
| Expiry.EventKeepsTime | src/marine_ptz/firmware_model.py:216-256 | before the expiry, once the motion is applied, the deadline is no earlier and every retry is acknowledged again: kept by every event in order of time |
| Expiry.WouldMoveIsAcknowledged | src/marine_ptz/firmware_model.py:189-232 | what can be seen beforehand of a motion decides exactly whether it is executed and acknowledged |
| Expiry.HidingRunHides | src/marine_ptz/serial_actuator.py:479-491 | the course that hides it: applied and the ACK lost, handled again as the watchdog expires, refused with NOT_ENABLED at the new pose |
| Expiry.ExpiryInASession | src/marine_ptz/serial_actuator.py:211-222 | it happens in a session from power-on: HELLO 1, DISABLE 2 and ENABLE 3 answered at once, SET 4 40 50 applied at 1.5 s with its ACK lost, its retry refused at 2.5 s |
| HiddenMotions.RefusedAfterExpiry | src/marine_ptz/serial_actuator.py:448-521 | what the host makes of it, step by step of its exchange: any host that may write twice, on a link whose exchanges can last until the expiry, takes its number, writes twice, reads past the older replies to the refusal, and ends connected and certain of the old pose, which the firmware no longer has |
| HiddenMotions.RefusedAfterCorruption | src/marine_ptz/serial_actuator.py:479-491 | a retry corrupted into a frame that does not parse is taken for the refusal of the applied motion if and only if the frame shows its number or none, with the same effect and the host still enabled |
| HiddenMotions.CorruptionInASession | src/marine_ptz/serial_actuator.py:211-222 | it happens in the same session: SET 4 40 50 applied and its ACK lost, its retry arriving as noise |
| HiddenMotions.CorruptedIsRefused | src/marine_ptz/firmware_model.py:133-152 | such a frame moves nothing and is refused under the number it shows, never with NOT_ENABLED |
| HiddenMotions.NoiseShowsNoNumber | src/marine_ptz/firmware_model.py:397-408 | noise without a space shows no number |
| Link.SeqOfInjective | src/marine_ptz/serial_protocol.py:310-313 | within one cycle of 65535 a number belongs to one exchange |
| Link.AttachedInv | src/marine_ptz/serial_actuator.py:177-212 | a host may attach to a firmware in any state it can have reached, with its startup READY still waiting or not |
| LinkLockstep.NumbersStayInStep | src/marine_ptz/serial_actuator.py:523-526 | from any state, after a HELLO and any number of exchanges over the lossy link whose command the firmware each time handles, answered or not, through any number of wraparounds: the firmware expects exactly the number the host takes next, and no reply to the newest number was BAD_SEQUENCE or STALE_SEQUENCE |
| LinkLockstep.ExecutesExactlyWhenHandled | src/marine_ptz/firmware_model.py:166-187 | in step, the command the host takes next is executed if and only if the firmware has handled the number before it (or is whole cycles behind) |
| LinkLockstep.MissedNumberStalls | src/marine_ptz/serial_actuator.py:448-526 | if an exchange ended with its number unhandled, then through any exchanges without HELLO, for a whole cycle of numbers, nothing is executed, the pose stays and every answer to a newer number is a refusal |
| LinkLockstep.StallExample | src/marine_ptz/serial_actuator.py:279-282 | it happens from power-on: HELLO 1 answered, STATUS 2 lost, SET 3 handled and refused with BAD_SEQUENCE |
| LinkLockstep.AnsweredMeansHandled | src/marine_ptz/serial_actuator.py:479-505 | a reply with the current number shows that the firmware handled it |
| LinkLockstep.TurnKeepsStep | src/marine_ptz/firmware_model.py:154-187 | one such exchange, from a HELLO or from numbers already in step |
| LinkLockstep.ExpectedIsAccepted | src/marine_ptz/firmware_model.py:182-187 | the expected number, and any HELLO, becomes the last one and is not refused for its number |
| Transport.EventElapses | src/marine_ptz/serial_transport.py:28-70 | every single event of the link keeps every exchange's bounds, and without a write also the pose |
| Transport.HeadCorrelates | src/marine_ptz/serial_actuator.py:479-505 | a received response with the current number is the current command's answer |
| Transport.SerialLink.Write | src/marine_ptz/serial_transport.py:40-45 | a write, even a failed one, puts at most the current command on the link |
| Transport.SerialLink.ReadFrame | src/marine_ptz/serial_transport.py:47-53 | a bounded read gives silence, garbage, an error or the oldest reply, which is correlated if it carries the current number; a refusal then means the motion was not applied if it was written once or its exchange began early enough before an expiry |
| Actuator.ArduinoSerialActuator.Exchange | src/marine_ptz/serial_actuator.py:448-521 | an accepted answer is true of the firmware now; a failure leaves the host disconnected, uncertain, or with a quiet link at the old pose, except for a motion refused with NOT_ENABLED on a retry that may come after an expiry |
| Actuator.ArduinoSerialActuator.Attempts | src/marine_ptz/serial_actuator.py:458-521 | at most retries + 1 attempts; what each way of failing does to connected, enabled, faulted and uncertain |
| Actuator.ArduinoSerialActuator.AttemptOnce | src/marine_ptz/serial_actuator.py:459-511 | cancellation before the first write changes nothing; after it, it marks the position uncertain |
| Actuator.ArduinoSerialActuator.AwaitReply | src/marine_ptz/serial_actuator.py:470-511 | at most eight reads, until an answer, a silence or an unparsable frame |
| Actuator.ArduinoSerialActuator.Consider | src/marine_ptz/serial_actuator.py:479-505 | for every response exactly whether it is accepted, refused, a session fault or skipped, and which flags that changes |
| Actuator.FailureMeans | src/marine_ptz/serial_actuator.py:448-521 | of all ways to fail, only a refused retry can leave the host connected and certain of a pose that has changed |
| Actuator.ArduinoSerialActuator.Acknowledged | src/marine_ptz/serial_actuator.py:439-446 | an accepted ACK names the command: the session fault for any other never happens behind this link |
| Actuator.ArduinoSerialActuator.NamesCommand | src/marine_ptz/serial_actuator.py:439-446 | an ACK for another command is a session fault |
| Actuator.ArduinoSerialActuator.Reported | src/marine_ptz/serial_actuator.py:279-296 | every accepted status shows the outputs on exactly while the watchdog is armed: the session fault for a contradiction never happens behind this link |
| Actuator.ArduinoSerialActuator.AgreesWithItself | src/marine_ptz/serial_actuator.py:550-562 | a status whose enabled flag and watchdog state contradict each other is a session fault |
| Actuator.ArduinoSerialActuator.Apply | src/marine_ptz/serial_actuator.py:298-333 | returning normally means the firmware has exactly the requested degrees; a timeout or fault leaves the host disabled and uncertain with its confirmed pose untouched; at most one write; agreement is kept without retries or when exchanges are shorter than the watchdog's timeout, and otherwise lost only by a hidden motion |
| Actuator.ArduinoSerialActuator.Enable | src/marine_ptz/serial_actuator.py:245-259 | returning normally means enabled, certain and at the configured neutral, in the firmware too; agreement is kept under the same conditions |
| Actuator.ArduinoSerialActuator.Center | src/marine_ptz/serial_actuator.py:265-277 | the same for CENTER, whose exchange must also end before the deadline already armed, because it does not re-arm the watchdog |
| Actuator.ArduinoSerialActuator.Disable | src/marine_ptz/serial_actuator.py:261-263 | returning normally means the firmware's outputs are off and its pose is the host's |
| Actuator.ArduinoSerialActuator.DisableInternal | src/marine_ptz/serial_actuator.py:423-437 | the same, without clearing the uncertain flag |
| Actuator.ArduinoSerialActuator.Status | src/marine_ptz/serial_actuator.py:279-296 | a confirmed status restores certainty and agreement and never shows live outputs as off |
| Actuator.ArduinoSerialActuator.Open | src/marine_ptz/serial_actuator.py:177-243 | only a handshake and a confirmed DISABLE connect the host, certain and agreeing with a firmware whose outputs are off; any failure leaves it disconnected |
| Actuator.ArduinoSerialActuator.Handshake | src/marine_ptz/serial_actuator.py:367-421 | only a READY with the HELLO's own number is accepted, and no pose changes |
| Actuator.ArduinoSerialActuator.Close | src/marine_ptz/serial_actuator.py:335-354 | closing always ends disconnected and disabled, and a DISABLE confirmed on the way, at once or after a new handshake, means that the firmware's outputs are off |
| Actuator.ArduinoSerialActuator.ConfirmShown | src/marine_ptz/serial_actuator.py:594-614 | a confirmed pose is adopted exactly when it lies within the physical and, unmapped, the logical limits |
| Actuator.ArduinoSerialActuator.SessionIntegrityFault | src/marine_ptz/serial_actuator.py:667-675 | a fault disconnects, disables and marks the position uncertain |
| Actuator.ArduinoSerialActuator.MarkUncertainFor | src/marine_ptz/serial_actuator.py:677-680 | disables, and marks uncertain exactly for a motion |
| Actuator.Session | src/marine_ptz/serial_actuator.py:177-354 | any sequence of operations over any losses, delays and garbled replies: without retries, or with exchanges shorter than the watchdog's timeout and CENTER only early before the armed deadline, a connected and certain host holds the firmware's pose |
| Actuator.SessionFrom | src/marine_ptz/serial_actuator.py:67-128 | the same for a new host on a new link to a firmware in any reachable state |
| TrackingLoop.Track | src/marine_ptz/serial_actuator.py:298-333 | the controller's commands are never refused for their angles, a confirmed one is in the servos in whole degrees, and between two confirmed in a row the servos move by at most the step limit rounded up on each axis |
| TrackingLoop.Follow | src/marine_ptz/tracking.py:347-406 | one decision moves the commanded degrees by at most that much, and applies them or changes nothing |
| Ranking.LeastIsFirst | src/marine_ptz/tracking.py:295-315 | the chosen candidate is the first of least rank |
| Ranking.LexTotal | src/marine_ptz/tracking.py:301-313 | any two ranks are equal or ordered one way |
| Ranking.RankedDetection | src/marine_ptz/tracking.py:295-315 | the scan returns the first candidate of least rank, which is the only one, and none only for no candidates |
| Selector.SelectKeepsInv | src/marine_ptz/tracking.py:137-286 | a cached target implies a held lock and state locked holds exactly with a cached target, in every state, until a clock failure strikes a held target, and exactly then |
| Selector.LockDropsOnlyWhenDue | src/marine_ptz/tracking.py:154-187 | a held lock is dropped by age without support or by a clock or frame-number interruption, and otherwise stays on the same identity: never because another ranks higher |
| Selector.OrphanIsReturnedForever | src/marine_ptz/tracking.py:255-257 | a target that outlived its lock is returned for its frame at any later time |
| Selector.MarineTargetSelector.Select | src/marine_ptz/tracking.py:113-241 | the object computes the step function, in both modes |
| Selector.MarineTargetSelector.SelectionForRepeatedFrame | src/marine_ptz/tracking.py:255-286 | asking again for the same frame: age is re-checked, nothing is counted twice |
| Selector.MarineTargetSelector.ObserveFrame | src/marine_ptz/tracking.py:145-187 | a new frame with a lock held: support, occlusion or release |
| Selector.MarineTargetSelector.AcquireTarget | src/marine_ptz/tracking.py:189-241 | a new frame with no lock: nomination, confirmation count, lock |
| Selector.MarineTargetSelector.Timestamp | src/marine_ptz/tracking.py:243-248 | a clock failure releases the lock and nothing else |
| SelectorRuns.LockHistory | src/marine_ptz/tracking.py:113-241 | over every run, with any clock: a held lock was taken after at least the configured number of consecutively processed frames that all nominated that identity, with no interruption and no lock between, and was held ever since |
| SelectorRuns.NoStaleTarget | src/marine_ptz/tracking.py:137-286 | at every point of every run: whatever is asked next, a returned target carries the asked frame's number, was among the detections of that frame's last processing and was observed no longer than the limit ago, if and only if no clock failure has struck a held target since the last processed frame, restart or rewind |
| SelectorRuns.OrphanedWhenStruck | src/marine_ptz/tracking.py:137-286 | a target outlives its lock exactly when a clock failure struck one and nothing has cleared it since |
| SelectorRuns.OrphanPersists | src/marine_ptz/tracking.py:113-153 | such a target is ended exactly by processing a frame, by a reset and by a frame number below the last |
| SelectorRuns.ClockFailureLeavesStaleTarget | src/marine_ptz/tracking.py:243-257 | from any strike until a call clears it, the old target is answered again for its frame at any later time |
| SelectorRuns.StaleTargetExample | src/marine_ptz/tracking.py:243-257 | it happens: one good detection processed, the clock failing when its frame is asked for again, and the detection returned at any later time |
| SelectorRuns.AfterHasEffect | src/marine_ptz/tracking.py:189-241 | what one call can do to the pending and the locked identity |
| SelectorRuns.ProcessingCaches | src/marine_ptz/tracking.py:154-241 | processing a frame answers with one of its own detections and keeps it |
| SelectorRuns.OtherwiseKept | src/marine_ptz/tracking.py:255-286 | a call that processes nothing keeps the target or drops it, and answers with nothing else |
| Controller.CorrectionDirection | src/marine_ptz/tracking.py:382-391 | a correction points from the centre to the target, is at most the step limit, and vanishes exactly in the deadband or without gain |
| Controller.MotionIsBounded | src/marine_ptz/tracking.py:354-406 | for every sequence of sightings and losses: commands in the logical limits, degrees in the physical limits, successive SETs at most the step limit rounded up apart |
| Controller.LostReturnsToNeutral | src/marine_ptz/tracking.py:374-399 | losing the target moves straight to neutral, a full step a frame, and stays there |
| Controller.ProportionalPTZController.CommandForTarget | src/marine_ptz/tracking.py:347-406 | the object's new angles are the step function's, and only a visible target in a frame without extent is refused |
| Channel.Conservation | src/marine_ptz/concurrent_runtime.py:91-165 | under every interleaving: versions equal overwritten plus distinct versions handed out plus one if the newest is unread |
| Channel.ReadsAreNewest | src/marine_ptz/concurrent_runtime.py:124-160 | every read returns the newest published value under its own number |
| Channel.ReaderAdvances | src/marine_ptz/concurrent_runtime.py:143-152 | a reader that passes its last version is never given the same or an older one |
| Channel.FinalValueSurvivesClose | src/marine_ptz/concurrent_runtime.py:143-165 | after close, a reader that has not seen the final value is still given it, whatever happened since |
| Channel.VersionsGrow | src/marine_ptz/concurrent_runtime.py:112-122 | versions never decrease, and after close neither version nor value changes |
| Channel.LatestValueChannel.PublishValue | src/marine_ptz/concurrent_runtime.py:112-122 | publishing replaces, counts an unread loss, and is refused when closed |
| Channel.LatestValueChannel.ReadLatest | src/marine_ptz/concurrent_runtime.py:124-152 | a waiting read ends at the first moment there is a newer version or the channel is closed, or at the timeout, and returns what is newest then |
| Channel.LatestValueChannel.PeekValue | src/marine_ptz/concurrent_runtime.py:154-160 | a peek returns and consumes the current value |
| Pipeline.CommandsFollowFrames | src/marine_ptz/vision_cli.py:1012-1237 | under every interleaving: commands come from captured frames, in frame order, with capture, inference start, inference end, freshness check and command in that order of time, and results no older than the limit at the check |
| Pipeline.EachFrameInferredOnce | src/marine_ptz/vision_cli.py:1501-1541 | no frame is inferred twice and results appear in frame order |
| Pipeline.CaptureKeepsInv | src/marine_ptz/vision_cli.py:1404-1440 | each capture step keeps the invariant: strictly increasing frame numbers, stamped before they are published |
| Pipeline.InferenceKeepsInv | src/marine_ptz/vision_cli.py:1501-1541 | each inference step keeps the invariant: the frame in hand is newer than every frame already answered |
| Pipeline.ControlKeepsInv | src/marine_ptz/vision_cli.py:1020-1237 | each control step keeps the invariant: the result held is never replaced by one for an older frame |
| Schedule.DeadlinesStayOnGrid | src/marine_ptz/concurrent_runtime.py:47-53 | after any legal starts the deadline is start plus a whole number of intervals, that number grows, and now < deadline <= now + interval |
| Schedule.NextIsEndOfSlot | src/marine_ptz/concurrent_runtime.py:47-53 | wherever the deadline was, the next is the end of the slot the frame started in: missed slots are dropped |
| Schedule.FramesWithinElapsedSlots | src/marine_ptz/concurrent_runtime.py:28-53 | no more frames have started by a moment than intervals have elapsed |
| Schedule.MonotonicPlaybackSchedule.FrameStarted | src/marine_ptz/concurrent_runtime.py:47-53 | refuses a start before the deadline and otherwise moves to the first future slot |
| Schedule.MonotonicPlaybackSchedule.WaitSeconds | src/marine_ptz/concurrent_runtime.py:42-45 | the wait ends exactly at the deadline and is zero exactly from then on |
| Schedule.CommandsAreSpaced | src/marine_ptz/concurrent_runtime.py:193-217 | of the commands the control loop sends at any clock readings, the j-th starts at least j - i intervals after the i-th ended: delays are skipped, not made up |
| Schedule.SentExactlyWhenDue | src/marine_ptz/concurrent_runtime.py:207-212 | a round sends a command if and only if its clock has reached the first deadline or an interval has passed since the last command ended: none is early and none is left out |
| Schedule.ControlLoop | src/marine_ptz/vision_cli.py:1134-1216 | the loop over the schedule object sends exactly those commands and records exactly their completions |
| Schedule.MonotonicControlSchedule.BoundedWait | src/marine_ptz/concurrent_runtime.py:214-217 | a wait never sleeps past the deadline |
| Recorder.WallClockFilm | src/marine_ptz/video_recorder.py:65-97 | after any submissions: exactly floor((last - start) * fps + 1e-9) + 1 frames, each slot showing its first submitted frame or else the latest before it, duplicates counting exactly the empty slots |
| Recorder.SampleAndHold | src/marine_ptz/video_recorder.py:80-97 | the same for any monotone timeline |
| Recorder.WallClockIsOrderly | src/marine_ptz/video_recorder.py:85 | slots do not decrease with time and the first frame opens slot 0 |
| Recorder.WallClockVideoRecorder.WriteFrame | src/marine_ptz/video_recorder.py:65-97 | the object records what the specification does, and refuses a released recorder, a non-finite and a backward timestamp without effect |
| Recorder.WallClockVideoRecorder.WriteHeld | src/marine_ptz/video_recorder.py:88-91 | the loop writes the held frame once per missed slot |
| SessionSplit.SharesAreFair | src/marine_ptz/dataset.py:465-473 | each share is its exact quota rounded down or up, and a larger remainder is never passed over |
| SessionSplit.SharesTotal | src/marine_ptz/dataset.py:465-473 | the shares add up if and only if the floors leave between none and three sessions over |
| SessionSplit.LeftIsSmall | src/marine_ptz/dataset.py:465-473 | which holds whenever the quotas miss the total by less than one session |
| SessionSplit.EverySplitGetsSome | src/marine_ptz/dataset.py:474-482 | with at least three sessions no split stays empty, none is lost, nothing is raised, and shares that are all positive are kept |
| SessionSplit.SplitCounts | src/marine_ptz/dataset.py:465-482 | the in-place loops compute the specified counts |
| SessionSplit.FillInPlace | src/marine_ptz/dataset.py:474-481 | the second loop fills each empty split from the first of the largest, or reports that it cannot |
| SessionSplit.SplitIsPartition | src/marine_ptz/dataset.py:317-323 | every session is in exactly one split and each split has exactly its count, for any hash order |
| SessionSplit.DeterministicSessionSplit | src/marine_ptz/dataset.py:283-323 | the accepted inputs give a partition into non-empty splits of the specified sizes; each refusal has its cause |
| SessionSplit.CloseSumsMissLittle | src/marine_ptz/dataset.py:309-310 | a sum accepted as one misses it by at most 1/999999999 |
| SessionSplit.LittleIsNegligible | src/marine_ptz/dataset.py:309-310 | which is less than one session for any total under 999999999 |


## Left out

- The serial port, the camera, the detector, rendering, telemetry and key handling: foreign calls and
  I/O. The port is replaced by the link; commands and responses cross it as values, which the stream
  round trips justify.
- Actuator.Session: requests are not corrupted on its link; what a corrupted retry does to the host
  is `HiddenMotions.RefusedAfterCorruption`.
- A firmware restart during a session, and the sketch that drives the pins: the model ends at the
  action requested of the outputs.
- The rate limit before a SET and the sleeps of the handshake: they only delay. The handshake makes
  an arbitrary finite number of attempts instead of reading a deadline clock.
- Actuator.ArduinoSerialActuator.Close: does not state that the outputs end up off where no DISABLE
  is confirmed, because a closed or silent port leaves that unknown; the watchdog results bound how
  long they can stay on.
- Controller.ProportionalPTZController.CommandForTarget: takes the target's centre only if it is
  finite; a centre that is not counts as a lost target.
- Selector.MarineTargetSelector.Select: class names arrive already case-folded, and a detection's
  fields are finite.
- Pipeline: the recorder thread and the shutdown order. A worker tests for a closed channel apart
  from its last read, so nothing is claimed about the last published value being consumed.
- CppStream.RunBytes: the board's bounded loop and transmit buffer are not part of it; `RuntimeLoop`
  has them for the Python firmware.
- Pipeline.CommandsFollowFrames: the selector and controller decisions between result and command
  are not part of the thread model; they have their own results.
- SessionSplit.DeterministicSessionSplit: the hash ranking is an arbitrary permutation, and the
  fractions are finite; for totals of 999999999 and more nothing is claimed.
- Floating-point rounding, real scheduling, and the metrics, evaluation, replay and configuration
  file code: summaries and plumbing that would add only easy members.
- The highest-confidence selector, digital zoom and the simulated actuator: short clamps and scans.
