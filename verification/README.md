# DYX3 rover verification

A Dafny model of the hard logic of the DYX3 ground-marking rover, with proofs about every input, every run or every
reachable state. `dafny verify dfyconfig.toml` checks the whole project.

Each part has specification functions that follow the code branch by branch, an imperative form where the code is
imperative (classes and loops, proved equal to those functions), and theorems about the functions. For every main
operation one theorem fixes its answers on all inputs in terms of a reference that does not use the operation's own
helpers or constants: a byte layout, a polynomial division, a transition table, an account of events, a grammar.

| Part | Modules |
|---|---|
| CDR codec of the bag analysis | `Cdr`, `CdrLayout`, `CdrReading`, `CdrDamage`, `CdrRoundTrip`, `CdrEvolution`, `CdrVersions`, `CdrNested`, `CdrCodec` |
| RTCM framing and CRC-24Q | `Crc24q`, `CrcDivision`, `Rtcm`, `RtcmGrammar` |
| Correction injection | `Injection`, `InjectionDuty`, `UsbSink`, `SinkDuty`, `CorrectionPath` |
| Spray actuator state machine | `SprayFsm`, `SprayDuty`, `SprayLink`, `SprayTiming` |
| Mission lifecycle | `MissionFsm`, `MissionDuty`, `MissionHistory` |
| PX4 sequencer | `Px4Sequencer`, `Px4Runs`, `Px4Account`, `Px4Requests`, `Px4Ownership`, `Px4Drain` |
| Point journal and progress record | `PointJournal`, `MissionProgress`, `ProgressGrammar`, `ProgressReader` |
| App-plan compiler | `AppPlan`, `AppPlanDense`, `AppPlanRuns`, `RunSplit`, `AppPlanRecovery`, `AppPlanReport` |
| Dash meter | `DashMeter`, `DashTracking` |

Modelling choices:

- Coordinates, lengths, stations and the spray machine's times are real numbers; PX4 deadlines are integers. The CRC
  register is a set of bit positions, so exclusive or is symmetric difference. Floats and strings inside CDR messages
  are byte patterns.
- Message definitions are data with a rank per message type that witnesses that they are acyclic.
- The plan compiler takes the Euclidean length (`math.hypot`) as a parameter; lemmas that depend on its value require
  `IsHypot`. The point journal compares squared distances instead.
- Threads are interleaved steps: a mutex-protected call is one step, a callback is three (frame handed over, authority
  pointer read, delivery), and joining a worker is possible only when no callback of it is running.
- The transition table of docs/contracts/dyx3_mission.md refuses events outside their legal states; for `gate_lost`,
  `estop`, `ekf_reset`, `rpp_stale` and `rpp_ack_timeout` the code accepts them without effect, and the model follows
  the code.
- Results of writes, acknowledgements, clocks and gate decisions are inputs, quantified over.
- `hide` statements only shorten proofs.

Five findings, each with its exact condition:

- `Rtcm.LimitIsExact`: the parser's result is independent of the split exactly when its buffer limit is at least 1028
  bytes; `Rtcm.ShortBufferLosesFrame` is the failing stream for every smaller limit.
- `CdrEvolution.OlderBytesExact`: reading older bytes lists exactly the appended names as missing if and only if
  nothing was appended or the first appended field occupies a byte (`CdrVersions.OlderMessage` states it for the encode
  and decode calls under two versions). `CdrVersions.EmptyFieldNotMissing` is an appended field, of an empty message
  type, that is not listed.
- `CdrNested.NestedAppend`: with fields appended to a nested message that ends the encoding, older bytes still decode
  if and only if no appended field occupies a byte. `CdrNested.LaterFieldMisread` is a nested message that is not last:
  the appended field and the fields after it are read from the wrong bytes.
- `DashMeter.ClosedFormIffUnguarded`: the closed form for the toggle count holds after every input exactly when no tick
  needs more than 10001 toggles; `DashMeter.GuardStopsShort` is a tick that does.
- `Injection.JoinIsNeeded`: without joining the workers the generation fence alone does not protect a new authority.

## Model

| member | source | states |
|---|---|---|
| Crc24q.StepLinear | ros2_ws/src/dyx3_gnss_rtk/src/rtcm_parser.cpp:17-20 | one polynomial step of the register is linear over exclusive or |
| Crc24q.StepsLinear | ros2_ws/src/dyx3_gnss_rtk/src/rtcm_parser.cpp:17-20 | any number of steps is linear over exclusive or |
| Crc24q.StepsInjective | ros2_ws/src/dyx3_gnss_rtk/src/rtcm_parser.cpp:17-20 | no two registers step to the same one |
| Crc24q.SerialIsSteps | ros2_ws/src/dyx3_gnss_rtk/src/rtcm_parser.cpp:16-20 | clocking eight bits in one by one equals putting the byte on top and stepping eight times |
| Crc24q.ByteStepIsSteps | ros2_ws/src/dyx3_gnss_rtk/src/rtcm_parser.cpp:34-34 | one table lookup equals eight polynomial steps |
| Crc24q.TableIsSerial | ros2_ws/src/dyx3_gnss_rtk/src/rtcm_parser.cpp:30-36 | the table CRC equals the bit-serial CRC-24Q on every byte string |
| Crc24q.WireRoundTrip | ros2_ws/src/dyx3_gnss_rtk/src/rtcm_parser.cpp:63-65 | a register written as three big-endian bytes reads back |
| Crc24q.ResidueZero | ros2_ws/src/dyx3_gnss_rtk/src/rtcm_parser.cpp:62-66 | three trailer bytes match the CRC if and only if the CRC over the whole is zero |
| Crc24q.FillEntry | ros2_ws/src/dyx3_gnss_rtk/src/rtcm_parser.cpp:16-21 | the inner loop computes a table entry: eight steps of the shifted index |
| Crc24q.BuildTable | ros2_ws/src/dyx3_gnss_rtk/src/rtcm_parser.cpp:13-24 | the outer loop fills all 256 entries |
| Crc24q.Crc24qLoop | ros2_ws/src/dyx3_gnss_rtk/src/rtcm_parser.cpp:30-36 | the byte loop over the table returns the bit-serial CRC-24Q |
| CrcDivision.CrcIsRemainder | ros2_ws/src/dyx3_gnss_rtk/src/rtcm_parser.cpp:12-36 | for every message, message times x^24 plus the CRC is a carry-less multiple of 0x1864CFB, and the CRC is below 2^24 |
| CrcDivision.CrcExact | ros2_ws/src/dyx3_gnss_rtk/src/rtcm_parser.cpp:12-36 | a number below 2^24 is the CRC of a message if and only if message times x^24 plus it is a multiple of 0x1864CFB |
| Rtcm.LookStable | ros2_ws/src/dyx3_gnss_rtk/src/rtcm_parser.cpp:47-76 | bytes arriving later never change a decision already taken at the front of the buffer |
| Rtcm.ParseQuiescent | ros2_ws/src/dyx3_gnss_rtk/src/rtcm_parser.cpp:53-58 | what the scan leaves is empty or an incomplete frame of at most 1028 bytes, and scanning it again does nothing |
| Rtcm.ParseSplit | ros2_ws/src/dyx3_gnss_rtk/src/rtcm_parser.cpp:47-77 | scanning a stream equals scanning a part and then the retained tail with the rest |
| Rtcm.FeedIsParse | ros2_ws/src/dyx3_gnss_rtk/src/rtcm_parser.cpp:77-82 | with a limit of at least 1028 the overflow branch never fires |
| Rtcm.ChunkIndependence | ros2_ws/src/dyx3_gnss_rtk/src/rtcm_parser.cpp:43-84 | feeding in any pieces gives the frames, all four counters and the buffer of feeding the whole |
| Rtcm.LimitIsExact | ros2_ws/src/dyx3_gnss_rtk/src/rtcm_parser.cpp:78-82 | chunk independence holds if and only if the limit is at least 1028 |
| Rtcm.ShortBufferLosesFrame | ros2_ws/src/dyx3_gnss_rtk/src/rtcm_parser.cpp:78-82 | for every smaller limit, a longest frame split before its last byte is not emitted, and fed whole it is |
| Rtcm.EmittedAreValid | ros2_ws/src/dyx3_gnss_rtk/src/validated_frame.cpp:9-18 | every frame the parser emits is accepted by the validator |
| Rtcm.FramesRoundTrip | ros2_ws/src/dyx3_gnss_rtk/src/rtcm_parser.cpp:47-77 | any concatenation of accepted frames parses to exactly those frames with nothing skipped or kept |
| Rtcm.BuildIsValid | ros2_ws/src/dyx3_gnss_rtk/src/validated_frame.cpp:10-17 | every message of up to 1023 bytes has an accepted frame |
| Rtcm.ValidIffResidueZero | ros2_ws/src/dyx3_gnss_rtk/src/validated_frame.cpp:14-17 | a framed byte string is accepted if and only if its whole CRC is zero |
| Rtcm.NothingLost | ros2_ws/src/dyx3_gnss_rtk/src/rtcm_parser.cpp:47-77 | the stream is the consumed pieces followed by the retained tail |
| Rtcm.PiecesCounted | ros2_ws/src/dyx3_gnss_rtk/src/rtcm_parser.cpp:49-75 | framed pieces are the emitted frames, and all four counters count the pieces of their kind |
| Rtcm.ByteConservation | ros2_ws/src/dyx3_gnss_rtk/src/rtcm_parser.cpp:43-84 | over any run and any limit, bytes fed are bytes framed plus resync bytes plus the change in buffered bytes |
| Rtcm.RtcmParser.Scan | ros2_ws/src/dyx3_gnss_rtk/src/rtcm_parser.cpp:46-76 | the index loop emits and counts what the specification scan does, and stops where it stops |
| Rtcm.RtcmParser.FeedBytes | ros2_ws/src/dyx3_gnss_rtk/src/rtcm_parser.cpp:43-84 | a call changes buffer and counters, and returns frames, as the specification of feed says |
| RtcmGrammar.TrailerExact | ros2_ws/src/dyx3_gnss_rtk/src/rtcm_parser.cpp:62-66 | three trailer bytes are the checksum of what precedes them if and only if together they are a multiple of the generator |
| RtcmGrammar.ValidIsFrame | ros2_ws/src/dyx3_gnss_rtk/src/validated_frame.cpp:9-18 | the validator accepts exactly the transport frames: preamble 0xD3, ten length bits, that many bytes, and a trailer that completes a multiple of the generator |
| RtcmGrammar.BuildCarries | ros2_ws/src/dyx3_gnss_rtk/src/validated_frame.cpp:10-17 | the frame built around a message carries that message, with no reserved bits |
| RtcmGrammar.LookExact | ros2_ws/src/dyx3_gnss_rtk/src/rtcm_parser.cpp:47-76 | the scan waits exactly on an unfinished frame, takes exactly a whole frame and skips one byte otherwise, a checksum failure exactly when that byte is a preamble |
| RtcmGrammar.RetainedIsUnfinished | ros2_ws/src/dyx3_gnss_rtk/src/rtcm_parser.cpp:53-58 | what is kept between calls is nothing or the beginning of a frame that is not all there |
| RtcmGrammar.FindsFramesAfterNoise | ros2_ws/src/dyx3_gnss_rtk/src/rtcm_parser.cpp:47-77 | bytes without a preamble are skipped one by one and every frame after them is found |
| RtcmGrammar.OverflowKeepsNewest | ros2_ws/src/dyx3_gnss_rtk/src/rtcm_parser.cpp:77-82 | over the limit the oldest bytes go and are counted, and the newest stay |
| CdrLayout.PadIsLeast | tools/analysis/mission_bag_metrics.py:290-293 | the padding is the least number of bytes that brings the position to a multiple of the size |
| CdrLayout.PackIs | tools/analysis/mission_bag_metrics.py:295-298 | byte i of a packed integer is n / 256^i modulo 256, negative ones in two's complement |
| CdrLayout.ScalarLaid | tools/analysis/mission_bag_metrics.py:358-381 | a scalar is written if and only if its values fit, as its atoms, each aligned to its own size by the least number of zeros |
| CdrLayout.ItemsLaid | tools/analysis/mission_bag_metrics.py:300-305 | the same for the items of an array, primitives written in one go included |
| CdrLayout.ValueLaid | tools/analysis/mission_bag_metrics.py:358-376 | the same for a field of any shape, with its 32-bit count |
| CdrLayout.FieldsLaid | tools/analysis/mission_bag_metrics.py:379-381 | the same for all fields of a message, in order |
| CdrLayout.EncodeLayout | tools/analysis/mission_bag_metrics.py:384-388 | encoding succeeds if and only if the message is defined and its values fit; the bytes are 0, 1, 0, 0 and then the atoms of the fields, each at the first multiple of its own size after the one before, with zeros between |
| CdrReading.UnpackShows | tools/analysis/mission_bag_metrics.py:259-262 | a primitive is unpacked from bytes if and only if they are its octets; any byte but zero is true |
| CdrReading.PrimReads | tools/analysis/mission_bag_metrics.py:259-262 | in any buffer a primitive is read if and only if it stands at the first multiple of its size, and ends there |
| CdrReading.TextReads | tools/analysis/mission_bag_metrics.py:271-280 | in any buffer a string is read if and only if its length, bytes and terminator stand there |
| CdrReading.PrimsRead | tools/analysis/mission_bag_metrics.py:264-269 | an array of primitives is read if and only if its elements stand one after another |
| CdrReading.ValueReads | tools/analysis/mission_bag_metrics.py:313-324 | in any buffer a field of any shape is read if and only if it stands there |
| CdrReading.FieldsRead | tools/analysis/mission_bag_metrics.py:326-334 | in any buffer a message is read if and only if its fields stand one after another |
| CdrReading.DecodeMeans | tools/analysis/mission_bag_metrics.py:337-355 | a tolerant decoding of any bytes holds exactly the fields that stand in the buffer from the beginning on, lists the rest as missing and counts the bytes after the last |
| CdrDamage.ValueFails | tools/analysis/mission_bag_metrics.py:271-280 | reading a field fails if and only if a string in it ends inside the buffer without its terminator, everything before it standing |
| CdrDamage.DecodeFailsExactly | tools/analysis/mission_bag_metrics.py:337-355 | each refusal of a decoding if and only if: no little-endian header, undefined type, unterminated string, and in a strict decoding a missing field |
| CdrRoundTrip.PackRoundTrip | tools/analysis/mission_bag_metrics.py:259-262 | a primitive that fits its format unpacks to itself |
| CdrRoundTrip.ScalarReadsBack | tools/analysis/mission_bag_metrics.py:313-319 | a typed scalar, nested messages included, is written, and reads back at its position from any buffer that agrees with the bytes, ending where the writer ended |
| CdrRoundTrip.ListReadsBack | tools/analysis/mission_bag_metrics.py:320-323 | the same for fixed and variable arrays, empty ones included |
| CdrRoundTrip.ItemsReadBack | tools/analysis/mission_bag_metrics.py:375-376 | the same for the items of an array of strings or messages |
| CdrRoundTrip.ValueReadsBack | tools/analysis/mission_bag_metrics.py:313-323 | the same for a field of any shape |
| CdrRoundTrip.FieldsReadBack | tools/analysis/mission_bag_metrics.py:326-327 | the same for all fields of a message |
| CdrEvolution.RoundTrip | tools/analysis/mission_bag_metrics.py:337-388 | every well-typed value of every acyclic definition encodes, and decoding returns it with nothing missing and no extra bytes |
| CdrEvolution.DecodePrefix | tools/analysis/mission_bag_metrics.py:343-355 | decoding a buffer that agrees with an encoding as far as it goes yields exactly the fields that end inside it |
| CdrEvolution.TruncationSafe | tools/analysis/mission_bag_metrics.py:337-355 | an encoding cut after any number of bytes decodes to the fields that end within the cut and lists the rest as missing |
| CdrEvolution.StrictSame | tools/analysis/mission_bag_metrics.py:347-349 | the strict decoder agrees with the tolerant one when nothing is missing |
| CdrEvolution.WriteSplit | tools/analysis/mission_bag_metrics.py:379-381 | writing a field list is writing its first k fields and then the others at the position reached |
| CdrEvolution.NewerBytes | tools/analysis/mission_bag_metrics.py:337-355 | on message bodies: full-definition bytes read with the first k fields give the right values, nothing missing, and extra bytes equal to the appended byte count |
| CdrEvolution.FieldAtEnd | tools/analysis/mission_bag_metrics.py:252-257 | a field read at the end of the buffer is truncated exactly when it occupies a byte |
| CdrEvolution.DecodeAtEnd | tools/analysis/mission_bag_metrics.py:343-354 | decoding at the end of the buffer: missing starts at the first field that occupies a byte |
| CdrEvolution.OlderBytes | tools/analysis/mission_bag_metrics.py:337-355 | on message bodies: k-field bytes read with the full definition give those k values, and missing starts at the first appended field that occupies a byte |
| CdrEvolution.OlderBytesExact | tools/analysis/mission_bag_metrics.py:337-355 | on message bodies: exactly the appended names are missing if and only if nothing was appended or the first appended field occupies a byte |
| CdrVersions.FieldsWrite | tools/analysis/mission_bag_metrics.py:379-381 | two definition sets that define the messages below alike write the same bytes |
| CdrVersions.FieldsDecode | tools/analysis/mission_bag_metrics.py:337-355 | two definition sets that define the messages below alike decode every buffer alike |
| CdrVersions.OlderMessage | tools/analysis/mission_bag_metrics.py:337-388 | a message encoded with the older definitions and decoded with the newer ones: its k values, missing from the first appended field that occupies a byte, and exactly the appended names if and only if nothing was appended or the first appended field occupies a byte |
| CdrVersions.NewerMessage | tools/analysis/mission_bag_metrics.py:337-388 | a message encoded with the newer definitions and decoded with the older ones: the k known values, nothing missing, extra bytes equal to what the appended fields take |
| CdrVersions.EmptyFieldNotMissing | tools/analysis/mission_bag_metrics.py:337-355 | an appended field of an empty message type is not listed as missing |
| CdrNested.NestedReads | tools/analysis/mission_bag_metrics.py:326-327 | a nested message whose appended fields were not written, read at the end of the buffer: truncated exactly when an appended field occupies a byte, otherwise its written values are kept |
| CdrNested.NestedAppend | tools/analysis/mission_bag_metrics.py:337-388 | a message ending with a nested one that was appended to, encoded before and decoded after: nothing is missing and every written value is there if and only if no appended field occupies a byte, otherwise the nested message as a whole is missing |
| CdrNested.LaterFieldMisread | tools/analysis/mission_bag_metrics.py:326-355 | with the nested message not last, for every value the appended field takes the next field's byte, that field the one after it, and the last is missing |
| CdrCodec.CdrWriter.Align | tools/analysis/mission_bag_metrics.py:290-293 | pads the buffer with zeros to the next multiple, counted after the header |
| CdrCodec.CdrWriter.WritePrimitive | tools/analysis/mission_bag_metrics.py:295-298 | appends padding and the packed value, or fails when it does not fit |
| CdrCodec.CdrWriter.WritePrimitives | tools/analysis/mission_bag_metrics.py:300-305 | appends padding and all packed values, nothing for an empty list |
| CdrCodec.CdrWriter.WriteString | tools/analysis/mission_bag_metrics.py:307-310 | appends the length with its terminator, the bytes and the terminator |
| CdrCodec.PutScalar | tools/analysis/mission_bag_metrics.py:358-366 | the in-place writer appends what the specification writes |
| CdrCodec.PutItems | tools/analysis/mission_bag_metrics.py:375-376 | the item loop appends what the specification writes |
| CdrCodec.PutValue | tools/analysis/mission_bag_metrics.py:358-376 | the in-place writer of a field appends what the specification writes, and fails when it does |
| CdrCodec.PutStruct | tools/analysis/mission_bag_metrics.py:379-381 | the field loop appends what the specification writes |
| CdrCodec.EncodeMessage | tools/analysis/mission_bag_metrics.py:384-388 | returns the specification's encoding |
| CdrCodec.CdrReader.Align | tools/analysis/mission_bag_metrics.py:247-250 | moves the position past the padding |
| CdrCodec.CdrReader.ReadPrimitive | tools/analysis/mission_bag_metrics.py:259-262 | reads and moves as the specification, or reports truncation |
| CdrCodec.CdrReader.ReadPrimitives | tools/analysis/mission_bag_metrics.py:264-269 | the same for an array of primitives |
| CdrCodec.CdrReader.ReadString | tools/analysis/mission_bag_metrics.py:271-279 | the same for a string, a missing terminator being an error |
| CdrCodec.TakeScalar | tools/analysis/mission_bag_metrics.py:313-319 | the in-place reader of a scalar returns what the specification reads |
| CdrCodec.TakeItems | tools/analysis/mission_bag_metrics.py:323-323 | the item loop returns what the specification reads |
| CdrCodec.TakeValue | tools/analysis/mission_bag_metrics.py:313-323 | the in-place reader of a field returns what the specification reads |
| CdrCodec.TakeStruct | tools/analysis/mission_bag_metrics.py:326-327 | the field loop returns what the specification reads |
| CdrCodec.DecodeMessage | tools/analysis/mission_bag_metrics.py:337-355 | the decode loop returns the specification's decoding, tolerant or strict |
| SprayFsm.SpraySafetyStateMachine.DoTick | tools/gate4/spray_dxp/spray_fsm.py:155-205 | a tick changes the machine and dispatches as the specification says |
| SprayFsm.SpraySafetyStateMachine.DoOnAck | tools/gate4/spray_dxp/spray_fsm.py:207-237 | the same for an acknowledgement |
| SprayFsm.SpraySafetyStateMachine.DoEventReset | tools/gate4/spray_dxp/spray_fsm.py:239-255 | the same for an event reset |
| SprayFsm.SpraySafetyStateMachine.DoNormalTick | tools/gate4/spray_dxp/spray_fsm.py:257-289 | the same for the enabled and safe branch |
| SprayFsm.SpraySafetyStateMachine.DoDriveOffDisabled | tools/gate4/spray_dxp/spray_fsm.py:291-299 | the same for the disabled branch |
| SprayFsm.SpraySafetyStateMachine.DoDriveOffSafety | tools/gate4/spray_dxp/spray_fsm.py:301-323 | the same for the unsafe branch |
| SprayFsm.SpraySafetyStateMachine.DoCheckTimeout | tools/gate4/spray_dxp/spray_fsm.py:344-361 | the same for the ack timeout |
| SprayDuty.BackoffIs | tools/gate4/spray_dxp/spray_fsm.py:337-338 | the wait is the smaller of the doubled base and the maximum, and not positive exactly when one of the parameters is not |
| SprayDuty.TickSends | tools/gate4/spray_dxp/spray_fsm.py:155-205 | a tick dispatches ON if and only if OFF is confirmed and it is desired, safe and enabled; OFF if and only if ON lacks permission or an answer, the output is unknown, or a failed OFF is due; with the next number, forced if and only if unsafe or disabled and not answering a late ON |
| SprayDuty.TickRests | tools/gate4/spray_dxp/spray_fsm.py:155-205 | a tick that dispatches nothing moves only a late OFF to its wait and a confirmed OFF to DISABLED |
| SprayDuty.ResetRetries | tools/gate4/spray_dxp/spray_fsm.py:239-255 | after an event reset the next tick repeats a failed OFF, and the backoff starts over |
| SprayDuty.AckDecides | tools/gate4/spray_dxp/spray_fsm.py:207-237 | an ack changes something only while its own command is pending, and then decides the next state |
| SprayDuty.RunRemembers | tools/gate4/spray_dxp/spray_fsm.py:164-187 | in every run the edges are those against the latest tick, and a pending command is as old as its dispatch |
| SprayDuty.OnNeedsPermission | tools/gate4/spray_dxp/spray_fsm.py:257-323 | in every run ON is commanded only while the latest tick was desired, safe and enabled |
| SprayDuty.StopsAtOnce | tools/gate4/spray_dxp/spray_fsm.py:301-323 | in every run a tick that lacks a permission leaves the machine not commanded and its latest command an OFF, dispatched in the same tick if ON was commanded |
| SprayDuty.StartsWhenReady | tools/gate4/spray_dxp/spray_fsm.py:270-273 | in every run a permitting tick dispatches ON if and only if OFF is confirmed |
| SprayDuty.StaysClosed | tools/gate4/spray_dxp/spray_fsm.py:155-237 | in every run a valve that executed the latest OFF stays closed until a fully permitting tick |
| SprayLink.Reachable | tools/gate4/spray_dxp/spray_fsm.py:155-361 | every reachable state of machine and link keeps the joint invariant of state, log, acks and wire |
| SprayLink.ConfirmedMeansPhysical | tools/gate4/spray_dxp/spray_fsm.py:207-237 | OFF_CONFIRMED or DISABLED implies the valve is closed and ON_CONFIRMED that it is open, with late, lost and repeated acks and ON re-asserts |
| SprayLink.ReassertKeeps | tools/gate4/spray_dxp/spray_controller_node.py:2602-2621 | an ON re-sent outside the machine while it is commanded keeps the invariant |
| SprayLink.LogSafety | tools/gate4/spray_dxp/spray_fsm.py:257-335 | every ON directly follows an acked OFF and comes from a desired, safe and enabled tick; no two ONs are adjacent; each ack takes effect at most once |
| SprayLink.DisabledTick | tools/gate4/spray_dxp/spray_fsm.py:198-200 | after a disabled tick the state is OFF_PENDING or DISABLED |
| SprayLink.Play | tools/gate4/spray_dxp/spray_fsm.py:155-255 | a whole run of the object against a link is the run of the theorems |
| SprayTiming.RetryUpperBound | tools/gate4/spray_dxp/spray_fsm.py:337-361 | with ticks at most T apart, an unconfirmed OFF is confirmed or re-sent within ack_timeout + backoff_max + 2T |
| SprayTiming.RetryLowerBound | tools/gate4/spray_dxp/spray_fsm.py:301-361 | an undisturbed re-send after the k-th consecutive failure waits at least min(base times 2 to the k, max) |
| SprayTiming.DisabledBypassesBackoff | tools/gate4/spray_dxp/spray_fsm.py:291-299 | a disabled tick in recovery re-sends OFF at once |
| Injection.InjectionAuthority.DoSwitchTo | ros2_ws/src/dyx3_gnss_rtk/src/injection_authority.cpp:5-20 | new generation, old sink closed, only the new one selected |
| Injection.InjectionAuthority.DoStop | ros2_ws/src/dyx3_gnss_rtk/src/injection_authority.cpp:22-27 | new generation, nothing selected, sink closed |
| Injection.InjectionAuthority.DoDeliver | ros2_ws/src/dyx3_gnss_rtk/src/injection_authority.cpp:29-33 | delivers exactly when a sink is selected and the generation is current |
| Injection.OnlyOwnSink | ros2_ws/src/dyx3_gnss_rtk/src/rtk_node.cpp:204-298 | in every interleaving a frame reaches only the sink selected for its worker's generation in its worker's own authority |
| Injection.NoneAfterStop | ros2_ws/src/dyx3_gnss_rtk/src/rtk_node.cpp:267-274 | nothing is delivered through an authority after it was stopped or replaced |
| Injection.NoStaleCallback | ros2_ws/src/dyx3_gnss_rtk/src/rtk_node.cpp:372-376 | a callback in progress always belongs to the current authority and the installed sinks |
| Injection.SinksExclusive | ros2_ws/src/dyx3_gnss_rtk/src/injection_authority.cpp:8-18 | the two sinks are never open together and only the selected one is open |
| Injection.JoinIsNeeded | ros2_ws/src/dyx3_gnss_rtk/src/rtk_node.cpp:267-274 | without the join there is a run in which an old callback passes the generation check of the new authority |
| InjectionDuty.FenceExact | ros2_ws/src/dyx3_gnss_rtk/src/injection_authority.cpp:5-33 | after any calls a generation is admitted if and only if it is the one the switch in force returned, for the transport of that switch; only that sink holds its device |
| InjectionDuty.DeliversExactly | ros2_ws/src/dyx3_gnss_rtk/src/injection_authority.cpp:29-33 | in every run a callback delivers the frame that last arrived at its worker, through its own authority and transport, if and only if that authority has not been stopped; nothing else delivers |
| UsbSink.FramesNeverRestart | ros2_ws/src/dyx3_gnss_rtk/src/transport_sink.cpp:81-113 | in every run, whatever writes return, each open session of the device received exactly the writes of the deliveries that reached it, each from the first byte of its own frame; all but the last write of a session are complete, and the last one too while it is open; the counters count those writes |
| UsbSink.WritesExact | ros2_ws/src/dyx3_gnss_rtk/src/transport_sink.cpp:81-102 | there is exactly one write for every delivery that reaches the device, in the order of the deliveries, as far as its write loop got |
| UsbSink.SessionBytes | ros2_ws/src/dyx3_gnss_rtk/src/transport_sink.cpp:103-107 | a closed session holds whole frames and at most one cut frame at the very end, an open one whole frames only |
| UsbSink.HoldOff | ros2_ws/src/dyx3_gnss_rtk/src/transport_sink.cpp:60-70 | before the reopen time nothing touches the device |
| UsbSink.FailedDeliveryHoldsOff | ros2_ws/src/dyx3_gnss_rtk/src/transport_sink.cpp:103-107 | a failed delivery closes the device and sets the reopen time |
| UsbSink.UsbSerialSink.OpenDevice | ros2_ws/src/dyx3_gnss_rtk/src/transport_sink.cpp:60-79 | changes descriptor, counters and reopen time as the specification says |
| UsbSink.UsbSerialSink.CloseDevice | ros2_ws/src/dyx3_gnss_rtk/src/transport_sink.cpp:115-127 | closes the descriptor and changes nothing else modelled |
| UsbSink.UsbSerialSink.WriteAll | ros2_ws/src/dyx3_gnss_rtk/src/transport_sink.cpp:85-102 | the partial-write loop sends a growing prefix of the frame and finishes exactly when all of it went out |
| UsbSink.UsbSerialSink.DeliverFrame | ros2_ws/src/dyx3_gnss_rtk/src/transport_sink.cpp:81-113 | a delivery changes sink and device as the specification says |
| UsbSink.UsbSerialSink.BreakDevice | ros2_ws/src/dyx3_gnss_rtk/src/transport_sink.cpp:139-150 | a failed readback closes the open device and sets the reopen time |
| UsbSink.UsbSerialSink.Play | ros2_ws/src/dyx3_gnss_rtk/src/transport_sink.cpp:60-127 | a whole run of the object is the run of the theorems |
| SinkDuty.PushExact | ros2_ws/src/dyx3_gnss_rtk/src/transport_sink.cpp:81-108 | the write loop gets through the frame if the attempts before the first failure have room for it, and else exactly as far |
| SinkDuty.CallExact | ros2_ws/src/dyx3_gnss_rtk/src/transport_sink.cpp:60-127 | after any call the device is open if and only if the call found or made it open and nothing failed; a failure is counted and starts the hold-off |
| SinkDuty.DeliveryExact | ros2_ws/src/dyx3_gnss_rtk/src/transport_sink.cpp:81-113 | a delivery counts if and only if the device is open for it and takes the whole frame, which the open session then has |
| SinkDuty.HeldOffSince | ros2_ws/src/dyx3_gnss_rtk/src/transport_sink.cpp:60-113 | in every run the device is held off until the reopen delay after the latest failure, and the failures are counted |
| CorrectionPath.OwnFramesOnly | ros2_ws/src/dyx3_gnss_rtk/src/rtk_node.cpp:204-376 | protocol, sinks and validator in one run: the USB sink of an activation is handed exactly the frames its authority delivered, in order, validated and from workers of that activation, and every write is the beginning of one of them |
| CorrectionPath.OneSession | ros2_ws/src/dyx3_gnss_rtk/src/rtk_node.cpp:267-274 | over all activations at most one USB session is open, and none of a stopped or replaced authority |
| CorrectionPath.NothingAfterStop | ros2_ws/src/dyx3_gnss_rtk/src/rtk_node.cpp:267-298 | a stop closes the session, and whatever follows nothing reaches the device through that activation's sink |
| CorrectionPath.ReceiverGets | ros2_ws/src/dyx3_gnss_rtk/src/transport_sink.cpp:81-113 | a fresh parser fed the bytes of any session finds exactly the frames whose writes were completed; an open session leaves it with nothing pending |
| CorrectionPath.CutFrameWaits | ros2_ws/src/dyx3_gnss_rtk/src/rtcm_parser.cpp:53-58 | the parser waits on any proper beginning of a valid frame |
| MissionFsm.Lifecycle.DoRecord | ros2_ws/src/dyx3_mission/src/mission_fsm.cpp:108-112 | appends, keeping the newest 256 records |
| MissionFsm.Lifecycle.DoGo | ros2_ws/src/dyx3_mission/src/mission_fsm.cpp:118-145 | a transition, its record and the life of the re-engage marks |
| MissionFsm.Lifecycle.DoRefuse | ros2_ws/src/dyx3_mission/src/mission_fsm.cpp:147-165 | a refusal changes only the log |
| MissionFsm.Lifecycle.DoStep | ros2_ws/src/dyx3_mission/src/mission_fsm.cpp:183-191 | a step before motion |
| MissionFsm.Lifecycle.DoStart | ros2_ws/src/dyx3_mission/src/mission_fsm.cpp:193-202 | start, with its refusals and the new mission id |
| MissionFsm.Lifecycle.DoEngaged | ros2_ws/src/dyx3_mission/src/mission_fsm.cpp:219-228 | engaged, apart from a re-engage and within one |
| MissionFsm.Lifecycle.DoReengage | ros2_ws/src/dyx3_mission/src/mission_fsm.cpp:266-277 | re-engage |
| MissionFsm.Lifecycle.DoReengageGate | ros2_ws/src/dyx3_mission/src/mission_fsm.cpp:279-289 | the gate after a re-engage |
| MissionFsm.Lifecycle.DoResume | ros2_ws/src/dyx3_mission/src/mission_fsm.cpp:253-264 | resume |
| MissionFsm.Lifecycle.DoRppEvent | ros2_ws/src/dyx3_mission/src/mission_fsm.cpp:230-389 | the path follower's reports, in every state |
| MissionFsm.Lifecycle.DoInterrupt | ros2_ws/src/dyx3_mission/src/mission_fsm.cpp:246-400 | operator and safety interruptions, in every state |
| MissionFsm.Lifecycle.DoHandle | ros2_ws/src/dyx3_mission/src/mission_fsm.cpp:193-400 | every event changes the machine as the specification says |
| MissionDuty.EventConforms | docs/contracts/dyx3_mission.md:85-109 | every event in every state does and answers exactly what the transition table says, with its reason and gate reason |
| MissionDuty.RunConforms | ros2_ws/src/dyx3_mission/src/mission_fsm.cpp:193-400 | so does every event of every run, and the re-engage marks follow |
| MissionDuty.StopLasts | ros2_ws/src/dyx3_mission/src/mission_fsm.cpp:193-202 | in every run nothing but an accepted start changes the report of a stopped machine |
| MissionDuty.StopsForGood | ros2_ws/src/dyx3_mission/src/mission_fsm.cpp:299-361 | in every run an emergency stop or abort in any active state ends in ABORTED, a lost gate before motion and an estimator reset in ARMING or ENGAGING in ERROR, a complete path in COMPLETED, each with its reason, and nothing reaches RUNNING before the next accepted start |
| MissionDuty.PausesAtOnce | ros2_ws/src/dyx3_mission/src/mission_fsm.cpp:330-377 | in every run a pause takes effect with its event, an estimator reset in READY included, with its reason, and RUNNING follows only through the operator |
| MissionDuty.RunningExactly | ros2_ws/src/dyx3_mission/src/mission_fsm.cpp:230-289 | a run is RUNNING if and only if one of the three gated entries happened and no interrupting event since |
| MissionHistory.Milestones | ros2_ws/src/dyx3_mission/src/mission_fsm.cpp:183-228 | in every reachable state the milestones it presupposes (all of start, loaded, placed, armed, engaged in READY, RUNNING, PAUSED and a re-engage) were passed in that order since the latest accepted start |
| MissionHistory.MotionIsGated | ros2_ws/src/dyx3_mission/src/mission_fsm.cpp:230-289 | RUNNING was entered through a passing gate after all milestones, and no interrupting event has come since |
| MissionHistory.PauseNeedsOperator | ros2_ws/src/dyx3_mission/src/mission_fsm.cpp:246-277 | an active execution leaves PAUSED only through resume, re-engage or a new start |
| MissionHistory.ReadyOnlyOnce | ros2_ws/src/dyx3_mission/src/mission_fsm.cpp:266-289 | once running, paused or re-engaging, an execution never is READY or in an earlier step again |
| MissionHistory.TerminalIsFinal | ros2_ws/src/dyx3_mission/src/mission_fsm.cpp:193-202 | only an accepted start leaves a terminal state |
| MissionHistory.MarksLocal | ros2_ws/src/dyx3_mission/src/mission_fsm.cpp:129-133 | re-engage marks live only in ARMING and ENGAGING, the confirmation only in ENGAGING |
| MissionHistory.ReasonsTell | ros2_ws/src/dyx3_mission/src/mission_fsm.cpp:118-138 | in every reachable state a reason is reported only in PAUSED, ABORTED or ERROR, pauses and aborts name one of their own causes, and a guard reason comes with the reason it maps to |
| MissionHistory.LogIsTail | ros2_ws/src/dyx3_mission/src/mission_fsm.cpp:108-181 | the log is the newest part, up to 256 records, of one record per event |
| MissionHistory.LogChains | ros2_ws/src/dyx3_mission/src/mission_fsm.cpp:108-181 | retained records are numbered consecutively, chain from/to, end in the present state, and refusals change nothing |
| MissionHistory.MissionIdCounts | ros2_ws/src/dyx3_mission/src/mission_fsm.cpp:200-201 | the mission id is the number of accepted starts modulo 2 to the 32 |
| MissionHistory.Play | ros2_ws/src/dyx3_mission/src/mission_fsm.cpp:193-400 | a whole run of the object, with its results, is the run of the theorems |
| Px4Sequencer.Sequencing.DoBeginExecution | ros2_ws/src/dyx3_mission/src/px4_sequencer.cpp:35-42 | forgets everything but the id counter |
| Px4Sequencer.Sequencing.DoEngage | ros2_ws/src/dyx3_mission/src/px4_sequencer.cpp:44-47 | queues an engage operation unless releasing |
| Px4Sequencer.Sequencing.DoRelease | ros2_ws/src/dyx3_mission/src/px4_sequencer.cpp:49-65 | abandons, queues offboard-off and disarm as owed, and a later force adds the disarm |
| Px4Sequencer.Sequencing.DoNext | ros2_ws/src/dyx3_mission/src/px4_sequencer.cpp:79-94 | issues the next request when nothing unabandoned is in flight |
| Px4Sequencer.Sequencing.DoNoteArm | ros2_ws/src/dyx3_mission/src/px4_sequencer.cpp:96-107 | the arm bookkeeping |
| Px4Sequencer.Sequencing.DoOnResponse | ros2_ws/src/dyx3_mission/src/px4_sequencer.cpp:109-123 | the outcome of a response, none for an unknown id |
| Px4Sequencer.Sequencing.DoOnTick | ros2_ws/src/dyx3_mission/src/px4_sequencer.cpp:125-142 | the erase-while-iterating loop removes exactly the overdue flights and reports them in order |
| Px4Runs.Discipline | ros2_ws/src/dyx3_mission/src/px4_sequencer.cpp:35-142 | in every run: one unabandoned request in flight, ids 1, 2, ... never reused, one outcome each, offboard-off before disarm, nothing engaged after a release |
| Px4Runs.ReleaseIsFinal | ros2_ws/src/dyx3_mission/src/px4_sequencer.cpp:44-65 | no engage operation is issued between a release and the next execution |
| Px4Account.RunIsLegal | ros2_ws/src/dyx3_mission/src/px4_sequencer.cpp:35-142 | the runs of the account are the runs of the discipline |
| Px4Account.AllTracked | ros2_ws/src/dyx3_mission/src/px4_sequencer.cpp:79-142 | at every moment a request is in flight with its deadline and mark, or its first end has been reported |
| Px4Account.OutcomesAccounted | ros2_ws/src/dyx3_mission/src/px4_sequencer.cpp:109-142 | in every run the outcomes are exactly these: for every request, the first response with its id, accepted if and only if that response was and with its reason, or the first tick at its limit, timed out; abandoned if and only if a release came between issue and answer |
| Px4Requests.RequestsInOrder | ros2_ws/src/dyx3_mission/src/px4_sequencer.cpp:44-65 | in every run the requests issued and queued are the steps asked for in order, and after a release OFFBOARD off if and only if OFFBOARD was requested, then disarms, at least one if and only if owed |
| Px4Requests.PollIssues | ros2_ws/src/dyx3_mission/src/px4_sequencer.cpp:79-94 | in every run a poll issues the head of the queue if and only if every earlier request has ended or is abandoned |
| Px4Ownership.OwnershipExact | ros2_ws/src/dyx3_mission/src/px4_sequencer.cpp:90-107 | before a release, the arm is owned if and only if some arm of this execution was not definitely refused |
| Px4Ownership.ArmIsReleased | ros2_ws/src/dyx3_mission/src/px4_sequencer.cpp:49-65 | an arm not definitely refused is followed by a disarm that stays owed until it is issued |
| Px4Drain.ReleaseDrains | ros2_ws/src/dyx3_mission/src/px4_sequencer.cpp:49-142 | from every reachable state, a release under way or not, also between the two halves of a poll: once both timeouts plus three polling gaps have passed since the latest release (the first, or a forced one on top), nothing is queued or in flight |
| PointJournal.SettleKeeps | ros2_ws/src/dyx3_mission/src/point_journal.cpp:47-89 | one position, re-evaluated until it resolves nothing more: every event it emits is justified by the positions from the point becoming active up to this one |
| PointJournal.FinishKeeps | ros2_ws/src/dyx3_mission/src/point_journal.cpp:109-118 | a finish completes a capture in progress, fails the rest and leaves nothing open; each is justified up to the last position seen |
| PointJournal.SkipKeeps | ros2_ws/src/dyx3_mission/src/point_journal.cpp:91-101 | a skip resolves the active point only, whose stretch ends with the last position seen |
| PointJournal.RunIsExplained | ros2_ws/src/dyx3_mission/src/point_journal.cpp:26-118 | in any run from point k, indices are consecutive from k, and the positions justify each event over the whole stretch from the point becoming active to the input that emitted the event; a point still active and not being captured was neither near any position held against it nor bypassed |
| PointJournal.FinishedRun | ros2_ws/src/dyx3_mission/src/point_journal.cpp:26-118 | a finished run emits exactly k to n-1; a completed point's error is the first minimum over its capture, which lasts until the rover left the radius or to the last position; a failed point was never within the radius from becoming active to the bypass or to the last position; the stretches follow each other |
| PointJournal.EvidenceDecides | ros2_ws/src/dyx3_mission/src/point_journal.cpp:47-118 | the positions held against a point and the input that resolved it decide its outcome, error and position: no other event has a justification |
| PointJournal.DistanceIsEuclidean | ros2_ws/src/dyx3_mission/src/point_journal.cpp:56-62 | the squared distance at an offset of (x, y) is x * x + y * y |
| PointJournal.Recorder.Evaluate | ros2_ws/src/dyx3_mission/src/point_journal.cpp:54-86 | one pass of the loop settles the position or resolves exactly one point |
| PointJournal.Recorder.Update | ros2_ws/src/dyx3_mission/src/point_journal.cpp:47-89 | the loop terminates and equals the specification |
| PointJournal.Recorder.SkipPoint | ros2_ws/src/dyx3_mission/src/point_journal.cpp:91-101 | equals the specification of a skip |
| PointJournal.Recorder.RestoreResolved | ros2_ws/src/dyx3_mission/src/point_journal.cpp:103-107 | accepted exactly on an unmoved journal for at most n points, and then continues there |
| PointJournal.Recorder.FinishPath | ros2_ws/src/dyx3_mission/src/point_journal.cpp:109-118 | equals the specification of a finish |
| PointJournal.MakeRecorder | ros2_ws/src/dyx3_mission/src/point_journal.cpp:9-19 | refuses a radius that is not finite and positive, and keeps the must-hit points in order |
| PointJournal.Play | ros2_ws/src/dyx3_mission/src/point_journal.cpp:47-118 | a whole run of the object is the run of the theorems |
| MissionProgress.UintExact | ros2_ws/src/dyx3_mission/src/mission_progress.cpp:83-96 | a number is read exactly when it has no leading zero and fits 32 bits, and its value is the decimal value: the 64-bit accumulator never wraps |
| MissionProgress.UintReadsBack | ros2_ws/src/dyx3_mission/src/mission_progress.cpp:83-96 | a written number reads back |
| MissionProgress.StringReadsBack | ros2_ws/src/dyx3_mission/src/mission_progress.cpp:71-82 | a plain string reads back |
| MissionProgress.ListReadsBack | ros2_ws/src/dyx3_mission/src/mission_progress.cpp:171-180 | a point list of any length reads back |
| MissionProgress.MembersReadBack | ros2_ws/src/dyx3_mission/src/mission_progress.cpp:154-189 | the member loop reads a written record from any member on |
| MissionProgress.RoundTrip | ros2_ws/src/dyx3_mission/src/mission_progress.cpp:128-204 | parsing the serialisation of a valid record returns it |
| MissionProgress.AcceptedIsValid | ros2_ws/src/dyx3_mission/src/mission_progress.cpp:142-204 | every accepted text holds a valid record |
| MissionProgress.Reserialised | ros2_ws/src/dyx3_mission/src/mission_progress.cpp:128-204 | every accepted text re-serialises to a text that parses to the same record |
| MissionProgress.SurvivesIffValid | ros2_ws/src/dyx3_mission/src/mission_progress.cpp:128-204 | a record survives being written and read if and only if it is valid |
| ProgressGrammar.StringIs | ros2_ws/src/dyx3_mission/src/mission_progress.cpp:71-82 | a string is read if and only if it stands there in quotes, printable ASCII without quote and backslash |
| ProgressGrammar.NumberIs | ros2_ws/src/dyx3_mission/src/mission_progress.cpp:83-96 | a number is read if and only if a decimal numeral without leading zero of at most 4294967295 stands there |
| ProgressGrammar.ListIs | ros2_ws/src/dyx3_mission/src/mission_progress.cpp:171-179 | a list is read if and only if it stands there |
| ProgressGrammar.AcceptsExactly | ros2_ws/src/dyx3_mission/src/mission_progress.cpp:142-204 | a text is read as a record if and only if it is an object with each of the eight keys, as spelled, once, in any order and spacing, with the values of the record and schema 1, a 64-digit lower-case hex id, a lifecycle state name and the points 0 to k-1 |
| ProgressGrammar.ObjectAnswered | ros2_ws/src/dyx3_mission/src/mission_progress.cpp:190-201 | an object with distinct keys is answered by its first complaint in the order of the checks |
| ProgressGrammar.WrittenExactly | ros2_ws/src/dyx3_mission/src/mission_progress.cpp:128-140 | a record is written as that object, keys in their order, without blanks, and a line feed |
| ProgressReader.Reader.Ws | ros2_ws/src/dyx3_mission/src/mission_progress.cpp:55-58 | the cursor skips exactly the leading space |
| ProgressReader.Reader.EatChar | ros2_ws/src/dyx3_mission/src/mission_progress.cpp:59-66 | equals the specification |
| ProgressReader.Reader.PeekChar | ros2_ws/src/dyx3_mission/src/mission_progress.cpp:67-70 | equals the specification |
| ProgressReader.Reader.Text | ros2_ws/src/dyx3_mission/src/mission_progress.cpp:71-82 | equals the specification |
| ProgressReader.Reader.Uint32 | ros2_ws/src/dyx3_mission/src/mission_progress.cpp:83-96 | equals the specification, without overflow at any step |
| ProgressReader.Reader.AtEnd | ros2_ws/src/dyx3_mission/src/mission_progress.cpp:97-100 | whether only space is left |
| ProgressReader.Reader.NumberList | ros2_ws/src/dyx3_mission/src/mission_progress.cpp:171-180 | equals the specification |
| ProgressReader.Reader.Member | ros2_ws/src/dyx3_mission/src/mission_progress.cpp:158-188 | equals the specification, repeated and unknown keys included |
| ProgressReader.IsLowerHex64 | ros2_ws/src/dyx3_mission/src/mission_progress.cpp:25-31 | decides the 64 lower-case hex digits |
| ProgressReader.IsInOrder | ros2_ws/src/dyx3_mission/src/mission_progress.cpp:198-201 | decides whether the points are 0 to k-1 |
| ProgressReader.ParseProgress | ros2_ws/src/dyx3_mission/src/mission_progress.cpp:142-204 | returns the record or the first error as the specification says |
| ProgressReader.SerializeProgress | ros2_ws/src/dyx3_mission/src/mission_progress.cpp:128-140 | returns the specification's text |
| AppPlan.CleanRun | backend/src/dyx3_backend/mission/app_plan.py:167-178 | the validation loop returns the cleaned points or the first error |
| AppPlan.InsertPoints | backend/src/dyx3_backend/mission/app_plan.py:108-109 | the inserted points of a long step |
| AppPlan.DoDensify | backend/src/dyx3_backend/mission/app_plan.py:95-112 | the densify loop with its budget equals the specification |
| AppPlan.MeasureRun | backend/src/dyx3_backend/mission/app_plan.py:187-191 | adds the length of a run |
| AppPlan.DoJoinRun | backend/src/dyx3_backend/mission/app_plan.py:179-202 | snap, measure, densify and boundary merge equal the specification |
| AppPlan.DoAddRun | backend/src/dyx3_backend/mission/app_plan.py:150-202 | one pass of the loop equals the specification, with its errors in order |
| AppPlan.CompilePlan | backend/src/dyx3_backend/mission/app_plan.py:140-204 | the compile loop equals the specification |
| AppPlanDense.UnitStep | backend/src/dyx3_backend/mission/app_plan.py:108-109 | consecutive points of a split step are one equal share of its length apart |
| AppPlanDense.StepKeeps | backend/src/dyx3_backend/mission/app_plan.py:102-111 | a densified step keeps its length and has no step over 5 m |
| AppPlanDense.DenseKeeps | backend/src/dyx3_backend/mission/app_plan.py:95-112 | so does a densified run, which keeps its first and last points |
| AppPlanDense.VertexStored | backend/src/dyx3_backend/mission/app_plan.py:111-111 | every vertex of a run is stored unchanged |
| AppPlanDense.InsertedStored | backend/src/dyx3_backend/mission/app_plan.py:105-109 | between two vertices are exactly the inserted points of their step |
| AppPlanDense.StoredFlags | backend/src/dyx3_backend/mission/app_plan.py:98-111 | stored points carry the run's spray, and must-hit only where a vertex does |
| AppPlanDense.BudgetSound | backend/src/dyx3_backend/mission/app_plan.py:106-107 | the budget refuses only runs too long once split, and changes nothing otherwise |
| AppPlanRuns.AcceptedIff | backend/src/dyx3_backend/mission/app_plan.py:140-204 | a submission is accepted if and only if its runs are well formed and its densified polyline has at most 200000 points, and what is stored is that polyline |
| RunSplit.BlocksAreMaximal | ros2_ws/src/dyx3_rpp/src/path_conditioner.cpp:190-202 | the blocks partition a polyline into non-empty uniform stretches, neighbours differing |
| RunSplit.GroupByFlag | ros2_ws/src/dyx3_rpp/src/path_conditioner.cpp:190-202 | the grouping loop returns the maximal equal-spray stretches |
| RunSplit.SplitRunsByFlag | ros2_ws/src/dyx3_rpp/src/path_conditioner.cpp:189-213 | the path follower's split returns each stretch prefixed by the previous one's last point with the stretch's own flag |
| AppPlanRecovery.RunRecovery | backend/src/dyx3_backend/mission/app_plan.py:143-202 | the maximal equal-spray blocks are the runs, one each and in order; each, prefixed by the previous block's last point, is the run snapped and densified, up to the merged must-hit |
| AppPlanRecovery.FollowerRecovers | ros2_ws/src/dyx3_rpp/src/path_conditioner.cpp:189-213 | the path follower's split of an accepted plan gives every submitted run back, on the spots and with the spray of the run snapped and densified |
| AppPlanRecovery.LengthConserved | backend/src/dyx3_backend/mission/app_plan.py:187-202 | every stored step is at most 5 m, and the polyline's length is the reported mark plus transit length |
| AppPlanRecovery.SnapReported | backend/src/dyx3_backend/mission/app_plan.py:179-186 | the reported snap is the largest gap between a run's end and the next run's start, and at most 10 mm |
| AppPlanRecovery.VertexSurvives | backend/src/dyx3_backend/mission/app_plan.py:179-202 | every submitted vertex is stored, in order, must-hit kept, in place except a later run's first, moved at most 10 mm |
| AppPlanRecovery.BoundaryShared | backend/src/dyx3_backend/mission/app_plan.py:194-199 | a later run's first vertex is the stored last vertex of the run before |
| AppPlanRecovery.InsertedOnSegment | backend/src/dyx3_backend/mission/app_plan.py:98-109 | a stored point between two vertices divides their segment, with the run's spray and no must-hit |
| AppPlanRecovery.MustHitIsVertex | backend/src/dyx3_backend/mission/app_plan.py:195-198 | a stored must-hit point is a submitted must-hit vertex |
| AppPlanReport.CleanIs | backend/src/dyx3_backend/mission/app_plan.py:164-175 | cleaning a run fails with the first fault of its points, or gives each point as submitted: coordinates within 10000 m, flags 1 and 3 in a mark, 0 and 2 in a travel run |
| AppPlanReport.VertexPlace | backend/src/dyx3_backend/mission/app_plan.py:95-112 | every vertex is stored after as many points as the least splits of the steps before it make |
| AppPlanReport.StoredPoint | backend/src/dyx3_backend/mission/app_plan.py:95-202 | an accepted plan point by point: its size, every vertex in its place, and between two vertices the equal parts of their step, as few as 5 m allow, with the run's spray and no must-hit |
| AppPlanReport.FaultsDecide | backend/src/dyx3_backend/mission/app_plan.py:150-202 | the first k runs are accepted if and only if none of them has a fault |
| AppPlanReport.RefusedExactly | backend/src/dyx3_backend/mission/app_plan.py:140-204 | a submission is refused with an error if and only if that is its first fault, in the order of the checks: 50000 submitted and 200000 stored points, 10 mm gaps |
| AppPlanReport.ReportExact | backend/src/dyx3_backend/mission/app_plan.py:143-193 | the reported mark length adds the steps of the mark runs, the transit length those of the travel runs, and the densified steps those over 5 m |
| DashMeter.GridClosed | tools/gate4/spray_dxp/spray_modes.py:182-187 | the closed form of the ideal alternating grid |
| DashMeter.CountUnique | tools/gate4/spray_dxp/spray_modes.py:182-187 | the number of boundaries up to a station is unique |
| DashMeter.AlwaysOnGrid | tools/gate4/spray_dxp/spray_modes.py:106-213 | in every run, whatever the leads, the last toggle lies on the ideal grid from its origin, with the phase of its number |
| DashMeter.OriginFixed | tools/gate4/spray_dxp/spray_modes.py:135-180 | the origin moves only when the meter arms or relocates |
| DashMeter.TogglesStop | tools/gate4/spray_dxp/spray_modes.py:188-203 | where a tick's toggling stops, with any leads |
| DashMeter.TickExact | tools/gate4/spray_dxp/spray_modes.py:188-203 | a zero-lead tick toggles to the ideal count at its station, never back, and by at most 10001 |
| DashMeter.LeadsStaySandwiched | tools/gate4/spray_dxp/spray_modes.py:106-213 | with any leads, the toggle count is the ideal one at the furthest station or one ahead |
| DashMeter.ZeroLeadClosedForm | tools/gate4/spray_dxp/spray_modes.py:106-213 | with zero lead the toggle count is the ideal one at the furthest station |
| DashMeter.ClosedFormIffUnguarded | tools/gate4/spray_dxp/spray_modes.py:199-201 | the closed form holds after every input if and only if the guard never stops the toggling |
| DashMeter.TogglesBounded | tools/gate4/spray_dxp/spray_modes.py:188-203 | the distance to cover bounds the toggles, because each adds a positive distance |
| DashMeter.GuardStopsShort | tools/gate4/spray_dxp/spray_modes.py:200-201 | a tick over 20000 one-metre dashes toggles 10001 times |
| DashMeter.TraceIsUpdate | tools/gate4/spray_dxp/spray_modes.py:106-213 | the history of the run theorems follows the meter |
| DashTracking.StationMoves | tools/gate4/spray_dxp/spray_modes.py:129-180 | where a tick leaves the station: armed on the path, moved by travel within the reach of speed, time and tolerance, moved by the last of enough agreeing jumps, held otherwise |
| DashTracking.HeldByJumps | tools/gate4/spray_dxp/spray_modes.py:156-180 | in every run a held meter has been counting jumps that agree with the first of them, fewer than it takes |
| DashTracking.RelocationIsAgreed | tools/gate4/spray_dxp/spray_modes.py:156-180 | in every run a jump moves the station only as the last of that many consecutive jumps, each within its own reach of the first |
| DashTracking.PatternOrigin | tools/gate4/spray_dxp/spray_modes.py:135-180 | the pattern begins at the anchor or the arming station, and after a relocation at the station accepted |
| DashTracking.NeverWedged | tools/gate4/spray_dxp/spray_modes.py:60-63 | from every reachable state a station reported 2 * acceptAfter - 1 times in a row is accepted, whatever the speeds |
| DashTracking.FlipsExactly | tools/gate4/spray_dxp/spray_modes.py:188-203 | a tick makes exactly the flips that are due, closing early by the off lead and opening by the on lead, each within its segment, and at most 10001 |
| DashMeter.Meterer.TrackStation | tools/gate4/spray_dxp/spray_modes.py:129-180 | arming, acceptance, rejection and relocation equal the specification |
| DashMeter.Meterer.DoToggles | tools/gate4/spray_dxp/spray_modes.py:188-203 | the toggle loop terminates and equals the specification |
| DashMeter.Meterer.DoUpdate | tools/gate4/spray_dxp/spray_modes.py:106-213 | a tick equals the specification, with its report |
| DashMeter.Meterer.Play | tools/gate4/spray_dxp/spray_modes.py:99-213 | a whole run of the object is the run of the theorems |

## Left out

- Floating-point rounding: coordinates, lengths, distances and stations are exact reals; non-finite positions, radii and coordinates are modelled as absent values.
- UTF-8 and float formats in CDR: strings and floats are byte patterns; Python's coercions when encoding (integers to floats, iterables to lists) and missing dictionary keys are not modelled.
- Evolution of nested messages elsewhere than at the end of the encoding: whether later fields survive there depends on the padding that follows; one family where they do not is given.
- Wrap-around of 64-bit counters, sequence numbers and generations; the 32-bit mission id wraps as in the source.
- Message texts, time stamps, log details and observers of the mission state machine.
- The DDS sink, GGA read-back, health, JSON status, configuration validation and persistence of the RTK node; `authority_` is never empty once set, and a failed activation leaves the stopped authority in place.
- Sockets, TLS, serial configuration, ROS publishing, the HTTP and Socket.IO layers.
- The header fields of an app plan (frame, anchor, origin, client, name), payload shape errors, and the artifact encoding.
- File writing, fsync and rename of progress records; the directory loader.
- A journal restored in mid-run: runs start fresh or restored at k, as the resume path does.
- The flow model, point meter, session configuration and lease of the spray controller; start-state strings of the dash meter other than on and off.
- Trigonometric geometry, frame placement, resampling and projection: their results hinge on floating-point tolerances.
