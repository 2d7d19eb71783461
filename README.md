# Robot repeatability rig: gauge protocol and measurement cycle

This project models the rig that checks how repeatably a robot arm comes
back to a target pose. The arm is driven through a fixed cycle over and over:

1. go to the configured target;
2. lift by 80 along the coordinate at index -4;
3. make a random move of at most 5 per coordinate;
4. return to the target.

A multi-channel dial gauge is then read through a serial Modbus-RTU style
protocol. Each iteration produces one record.

The model has five modules:

- `Outcomes` (`outcomes.dfy`) says how a Python call ends: either it returns a value, or it stops the program with
  `IndexError`, `UnboundLocalError` or `SystemExit`. A `while True` poll that has
  not finished when the scripted replies run out ends as `Unfinished`.
- `HubDataReader` (`hub_data_reader.dfy`) covers the gauge protocol:
  - the CRC-16 from section 6.2.2 of the MODBUS over Serial Line Specification and Implementation Guide V1.02;
  - the request framing with function code 0x03 (Read Holding Registers) from section 6.3 of the MODBUS Application Protocol Specification V1.1b3;
  - the device-specific reply decoder;
  - the three-attempt sampler that averages each channel.

  The CRC register is a `bv16` and bytes are `bv8`. Readings are reals in millimetres, computed as raw micrometres / 1000.
- `PoseCycle` (`pose_cycle.dfy`) holds what both robot scripts share: the lifted pose, the random pose,
  and the `HRIF_IsMotionDone` polling loop over a finite trace of replies.
- `RobotRepeatability` (`robot_repeatability_measurement.dfy`) covers the measurement script:
  - the telemetry split and its fallback;
  - `move_robot`, including the joint-position read before it that calls `exit()`;
  - the record assembly, with the gauge fields falling back to six `None`s;
  - the 200-iteration script with its final park move.
- `RobotTest` (`robot_test.dfy`) covers the test script. It uses the same cycle without the joint-position read
  and a gauge stub that always reads 0. It records an iteration only when the gauge value is not `None`.

The controller and the gauge are inputs. For every vendor call, the model takes the answer the call
gives (a status code, a filled list, the bytes read) from an input value.
These values are `MotionReplies`, `MoveReplies`, `JointRead`, `Attempt` and `Iteration`.
The offsets drawn by `random.uniform(-5, 5)` are also inputs, of type `Offset`, which holds values in [-5, 5].
A measurement returns its records and the list
of poses sent to `HRIF_MoveL`.

Some behaviours of the code are easy to miss; the model keeps them as written:

- A channel is negative only when its sign byte is exactly 1. Any other nonzero sign byte reads as positive (`HubDataReader.SignExamples`).
- A negative `HRIF_IsMotionDone` status ends the wait, but `move_robot` returns normally, so the cycle goes on with the next move. It does not abort the cycle (`RobotRepeatability.MotionErrorDoesNotAbort`).
- A reply of length 3 + 4k + 3 makes `parse_data` raise `IndexError`. It is not reported as a malformed reply. Lengths 3 + 4k + 4 and 3 + 4k + 5 decode one more segment, reading into the two trailing bytes.
- Any exception inside the measurement loop ends the run before anything is saved. Examples are `exit()` after a failed joint-position read, `IndexError` from a short pose or a short reply, and `UnboundLocalError` when the gauge port does not open (`RobotRepeatability.UnopenedGaugeCrashes`; see Findings). No park move is made after such an exception.
- The measurement script calls `read_average_data` as written, so the crash of Findings is part of its model. The corrected reader is modelled and proved beside it in `HubDataReader`.
- The park move happens at script level, after the results are saved. A park that raises leaves the saved records in place (`RobotRepeatability.Script`).
- The request asks for `data_count = 8` registers, while exactly four channel values are expected in the reply.

## Model

| member | source | states |
|---|---|---|
| HubDataReader.CalculateCrc | hub_data_reader.py:86-99 | the nested byte/bit loop computes `Crc(data)`, the fold of "XOR the byte in, then 8 shift steps with 0xA001 on a set low bit" from 0xFFFF; on empty data it returns 0xFFFF; the result is 16-bit by type |
| HubDataReader.ShiftByte | hub_data_reader.py:93-98 | the inner loop of eight conditional shifts equals eight `ShiftStep`s of the mixed register |
| HubDataReader.ResidueStep | hub_data_reader.py:90-99 | folding a register's own low byte and then its high byte into it leaves 0 |
| HubDataReader.CrcKnownVector | hub_data_reader.py:86-99 | the CRC of 01 03 00 00 00 08 is 0x0C44 |
| HubDataReader.ByteSplit | hub_data_reader.py:81-82 | `crc_high * 256 + crc_low` is the CRC again: the split into `crc & 0xFF` and `(crc >> 8) & 0xFF` loses nothing |
| HubDataReader.BuildCommand | hub_data_reader.py:75-83 | the frame has length `len(data) + 4` and begins with address, function code and payload |
| HubDataReader.BuildCommandCrcRoundTrip | hub_data_reader.py:80-83 | recomputing the CRC over the frame without its last two bytes gives exactly those bytes, low then high |
| HubDataReader.BuildCommandResidue | hub_data_reader.py:79-83 | the CRC over a whole built frame, checksum included, is 0 |
| HubDataReader.ReadPayload | hub_data_reader.py:49 | `struct.pack('>HH', start, count)` is four bytes holding start and count big-endian |
| HubDataReader.ReadCommand | hub_data_reader.py:49-50 | the request is 8 bytes: the address, 0x03, start 0, `data_count` big-endian, and a valid CRC |
| HubDataReader.SegmentValue | hub_data_reader.py:17-30 | a segment's value has magnitude `hi * 256 + lo` in [0, 65535] and is negative exactly when the sign byte is 1 and the magnitude is nonzero |
| HubDataReader.SegmentValueIgnoresReserved | hub_data_reader.py:20-28 | the reserved byte `segment[1]` never changes the value |
| HubDataReader.ParseData | hub_data_reader.py:6-36 | the segment loop gives `Parse`: `None` below 5 bytes, `IndexError` when the last segment has only 3 bytes, otherwise one value per segment start 3, 7, ... before the last two bytes |
| HubDataReader.ParseAligned | hub_data_reader.py:16-17 | a reply of exactly 3 + 4k + 2 bytes decodes to k values, value j taken from bytes 3+4j .. 3+4j+3 alone |
| HubDataReader.ParseIgnoresFraming | hub_data_reader.py:16-17 | two aligned replies that agree on the channel bytes decode alike, whatever their header and trailer |
| HubDataReader.ParseInRange | hub_data_reader.py:28-33 | every decoded value lies in [-65.535, 65.535] mm |
| HubDataReader.SignExamples | hub_data_reader.py:20-33 | [1,0,0,100] reads -0.1 mm, [0,0,0,100] and [2,0,0,100] read +0.1 mm |
| HubDataReader.Sampled | hub_data_reader.py:47-62 | the kept samples are at most one per attempt and have four values each; a raised parse propagates as `IndexError` |
| HubDataReader.SampledStops | hub_data_reader.py:47-70 | after a serial error or a raised parse, the later attempts change nothing |
| HubDataReader.SampledInRange | hub_data_reader.py:55-59 | every kept sample value lies in the gauge's range |
| HubDataReader.MeanBounds | hub_data_reader.py:65 | a channel's mean is `None` exactly when it has no samples, and otherwise lies between the sample bounds |
| HubDataReader.Averages | hub_data_reader.py:65-66 | there are four averages, each `None` exactly when no sample was kept |
| HubDataReader.AveragingExample | hub_data_reader.py:65-66 | samples [1, 0.5, 0, -1] and [3, 0.5, 0, -3] average to [2, 0.5, 0, -2] |
| HubDataReader.ReadAverage | hub_data_reader.py:39-72 | the corrected reader: a port that does not open gives `None`, a list has four entries, and the only exception is `IndexError` |
| HubDataReader.ReadAverageInRange | hub_data_reader.py:55-66 | in a returned list the channels are all present or all absent, and every present average lies in [-65.535, 65.535] |
| HubDataReader.AddSample | hub_data_reader.py:58-59 | each channel list grows by exactly that channel's value |
| HubDataReader.ReadAverageData | hub_data_reader.py:39-72 | the three-attempt loop, with its per-channel lists, computes `ReadAverage` |
| HubDataReader.ReadAverageDataAsWritten | hub_data_reader.py:43-72 | the reader exactly as written, raising `UnboundLocalError` when the port does not open |
| HubDataReader.OpenFailureCrashes | hub_data_reader.py:44-72 | a port that fails to open crashes the reader as written but yields `None` when corrected; the two agree when the port opens |
| PoseCycle.AdjustedPose | robot_repeatability_measurement.py:65-66 | the lifted pose has the target's length and equals the target except at index `len - 4`, which is 80 higher; a pose shorter than 4 raises `IndexError` |
| PoseCycle.AdjustedPoseRecoversTarget | robot_repeatability_measurement.py:65-66 | lowering the lifted pose by 80 at the same index gives the target back, so the copy carries the whole target |
| PoseCycle.RandomPose | robot_repeatability_measurement.py:157-158 | the random pose has the input's length and each coordinate is within 5 of the input's |
| PoseCycle.RandomPoseOffsets | robot_repeatability_measurement.py:157-158 | coordinate i of the random pose minus `current[i]` is exactly `offset[i]` |
| PoseCycle.RandomPoseZero | robot_repeatability_measurement.py:158 | zero offsets leave the pose unchanged |
| PoseCycle.WaitResult | robot_repeatability_measurement.py:142-150 | the wait can only fail by the replies running out |
| PoseCycle.FirstStop | robot_repeatability_measurement.py:145-149 | the index of the first reply that is done (status 0, first result 1) or negative, and no earlier reply stops |
| PoseCycle.WaitResultFirstStop | robot_repeatability_measurement.py:142-150 | the wait ends exactly when some reply stops it, and its result is done or the negative code of the first stopping reply |
| PoseCycle.WaitResultIgnoresLater | robot_repeatability_measurement.py:145-149 | replies after the first stopping one are never looked at |
| PoseCycle.WaitMotionDone | robot_repeatability_measurement.py:142-150 | the `while True` loop computes `WaitResult`; `polls` is the index of the stopping reply plus one, and every earlier reply neither was done nor was negative |
| PoseCycle.MoveAndWait | robot_repeatability_measurement.py:138-152 | a refused `HRIF_MoveL` returns its code without waiting; an accepted one returns when its wait ends |
| PoseCycle.MoveLAndWait | robot_repeatability_measurement.py:138-152 | a refused move makes no poll at all; an accepted one polls up to and including the first stopping reply |
| RobotRepeatability.EndEffectorData | robot_repeatability_measurement.py:37-47 | on status 0, the first six points are joint angles and the rest position/orientation; on any other status, two lists of six `None`s |
| RobotRepeatability.TelemetryMissingIffFailed | robot_repeatability_measurement.py:40-47 | a telemetry value is missing exactly when the read failed; a successful read keeps all points in order |
| RobotRepeatability.MoveSpec | robot_repeatability_measurement.py:123-152 | a failed joint-position read ends the program with `exit()`; otherwise the move returns unless its wait is unfinished |
| RobotRepeatability.MotionErrorDoesNotAbort | robot_repeatability_measurement.py:147-149 | a negative `HRIF_IsMotionDone` status ends the wait normally, with the error code |
| RobotRepeatability.MoveRobot | robot_repeatability_measurement.py:123-152 | `HRIF_MoveL` receives the pose only after a successful read; no poll follows an exit or a refused move |
| RobotRepeatability.RandomMovement | robot_repeatability_measurement.py:156-160 | the returned pose is the jittered pose, and it is the one sent to the arm |
| RobotRepeatability.GetGaugeReading | robot_repeatability_measurement.py:164-166 | the gauge reading is what `read_average_data` as written gives: `UnboundLocalError` when the port does not open, otherwise the averages; the body passes address 128 and count 8 |
| RobotRepeatability.GaugeColumns | robot_repeatability_measurement.py:81-89 | for a list, the gauge fields are its readings in order; otherwise six `None`s |
| RobotRepeatability.IterationOutcome | robot_repeatability_measurement.py:57-116 | an iteration finishes exactly when every move passes its read and wait, the target has index -4, and the gauge read (the reader as written) does not raise; the record then has `Iteration = i + 1`, the target, a lifted pose that differs only by +80 at index -4, a random pose within 5 of it, the four telemetry reads and the gauge columns |
| RobotRepeatability.UnopenedGaugeCrashes | robot_repeatability_measurement.py:61-81 | once the four moves have returned, a gauge port that does not open makes the iteration raise `UnboundLocalError` |
| RobotRepeatability.MeasureIteration | robot_repeatability_measurement.py:57-116 | the loop body computes the iteration's record, raising where the source raises (including `UnboundLocalError` from a gauge port that does not open), and sends exactly target, lifted, random and target to the arm |
| RobotRepeatability.Measure | robot_repeatability_measurement.py:51-54 | an empty target yields no records and sends no moves |
| RobotRepeatability.MeasureLoopAbsorbs | robot_repeatability_measurement.py:57-116 | once an iteration has raised, the later iterations change nothing |
| RobotRepeatability.MeasureRepeatability | robot_repeatability_measurement.py:51-119 | the iteration loop, appending records, computes `Measure` |
| RobotRepeatability.AllMovesCycle | robot_repeatability_measurement.py:61-75 | the moves of cycle i sit at positions 4i .. 4i+3 of the poses sent |
| RobotRepeatability.MeasureLoopStep | robot_repeatability_measurement.py:57-116 | a finished loop is the loop without its last iteration, followed by that iteration's record and four poses |
| RobotRepeatability.MeasureLoopRecords | robot_repeatability_measurement.py:57-116 | a finished loop has one record per iteration, in order, each that iteration's own; the poses sent are every cycle's four poses in turn |
| RobotRepeatability.MeasureLoopFails | robot_repeatability_measurement.py:57-116 | a loop that raises has an iteration that raises |
| RobotRepeatability.MeasureFinishes | robot_repeatability_measurement.py:57-116 | for a configured target the measurement finishes exactly when every iteration does |
| RobotRepeatability.MeasureRecords | robot_repeatability_measurement.py:57-79 | a finished measurement has `n` records in order, where record i has `Iteration = i + 1`, the target, the lifted target, and a random pose within 5 of the lifted pose |
| RobotRepeatability.ShortTargetCrashes | robot_repeatability_measurement.py:61-66 | a target with 1 to 3 coordinates crashes the first iteration, with `IndexError` once the first move has returned |
| RobotRepeatability.LiftExample | robot_repeatability_measurement.py:65-66 | [100, 0, 200, 0, 0, 0] is lifted to [100, 0, 280, 0, 0, 0] |
| RobotRepeatability.Script | robot_repeatability_measurement.py:170-193 | without a configured target the script measures nothing and moves nothing; with one, it finishes exactly when the measurement does, and keeps the measured records whatever the park move does |
| RobotRepeatability.ScriptParksLifted | robot_repeatability_measurement.py:174-190 | a finished measurement saves 200 records and records the park move's own outcome; after a successful pre-read 801 poses were sent, the last being the target with index -4 raised by 80, and without it 800 |
| RobotTest.MoveRobot | robot_test.py:67-86 | `HRIF_MoveL` gets the pose at once; a refused move makes no poll; an accepted one polls up to the first done or negative reply |
| RobotTest.RandomMovement | robot_test.py:89-92 | the jittered pose is the one sent to the arm |
| RobotTest.GetGaugeReading | robot_test.py:95-98 | the stub always yields the reading 0, never `None` |
| RobotTest.RecordFor | robot_test.py:54-61 | iteration i adds a record exactly when its gauge value is not `None`, holding `i + 1` and that value |
| RobotTest.IterationSpec | robot_test.py:36-61 | an iteration finishes exactly when the four waits finish and the target has index -4; it sends the target, the lifted target, a pose within 5 of it, and the target again |
| RobotTest.MeasureIteration | robot_test.py:36-61 | the loop body, with the copy lifted in place, computes `IterationSpec` |
| RobotTest.Measure | robot_test.py:30-33 | an empty target yields no records and sends no moves |
| RobotTest.MeasureLoopAbsorbs | robot_test.py:36-61 | once an iteration has raised, the later iterations change nothing |
| RobotTest.MeasureRepeatability | robot_test.py:30-64 | the iteration loop computes `Measure` |
| RobotTest.EveryIterationRecorded | robot_test.py:54-59 | with the stub gauge, a finished loop holds the record `{i + 1, 0}` for every iteration i, in order, and four poses per iteration |
| RobotTest.MeasureLoopFinishes | robot_test.py:36-61 | the loop finishes exactly when every iteration does |
| RobotTest.ScriptSavesTwoRecords | robot_test.py:107-108 | the two-iteration script saves exactly `{1, 0}` and `{2, 0}` and sends eight poses |

## Left out

- Serial I/O is abstracted:
  - `serial.Serial`, `write`, `read(256)`, `time.sleep` and `close` at hub_data_reader.py:44-72 are not modelled;
  - opening the port is a boolean input;
  - each of the three reads is an `Attempt`: the bytes returned, or a serial error;
  - the request is built but not sent anywhere.
- `SerialException`s and other exceptions: `except serial.SerialException` is modelled as `SerialFault`. Exceptions that are not serial errors (`IndexError`) pass through, as in the source.
- Vendor calls (`CPSClient`, `HRIF_*`) are inputs:
  - the connection at robot_repeatability_measurement.py:29-33 and the disconnects are not modelled;
  - what `HRIF_ReadCmdJointPos` does to the list it is handed is not visible, so `JointRead.points` is the list as it comes back;
  - the joint positions read before a move are not passed on, because they only go to `HRIF_MoveL`.
- `random.uniform`: the offsets come in as inputs of type `Offset`, which holds values in [-5, 5], one per coordinate.
- `time.sleep`, real time and the 0.5 s poll interval are not modelled. The unbounded `while True` poll runs over a finite trace. When the trace runs out it ends as `Unfinished`, meaning the program would still be polling; `Unfinished` is not an outcome of the source.
- `RobotRepeatability.Measure`: when a call raises, the outcome carries only the exception. The records and moves collected before it are not kept, because pandas never sees them either.
- Printing is not modelled. The printed diagnostic for a refused move or a motion error appears as the `Rejected` and `MotionError` values.
- Persistence and configuration are not modelled: pandas DataFrames, CSV writing, the `data` folder, timestamps and the yaml `load_config`. The configured pose comes in as a sequence, and an empty sequence stands for both `[]` and `None`.
- Record keys: a record keeps the same values in the same order, with named fields in place of dictionary keys (`Gauge_j Reading`, `Initial Joint Angle j`, ...).
- Floating point is not modelled: readings and averages are exact reals, and poses are reals.
- keyboard_controll.py and main.py are not part of this model. The first is a camera/keyboard UI loop with rotation maths and raw sockets; the second is a straight-line script of vendor calls.
- `struct.pack` range errors cannot occur: the address and function code are bytes by type, and `data_count` is a 16-bit value by type.

## Findings

| source | as written | input that shows it | evidently intended | confidence | as-written member | corrected member |
|---|---|---|---|---|---|---|
| hub_data_reader.py:44-72 | `ser = serial.Serial(...)` is inside the `try` and `ser.close()` is in `finally`; if the constructor raises, `ser` was never bound | a port that cannot be opened: the `except` clause prints and returns `None`, then `finally` raises `UnboundLocalError`, which replaces the return value | an unavailable port is reported as `None` like any other serial error, and only a port that was opened is closed | not executed | HubDataReader.ReadAverageDataAsWritten | HubDataReader.ReadAverageData |
