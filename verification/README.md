# roboRIO passthrough: a verified model

This project models the parts of the roboRIO passthrough program that hold real state or arithmetic, and proves what
they keep over every call and every run. Operations that change state are methods of classes, each proved against a
specification function of the old state; the properties are lemmas about those functions, over all inputs, all runs and
all environment answers. Nothing was executed: the results are those of Dafny's verifier.

| file | models |
|---|---|
| `TalonConfig.dfy` | the full update of one motor controller, as a map of configuration registers |
| `TalonDifferential.dfy` | the differencer's reports, the reporter that dispatches them to the per-field update functions, and when these do what a full update does |
| `MotorRegistry.dfy` | the five maps of motors, types, heartbeats, configurations and previous messages, and the heartbeat reaper |
| `MotorTasks.dfy` | the configuration task and the value task |
| `MotorRuns.dfy` | invariants over every interleaving of configuration, value and heartbeat steps |
| `MotorConfigPath.dfy` | the choice between full and differential update, and the controllers' contents over whole runs |
| `MultipartCodec.dfy` | the ZeroMQ multipart encoder and decoder against a wire grammar |
| `MultipartSocket.dfy` | multipart sending and receiving over a socket of frames with a "more" flag |
| `TimedRobot.dfy` | the queue of periodic callbacks with its catch-up loop |
| `TaskScheduler.dfy` | the scheduler thread's pass over the task list |
| `RobotFailover.dfy` | mode transitions, the failover switch and the swerve drivetrain it drives |
| `Network.dfy` | the latest-value mailbox and the external-control countdown |
| `DriveHelper.dfy`, `ValueRamper.dfy`, `CKMath.dfy`, `Pigeon2.dfy` | the drive and yaw arithmetic, over the reals |
| `Arena.dfy` | the protobuf arena's bump allocation and its alignment masks |
| `SafePrinters.dfy` | the crash handler's number printers, in the caller's memory |
| `Common.dfy` | shared datatypes and constants |

## Where the code does less than it promises

The model follows the code. Where the promise fails, there is a lemma with the exact condition.

* A field that disappears from a motor's message is reported as a deletion, which the reporter ignores. The register
  keeps its old value (`DeletedGainStays`); `DifferentialRefinesFull` says for every shared register, in every mode,
  exactly when the two updates agree. Values inside a current limit may disappear: as long as the limit itself stays, it
  is reported as modified and written in full (`LimitsAgreeIff`).
* The differential path does not clamp the closed-loop peak output (`PeakClosedLoopDiffers`), does not follow the
  controller mode (`FramePeriodsDiffer`), writes a slave's gains (`SlaveGetsMasterSettings`), does not write those of a
  slave that becomes a master (`PromotedSlaveKeepsStaleGain`), and is the only one to
  write the sensor coefficient and phase (`DifferentialOnlyRegisters`). It dereferences a null pointer when the remote
  sensor is touched and is not a registered CANcoder; the full update does not. `CrashesIff` says which messages crash
  the program, `UnregisteredSensorCrashes` is a run that does, and `KnownEncodersNeverCrash` says that registered
  encoders are enough to discharge the condition of the theorems about runs that do not.
* The path is chosen by comparing two sizes. A motor without a previous message takes the differential path exactly
  when the remembered motors are no more than the message's motors and together with them are more (`UnbasedIff`).
  This never happens while every remembered motor is in the message (`PathIsSound`), but it does when motors are
  replaced (`PathFailsWhenMotorsAreReplaced`); `ReplacedMotorKeepsStaleGain` is a run from power-on that ends with a
  controller out of sync. `FittingMessagesKeepSync` says what a message must be like, at the registry it arrives at, for
  that not to happen, with any number of senders.
* The pump compares the received byte count with EAGAIN, so an eleven-byte message stops it and is lost
  (`OnlyElevenByteMessagesAreLost`, `NothingIsLostIff`).
* `multipart_t::send` pops a part before it sends it: when the socket would block, that part is lost
  (`Multipart.Send`). `send_multipart` keeps all of them.
* The task period is computed in 32 bits: it is exact up to 4294967 ms and vanishes for multiples of 2^29
  (`PeriodIsExactIff`, `PeriodVanishesIff`). A task that keeps throwing starves those behind it
  (`ThrowingTaskStarvesTheRest`).
* The ramper's branch for decelerating to 0 from below is never reached, so a stop from reverse uses the acceleration
  rate (`MirrorImageIff`, `ReverseStopsMoreSlowly`).
* The unsigned printer keeps 30 digits: all 64-bit values read back exactly in base five and above
  (`AllWordsRoundTripIff`). The signed printer indexes its digit table with a negative remainder; from base three on it
  does so for every negative number and for no other (`CannotPrintIff`).

## Model

| member | source | states |
|---|---|---|
| `TalonConfig.FullUpdate` | src/main/cpp/tasks/ApplyMotorConfigTask.cpp:71-192 | the registers afterwards are the old ones overlaid with, per register, the setting the message asks for; nothing else is written, and a slave's master-only registers are not |
| `TalonConfig.PlainFields` | src/main/cpp/tasks/ApplyMotorConfigTask.cpp:82-129 | which fields are written as they are: six for every motor, nineteen for masters only, the others not at all |
| `TalonConfig.PeakOutputs` | src/main/cpp/tasks/ApplyMotorConfigTask.cpp:89-122 | the three peaks: too small ones become full output, the closed-loop one only for a master |
| `TalonConfig.LimitSwitches` | src/main/cpp/tasks/ApplyMotorConfigTask.cpp:91-92 | source and normal state of each switch, each in its place |
| `TalonConfig.CurrentLimits` | src/main/cpp/tasks/ApplyMotorConfigTask.cpp:133-153 | enable, current, threshold current and threshold time of each limit, each in its place; the stator's only for a Falcon |
| `TalonConfig.FeedbackSensor` | src/main/cpp/tasks/ApplyMotorConfigTask.cpp:96-108 | the named CANcoder or the own sensor, for masters only |
| `TalonConfig.FramePeriods` | src/main/cpp/tasks/ApplyMotorConfigTask.cpp:155-182 | 5 ms for the two general frames of a fast master, 10 ms otherwise |
| `TalonConfig.ConfigMaster` | src/main/cpp/tasks/ApplyMotorConfigTask.cpp:94-131 | a master gets exactly the feedback, gain, closed-loop and soft-limit registers of its message |
| `TalonConfig.ConfigOutputLimits` | src/main/cpp/tasks/ApplyMotorConfigTask.cpp:89-92 | peak outputs with their thresholds and both limit switches are written, nothing else |
| `TalonConfig.ConfigFramePeriods` | src/main/cpp/tasks/ApplyMotorConfigTask.cpp:155-182 | the four frame periods follow the controller mode, nothing else changes |
| `TalonDifferential.RunUpdateFunction` | src/main/cpp/tasks/ApplyMotorConfigTask.cpp:239-548 | each registered function writes exactly the registers its field feeds, from the new message |
| `TalonDifferential.DifferentialUpdateReporter.ReportModified` | src/main/cpp/utils/DifferentialUpdateReporter.cpp:10-19 | with the motor's message the functions of all fields on the path run, and no others; a message from inside a limit fails their cast, and nothing is written; crashes exactly when the remote sensor is run for and its encoder is missing |
| `TalonDifferential.DifferentialUpdateReporter.CallUpdateFunction` | src/main/cpp/MotorManager.cpp:34-45 | one step of a path: runs the registered function only for a motor's message |
| `TalonDifferential.DifferentialUpdateReporter.ReportAdded` | src/main/cpp/utils/DifferentialUpdateReporter.cpp:5-8 | additions are treated as modifications |
| `TalonDifferential.DifferentialUpdateReporter.ReportDeleted` | src/main/cpp/utils/DifferentialUpdateReporter.cpp:21-24 | deletions write nothing |
| `TalonDifferential.DifferentialUpdateReporter.Compare` | src/main/cpp/tasks/ApplyMotorConfigTask.cpp:49-52 | for every order and repetition of reports that name the touched fields, the registers depend only on the two messages |
| `TalonDifferential.LibraryKeepsItsPromise` | src/main/include/google/protobuf/util/message_differencer.cc:735-904 | the reports the library makes, walking the fields in order and a limit's values before the limit, name exactly the touched fields; a nested deletion makes its limit touched |
| `TalonDifferential.InsideReportsExactly` | src/main/include/google/protobuf/util/message_differencer.cc:755-904 | a value inside a limit is reported deleted, added or modified exactly when it is gone, new or different |
| `TalonDifferential.UpdatesMerge` | src/main/cpp/utils/DifferentialUpdateReporter.cpp:10-19 | runs of update functions for one message merge: they commute and repeat harmlessly |
| `TalonDifferential.DifferentialRefinesFull` | src/main/cpp/tasks/ApplyMotorConfigTask.cpp:44-63 | in every controller mode and from any registers, the two updates leave a shared register alike if and only if: where the full update writes, a feeding field is added or modified or the register holds the value already; where it does not, no feeding field is touched or its function changes nothing |
| `TalonDifferential.SyncedMastersAgreeIff` | src/main/cpp/tasks/ApplyMotorConfigTask.cpp:44-63 | for synchronised masters they differ exactly when the full update would change the register although no feeding field is added or modified |
| `TalonDifferential.NothingLostWithoutDeletions` | src/main/cpp/tasks/ApplyMotorConfigTask.cpp:44-63 | when no field of the motor disappears, whatever happens inside its limits, both updates agree on every shared register of a master |
| `TalonDifferential.LimitsAgreeIff` | src/main/include/google/protobuf/util/message_differencer.cc:878-887 | in every mode the updates agree on a current limit exactly when the new message still has the limit, or the values are the same anyway |
| `TalonDifferential.DeletedGainStays` | src/main/cpp/utils/DifferentialUpdateReporter.cpp:21-24 | a gain that goes back to its default stays in the controller after a differential update, and would be cleared by a full one |
| `TalonDifferential.PeakClosedLoopDiffers` | src/main/cpp/tasks/ApplyMotorConfigTask.cpp:318-323 | in every mode, when exactly the unclamped closed-loop peak agrees with the clamped one that line 122 writes for a master |
| `TalonDifferential.FramePeriodsDiffer` | src/main/cpp/tasks/ApplyMotorConfigTask.cpp:155-182 | frame periods go stale exactly when FAST_MASTER is entered or left, and only two of the four |
| `TalonDifferential.DifferentialOnlyRegisters` | src/main/cpp/tasks/ApplyMotorConfigTask.cpp:374-407 | sensor coefficient and phase change on the differential path alone |
| `TalonDifferential.FieldsWithoutRegister` | src/main/cpp/tasks/ApplyMotorConfigTask.cpp:239-548 | no other field without a device call in the full update is written by the differential one |
| `TalonDifferential.SlaveGetsMasterSettings` | src/main/cpp/tasks/ApplyMotorConfigTask.cpp:239-548 | a slave's master-only register, which the full update leaves alone, stays alike exactly when no feeding field is touched or writing it changes nothing |
| `TalonDifferential.PromotedSlaveKeepsStaleGain` | src/main/cpp/tasks/ApplyMotorConfigTask.cpp:49-57 | a slave that becomes a master with the same gain keeps what its controller holds, where the full update writes the gain |
| `TalonDifferential.DifferentialKeepsSync` | src/main/cpp/tasks/ApplyMotorConfigTask.cpp:49-61 | a differential update to a compatible message keeps the controller synchronised |
| `TalonDifferential.SameMessageWritesNothing` | src/main/cpp/tasks/ApplyMotorConfigTask.cpp:49-52 | comparing a message with itself touches no register |
| `MotorRegistry.MotorConfigManager.SetMotorsConfigMsg` | src/main/cpp/MotorConfigManager.cpp:28-34 | every motor of the message is stored, the last one of an id wins, the previous messages are untouched |
| `MotorRegistry.LastOneIsStored` | src/main/cpp/MotorConfigManager.cpp:28-34 | the configuration of an id is the last motor of the message with it, or else the one before |
| `MotorRegistry.MotorConfigManager.SetPrevMotorConfigMsg` | src/main/cpp/MotorConfigManager.cpp:18-21 | one previous message is set |
| `MotorRegistry.MotorConfigManager.DeleteMotor` | src/main/cpp/MotorConfigManager.cpp:46-57 | the motor is gone from both maps, all others stay |
| `MotorRegistry.MotorManager.RegisterMotor` | src/main/cpp/MotorManager.cpp:47-79 | ids below 64 only: a new motor of a valid type joins with power-on registers, an existing one keeps everything, and both get a full heartbeat; an invalid type changes nothing |
| `MotorRegistry.NewMotor` | src/main/cpp/MotorManager.cpp:50-76 | a new motor joins exactly under an id below 64 and with type 0 or 1, as the controller of its type, standing still, with a heartbeat of 250; all others stay as they are |
| `MotorRegistry.KnownMotor` | src/main/cpp/MotorManager.cpp:52-77 | a registered motor keeps everything and gets a heartbeat of 250 |
| `MotorRegistry.KeysWrap` | src/main/cpp/MotorManager.cpp:47-52 | ids are keys as they are below 65536, and wrap around there |
| `MotorRegistry.MotorManager.DeleteMotor` | src/main/cpp/MotorManager.cpp:81-97 | removes the motor from every map but the heartbeats |
| `MotorRegistry.MotorManager.ProcessHeartbeat` | src/main/cpp/MotorManager.cpp:99-118 | erasing while iterating, every counter loses exactly one and exactly the motors that run out are gone from all five maps |
| `MotorRegistry.TickOne` | src/main/cpp/MotorManager.cpp:102-117 | passing one entry extends the tick from the keys below it to the keys up to it |
| `MotorRegistry.NextKey` | src/main/cpp/MotorManager.cpp:102-117 | the iterator's next position is the smallest key not yet passed |
| `MotorTasks.ApplyMotorConfigTask.Run` | src/main/cpp/tasks/ApplyMotorConfigTask.cpp:30-69 | the registry after a configuration message, for every reporting behaviour of the differencer, or the crash |
| `MotorTasks.ApplyMotorConfigTask.ConfigureMotor` | src/main/cpp/tasks/ApplyMotorConfigTask.cpp:44-63 | one round: an unregistered motor is skipped, else the size test picks the path and the message is remembered |
| `MotorTasks.ApplyMotorValuesTask.Run` | src/main/cpp/tasks/ApplyMotorValuesTask.cpp:19-91 | the registry after a control message and, in disabled mode, the stop of all masters |
| `MotorTasks.ApplyMotorValuesTask.Apply` | src/main/cpp/tasks/ApplyMotorValuesTask.cpp:32-70 | a configured motor with, as a follower, a registered master is registered and driven; any other command changes nothing |
| `MotorTasks.ReachesIff` | src/main/cpp/tasks/ApplyMotorValuesTask.cpp:34-40 | which commands reach a motor; the others change nothing |
| `MotorTasks.CommandIsObeyed` | src/main/cpp/tasks/ApplyMotorValuesTask.cpp:41-68 | mode, value and feedforward of the demand are the command's, each in its place; a follower follows its master unless it follows already; an infinity or a NaN changes nothing |
| `MotorTasks.OthersAreLeftAlone` | src/main/cpp/tasks/ApplyMotorValuesTask.cpp:32-70 | no command touches another motor, or the registers of any |
| `MotorTasks.LastCommandIsObeyed` | src/main/cpp/tasks/ApplyMotorValuesTask.cpp:32-70 | after a whole message the last command for a motor is the one that is obeyed |
| `MotorTasks.DisablingStops` | src/main/cpp/tasks/ApplyMotorValuesTask.cpp:78-88 | disabled mode leaves followers following and sets every other motor to percent output 0 |
| `MotorTasks.ApplyMotorValuesTask.StopMasters` | src/main/cpp/tasks/ApplyMotorValuesTask.cpp:78-88 | exactly the controllers that follow nobody are set to neutral |
| `MotorRuns.StepKeepsConsistent` | src/main/cpp/MotorManager.cpp:47-118 | each step keeps the invariant of the five maps |
| `MotorRuns.AlwaysConsistent` | src/main/cpp/MotorManager.cpp:47-118 | after every run: previous messages within motors, motors = types = heartbeats within configurations, counters in 1..250, ids below 64 |
| `MotorRuns.PresentIffRecentlyRegistered` | src/main/cpp/MotorManager.cpp:99-118 | a motor is present if and only if it was registered and fewer than 250 ticks have passed since |
| `MotorRuns.AlwaysAged` | src/main/cpp/MotorManager.cpp:77-118 | every counter is 250 minus the ticks since the last registration |
| `MotorRuns.SilenceEmptiesTheRegistry` | src/main/cpp/MotorManager.cpp:99-118 | 250 or more ticks in a row leave no motor, type, heartbeat or previous message, and exactly the configurations of ids that had no motor |
| `MotorRuns.DisabledMotorsStandStill` | src/main/cpp/tasks/ApplyMotorValuesTask.cpp:78-88 | from a run of the value task in disabled mode until one in another mode, nothing but a follower is told to move, whatever is commanded, configured, registered and reaped in between |
| `MotorRuns.KnownEncodersNeverCrash` | src/main/cpp/tasks/ApplyMotorConfigTask.cpp:524-532 | a run in whose messages every remote sensor is a registered encoder never crashes |
| `MotorConfigPath.CrashesIff` | src/main/cpp/tasks/ApplyMotorConfigTask.cpp:44-63 | a message crashes exactly when in some round the sizes agree and the comparison with what is remembered by then finds a new or changed remote sensor that is not registered |
| `MotorConfigPath.ReplacedMotorCrashes` | src/main/cpp/tasks/ApplyMotorConfigTask.cpp:524-532 | a run from the empty registry that crashes, for any second motor whose comparison with the default message does |
| `MotorConfigPath.UnregisteredSensorCrashes` | src/main/cpp/tasks/ApplyMotorConfigTask.cpp:524-532 | a concrete such run, with no encoder registered |
| `MotorConfigPath.UnbasedRoundIff` | src/main/cpp/tasks/ApplyMotorConfigTask.cpp:44-63 | the counting argument for a loop whose test reads the set it fills |
| `MotorConfigPath.UnbasedIff` | src/main/cpp/tasks/ApplyMotorConfigTask.cpp:44-63 | the exact condition under which some motor without a previous message is compared with a default one |
| `MotorConfigPath.PathIsSound` | src/main/cpp/tasks/ApplyMotorConfigTask.cpp:44-63 | it never happens while all remembered motors are in the message, with or without repeated ids |
| `MotorConfigPath.PathFailsWhenMotorsAreReplaced` | src/main/cpp/tasks/ApplyMotorConfigTask.cpp:44-63 | with distinct registered ids it happens exactly when some motors left and at least as many joined |
| `MotorConfigPath.UnbasedLeavesDefaultsUnwritten` | src/main/cpp/tasks/ApplyMotorConfigTask.cpp:49-52 | what such a comparison misses: registers whose fields are at their defaults keep what they held |
| `MotorConfigPath.RepeatedMessageIsIdle` | src/main/cpp/tasks/ApplyMotorConfigTask.cpp:44-63 | receiving an applied message again changes neither registry nor controllers |
| `MotorConfigPath.ReplacedMotorIsNotConfigured` | src/main/cpp/tasks/ApplyMotorConfigTask.cpp:44-63 | a run from the empty registry, for any two motors and power-on registers, after which the second motor's configuration is remembered although its default-valued registers were never written |
| `MotorConfigPath.ReplacedMotorKeepsStaleGain` | src/main/cpp/tasks/ApplyMotorConfigTask.cpp:44-63 | a concrete such run that ends out of sync |
| `MotorConfigPath.FullUpdatesSync` | src/main/cpp/tasks/ApplyMotorConfigTask.cpp:44-63 | when more motors are remembered than the message has, or fewer will be than it has, every round is a full update, so the loop keeps the controllers in sync whatever the message says |
| `MotorConfigPath.FittingMessagesKeepSync` | src/main/cpp/tasks/ApplyMotorConfigTask.cpp:44-63 | over every run, whoever sends the messages and however motors are reaped and recreated: if each message fits the registry it arrives at (the size test never holds, or the remembered motors grow to just its size and it drops no field of a motor and keeps masters masters), each remembered configuration is in its controller on the shared registers |
| `MotorConfigPath.AlwaysReceived` | src/main/cpp/MotorConfigManager.cpp:18-21 | in every run each remembered configuration came in some message, for that id |
| `MotorConfigPath.AlwaysInSync` | src/main/cpp/MotorConfigManager.cpp:46-57 | the messages of a sender that never drops a motor or a field of one and keeps masters masters always fit |
| `MultipartCodec.CheckSizes` | src/main/include/zmq/zmq_addon.hpp:220-234 | fails exactly on a part over 32 bits, else returns the exact length of the encoding |
| `MultipartCodec.Encode` | src/main/include/zmq/zmq_addon.hpp:220-258 | fills a buffer of the first pass's size exactly with the encoding of the parts |
| `MultipartCodec.WriteNetworkOrder` | src/main/include/zmq/zmq_addon.hpp:77-88 | writes the four bytes in place and nothing around them |
| `MultipartCodec.NetworkOrderRoundTrip` | src/main/include/zmq/zmq_addon.hpp:77-102 | reading a written size gives it back |
| `MultipartCodec.NetworkOrderInjective` | src/main/include/zmq/zmq_addon.hpp:90-102 | writing a read size gives its bytes back |
| `MultipartCodec.NetworkOrderIsBigEndian` | src/main/include/zmq/zmq_addon.hpp:77-88 | the most significant byte comes first |
| `MultipartCodec.WireFormat` | src/main/include/zmq/zmq_addon.hpp:224-254 | one size byte up to 254, 255 and four bytes up to 4294967295, an error beyond |
| `MultipartCodec.FirstErrors` | src/main/include/zmq/zmq_addon.hpp:281-294 | which input gives which of the two errors |
| `MultipartCodec.ReadPart` | src/main/include/zmq/zmq_addon.hpp:280-298 | one part or the right one of two errors, never reading past the end |
| `MultipartCodec.Decode` | src/main/include/zmq/zmq_addon.hpp:275-302 | the parts written to the output, also when it throws, and the error |
| `MultipartCodec.DecodeSound` | src/main/include/zmq/zmq_addon.hpp:275-302 | the parts delivered are well-formed frames at the front of the input; no error if and only if they are all of it |
| `MultipartCodec.DecodeComplete` | src/main/include/zmq/zmq_addon.hpp:275-302 | whatever follows, a run of well-formed frames is decoded as those frames |
| `MultipartCodec.DecodeAcceptsExactlyTheGrammar` | src/main/include/zmq/zmq_addon.hpp:260-302 | succeeds if and only if the input is a concatenation of frames, which are then unique |
| `MultipartCodec.DecodeDeliversLongestPrefix` | src/main/include/zmq/zmq_addon.hpp:280-298 | before an error the longest run of frames the input starts with has been delivered |
| `MultipartCodec.RoundTrip` | src/main/include/zmq/zmq_addon.hpp:192-302 | decoding an encoding returns the parts, for all parts that can be encoded |
| `MultipartCodec.ReencodeNeverGrows` | src/main/include/zmq/zmq_addon.hpp:287-289 | re-encoding drops four bytes per size below 255 sent in the long form, and is the identity exactly when there is none |
| `MultipartSocket.SendMultipart` | src/main/include/zmq/zmq_addon.hpp:169-190 | all frames with the right "more" flags are queued, or none when the socket would block |
| `MultipartSocket.RecvMultipartN` | src/main/include/zmq/zmq_addon.hpp:45-69 | takes exactly the first message, or n parts of a longer one and throws, or nothing |
| `MultipartSocket.ReceiveAtMost` | src/main/include/zmq/zmq_addon.hpp:45-69 | of a message that was sent, a receiver of at most n parts gets all, or n and an error |
| `MultipartSocket.Multipart.Send` | src/main/include/zmq/zmq_addon.hpp:416-434 | queues the frames and empties the list; on would-block the first part is lost |
| `MultipartSocket.Multipart.Recv` | src/main/include/zmq/zmq_addon.hpp:396-413 | replaces the list by exactly the first message, or empties it |
| `MultipartSocket.Multipart.Append` | src/main/include/zmq/zmq_addon.hpp:444-448 | concatenation at the back, the argument is emptied |
| `MultipartSocket.Multipart.Prepend` | src/main/include/zmq/zmq_addon.hpp:437-441 | concatenation at the front in order, the argument is emptied |
| `MultipartSocket.SendReceiveRoundTrip` | src/main/include/zmq/zmq_addon.hpp:45-190 | what was sent is the next message received, and later frames are left alone |
| `MultipartSocket.SendMoreConcatenates` | src/main/include/zmq/zmq_addon.hpp:177-188 | a send with the send-more flag and one without make one message |
| `MultipartSocket.StreamRoundTrip` | src/main/include/zmq/zmq_addon.hpp:45-190 | message boundaries survive for any list of nonempty messages |
| `TimedRobotLoop.TimedRobot.StartCompetition` | src/main/cpp/utils/ckrobot/TimedRobot.cpp:37-72 | with positive periods: the loop goes on exactly until a stop or a wake at time 0, and with positive first deadlines until a stop; each wake comes at the earliest deadline of all callbacks behind the wake before, or at that wake if it has taken longer, plus its lateness; after it every callback has run exactly once per deadline up to its time, in the order of deadlines; a stop loses one callback and nothing else |
| `TimedRobotLoop.TimedRobot.Round` | src/main/cpp/utils/ckrobot/TimedRobot.cpp:42-71 | one round: the time of the wake, when exactly it stops, that nothing is due afterwards and the order is kept, or that the callback that was waited for is lost and nothing has run |
| `TimedRobotLoop.TopIsNextDeadline` | src/main/cpp/utils/ckrobot/TimedRobot.cpp:42-47 | caught up to a time, the top of the queue holds the earliest deadline behind it |
| `TimedRobotLoop.TimedRobot.CatchUp` | src/main/cpp/utils/ckrobot/TimedRobot.cpp:62-71 | when all that is due has a positive period, ends with every deadline after the current time, the same callbacks, and nothing served that was not due |
| `TimedRobotLoop.NeverCaughtUp` | src/main/cpp/utils/ckrobot/TimedRobot.cpp:62-71 | otherwise it never ends: a due callback without a positive period stays due whatever is served |
| `TimedRobotLoop.TimedRobot.Serve` | src/main/cpp/utils/ckrobot/TimedRobot.cpp:65-70 | one callback runs for its deadline and is queued one period later |
| `TimedRobotLoop.TimedRobot.AddPeriodic` | src/main/cpp/utils/ckrobot/TimedRobot.cpp:107-111 | a new callback joins without disturbing the others; the order of deadlines is kept exactly when its first one is not already past |
| `TimedRobotLoop.ServeTop` | src/main/cpp/utils/ckrobot/TimedRobot.cpp:65-70 | serving the earliest deadline keeps all schedules and the global order |
| `TimedRobotLoop.NothingDueMeansCaughtUp` | src/main/cpp/utils/ckrobot/TimedRobot.cpp:62-71 | with nothing due, a callback has run for exactly its deadlines so far |
| `TimedRobotLoop.ServingShrinksBacklog` | src/main/cpp/utils/ckrobot/TimedRobot.cpp:62-71 | with positive periods the catch-up loop terminates |
| `TaskScheduling.TaskScheduler.RunPass` | src/main/cpp/utils/TaskScheduler.cpp:58-91 | every due task before the first that throws runs once; without a throw the wake time is the least deadline |
| `TaskScheduling.TaskScheduler.Visit` | src/main/cpp/utils/TaskScheduler.cpp:61-79 | one task: skipped, run with its deadline advanced, or thrown out of with its deadline kept |
| `TaskScheduling.TaskScheduler.ScheduleTask` | src/main/cpp/utils/TaskScheduler.cpp:26-30 | the task joins at the end with its rate; the list keeps no task twice exactly when it was not in it |
| `TaskScheduling.NextWake` | src/main/cpp/utils/TaskScheduler.cpp:60-77 | a lower bound of all active deadlines that is one of them |
| `TaskScheduling.DeadlinesDoNotDrift` | src/main/cpp/utils/TaskScheduler.cpp:71-76 | after n completed runs the next deadline is n periods and the last n - 1, for any wake times and throws |
| `TaskScheduling.RunsAreBounded` | src/main/cpp/utils/TaskScheduler.cpp:71-76 | n > 1 completed runs mean that n - 1 periods have passed |
| `TaskScheduling.FirstRunIsImmediate` | src/main/cpp/utils/TaskScheduler.cpp:71-73 | a task with a rate runs in the first pass that gets to it, even at time 0 |
| `TaskScheduling.NoRateNoRun` | src/main/cpp/utils/TaskScheduler.cpp:65-68 | a task without a rate never runs |
| `TaskScheduling.BacklogDrains` | src/main/cpp/utils/TaskScheduler.cpp:61-79 | over passes at any nondecreasing times, with any throws behind the task, its oldest deadlines are worked off one per pass, and a pass leaves it out only when it has nothing overdue |
| `TaskScheduling.ThrowingTaskStarvesTheRest` | src/main/cpp/utils/TaskScheduler.cpp:58-91 | a due task that throws in every pass keeps all tasks behind it from ever running |
| `TaskScheduling.PeriodIsExactIff` | src/main/cpp/utils/TaskScheduler.cpp:75 | the 32-bit product is exact up to 4294967 ms |
| `TaskScheduling.PeriodVanishesIff` | src/main/cpp/utils/TaskScheduler.cpp:75 | the period is 0 exactly for rates that are multiples of 2^29 |
| `TaskScheduling.VanishedPeriodRunsEveryPass` | src/main/cpp/utils/TaskScheduler.cpp:71-75 | such a task runs in every pass |
| `RobotFailover.Robot.LoopFunc` | src/main/cpp/utils/ckrobot/IterativeRobotBase.cpp:115-190 | one loop: exit, entry, periodic and robot periodic effects in order, with the whole new state |
| `RobotFailover.Robot.RunRobotPeriodic` | src/main/cpp/Robot.cpp:84-122 | the failover switch: reset, initialise or keep, then poll |
| `RobotFailover.SwerveDrivetrainFailover.Init` | src/main/cpp/failover/subsystems/SwerveDrivetrainFailover.cpp:7-41 | a new joystick, steering held at the sensed position (0 for a missing motor) |
| `RobotFailover.SwerveDrivetrainFailover.Uninit` | src/main/cpp/failover/subsystems/SwerveDrivetrainFailover.cpp:43-55 | the joystick, which must be alive, is deleted, and all drive outputs are 0 |
| `RobotFailover.SwerveDrivetrainFailover.Periodic` | src/main/cpp/failover/subsystems/SwerveDrivetrainFailover.cpp:57-72 | angles follow the registered steering motors, the others keep theirs |
| `RobotFailover.SwerveDrivetrainFailover.Run` | src/main/cpp/failover/subsystems/SwerveDrivetrainFailover.cpp:86-126 | outputs from the joystick, or 0 without one |
| `RobotFailover.TeleopDrives` | src/main/cpp/Robot.cpp:147-154 | in teleop without external control each drive and steering output is what the kinematics make of the three axes, written out with their signs and scales; without a connected joystick the drive is 0 |
| `RobotFailover.OnlyTeleopDrives` | src/main/cpp/Robot.cpp:132-176 | external control and every other mode keep the Periodic off the drivetrain |
| `RobotFailover.FailoverDrives` | src/main/cpp/Robot.cpp:147-154 | over runs: after a teleop loop in failover the drive outputs are those of the sticks |
| `RobotFailover.InitHoldsTheWheels` | src/main/cpp/failover/subsystems/SwerveDrivetrainFailover.cpp:13-40 | initialising holds each wheel where its sensor sees it |
| `RobotFailover.PollFollowsTheWheels` | src/main/cpp/failover/subsystems/SwerveDrivetrainFailover.cpp:57-72 | polling follows the sensors that there are and moves nothing |
| `RobotFailover.UninitStops` | src/main/cpp/failover/subsystems/SwerveDrivetrainFailover.cpp:43-55 | uninitialising stops the drive and leaves the wheels |
| `RobotFailover.SteeringUnits` | src/main/cpp/failover/subsystems/SwerveDrivetrainFailover.cpp:81-84 | a turn is 4096 units; turning an angle into a position is the inverse of reading one |
| `RobotFailover.DriveUnits` | src/main/cpp/failover/subsystems/SwerveDrivetrainFailover.cpp:74-79 | one wheel turn per second is 6.75 motor turns of 2048 units per second, counted per 100 ms; velocities are in proportion |
| `RobotFailover.FailoverPolls` | src/main/cpp/Robot.cpp:108-120 | every loop without external control leaves the angles at what the sensors show, the first one also the wheels |
| `RobotFailover.PublishedMode` | src/main/cpp/Robot.cpp:124-175 | over runs: the published control mode is the last named one |
| `RobotFailover.StartupCompletedIff` | src/main/cpp/Robot.cpp:88-107 | over runs: which loop completes the startup |
| `RobotFailover.EveryLoopCounts` | src/main/cpp/Robot.cpp:84-122 | RobotPeriodic runs once per loop, failover polls once per loop without external control |
| `RobotFailover.LoopIsSafe` | src/main/cpp/Robot.cpp:84-154 | every intermediate state of a loop is safe, also when teleop code runs before failover is initialised |
| `RobotFailover.AlwaysSafe` | src/main/cpp/Robot.cpp:84-154 | over every run and all answers of the other thread: a live joystick exists iff failover is active, none is leaked or freed twice, and all four drive outputs are 0 otherwise |
| `RobotFailover.ShutdownLeaksNothing` | src/main/cpp/failover/subsystems/SwerveDrivetrainFailover.cpp:212-215 | destruction after any run leaves no joystick and no drive output |
| `RobotFailover.ModesAreBracketed` | src/main/cpp/utils/ckrobot/IterativeRobotBase.cpp:132-190 | entries and exits alternate and match, Periodic runs once per loop within its own mode with that mode published, and RobotPeriodic ends each loop |
| `RobotFailover.FailoverAlternates` | src/main/cpp/Robot.cpp:88-120 | initialisation and reset alternate, polling happens only in between |
| `Network.NetworkManager.ReceiveMessagePump` | src/main/cpp/NetworkManager.cpp:41-69 | stores exactly the arrivals before the first eleven-byte message or error, the last one of a group wins; the stop is taken off and lost |
| `Network.NetworkManager.PlaceFailoverMessage` | src/main/cpp/NetworkManager.cpp:71-76 | one slot is overwritten |
| `Network.NetworkManager.GetMessage` | src/main/cpp/NetworkManager.cpp:78-88 | returns and empties the slot, or fails |
| `Network.ExternalControlManager.ProcessHeartbeat` | src/main/cpp/ExternalControlManager.cpp:18-25 | counts down and stops at 0 |
| `Network.PrefixMeaning` | src/main/cpp/NetworkManager.cpp:45-61 | what is stored, what is taken and what stopped the pump |
| `Network.MailboxRefinesHistory` | src/main/cpp/NetworkManager.cpp:41-88 | in every interleaving a get finds the latest message stored to its group since it was last taken, and fails iff there is none |
| `Network.ConnectedIffRecentMessage` | src/main/cpp/ExternalControlManager.cpp:6-25 | the countdown stays in 0..50 and is positive iff fewer than 50 ticks passed since the last stored network message |
| `Network.OnlyElevenByteMessagesAreLost` | src/main/cpp/NetworkManager.cpp:45-61 | repeated pumps deliver a backlog in order except for those messages and errors |
| `Network.NothingIsLostIff` | src/main/cpp/NetworkManager.cpp:45-61 | a backlog arrives complete iff it has neither |
| `DriveHelperModel.DriveHelper.CalculateOutput` | src/main/cpp/failover/utils/drive_helper.cpp:3-102 | the outputs and all three accumulators after a call |
| `DriveHelperModel.DriveHelper.Clip` | src/main/cpp/failover/utils/drive_helper.cpp:83-101 | the four-way clipping with over-power |
| `DriveHelperModel.WheelCurve` | src/main/cpp/failover/utils/drive_helper.cpp:9-22 | two passes of the scaled sine in high gear, three in low gear; full deflection stays |
| `DriveHelperModel.InertiaScalars` | src/main/cpp/failover/utils/drive_helper.cpp:30-48 | the four scalars and when each applies |
| `DriveHelperModel.TurnOf` | src/main/cpp/failover/utils/drive_helper.cpp:49-52 | the turn is the curve, the accumulated inertia and what this movement adds |
| `DriveHelperModel.InertiaHelpsTheTurn` | src/main/cpp/failover/utils/drive_helper.cpp:49-52 | from rest in high gear, moving the wheel adds four times its movement |
| `DriveHelperModel.CurvatureDrive` | src/main/cpp/failover/utils/drive_helper.cpp:71-85 | in range, without quick turn, the sides are throttle plus and minus the turn, which grows with the size of the throttle by 0.95 or 1.3, less the quick stop |
| `DriveHelperModel.QuickStopOpposesTheTurn` | src/main/cpp/failover/utils/drive_helper.cpp:73 | quick stop turns the robot the other way, at zero throttle by just its charge |
| `DriveHelperModel.QuickTurn` | src/main/cpp/failover/utils/drive_helper.cpp:63-99 | in range a quick turn adds the turn to the throttle; beyond, one side is at its limit |
| `DriveHelperModel.QuickStopCharges` | src/main/cpp/failover/utils/drive_helper.cpp:63-68 | below throttle 0.2 quick stop closes a tenth of its distance to five times the turn, cut off at 1; otherwise it stays |
| `DriveHelperModel.TelescopingBound` | src/main/cpp/failover/utils/drive_helper.cpp:5-59 | over any high-gear run with the wheel in range the inertia accumulator is within 4 of four times the wheel, hence within 8 |
| `DriveHelperModel.StillWheelDischarges` | src/main/cpp/failover/utils/drive_helper.cpp:49-59 | with the wheel held it loses one unit per call until exactly 0, in either gear |
| `DriveHelperModel.EightStillCallsSuffice` | src/main/cpp/failover/utils/drive_helper.cpp:49-59 | after any high-gear run eight such calls bring it to 0 |
| `DriveHelperModel.LowGearStretches` | src/main/cpp/failover/utils/drive_helper.cpp:16-21 | for every sine-like function the low-gear curve keeps the wheel's sign and at most about doubles it |
| `DriveHelperModel.ExcessIsSmall` | src/main/cpp/failover/utils/drive_helper.cpp:30-49 | in either gear what the scalar adds beyond 3.5 times the wheel's movement is at most the unit that decays |
| `DriveHelperModel.InertiaBound` | src/main/cpp/failover/utils/drive_helper.cpp:5-59 | over any run with the wheel in range, in any gears, the inertia accumulator is within 3.5 of 3.5 times the wheel, hence within 7 |
| `DriveHelperModel.SevenStillCallsSuffice` | src/main/cpp/failover/utils/drive_helper.cpp:49-59 | after any such run seven calls with the wheel held bring it to 0 |
| `DriveHelperModel.QuickStopBound` | src/main/cpp/failover/utils/drive_helper.cpp:63-81 | the quick-stop accumulator never exceeds 5, in every run |
| `DriveHelperModel.QuickStopDischarges` | src/main/cpp/failover/utils/drive_helper.cpp:74-80 | it loses one unit per call without quick turn until exactly 0 |
| `DriveHelperModel.FiveCallsEndQuickStop` | src/main/cpp/failover/utils/drive_helper.cpp:63-81 | after any run five such calls bring it to 0 |
| `DriveHelperModel.QuickTurnKeepsTheTurn` | src/main/cpp/failover/utils/drive_helper.cpp:83-101 | a quick turn keeps the demanded difference of the sides, both in range |
| `DriveHelperModel.CurvatureDriveLimitsEachSide` | src/main/cpp/failover/utils/drive_helper.cpp:83-101 | without quick turn each side is limited by itself |
| `ValueRamperModel.ValueRamper.CalculateOutput` | src/main/cpp/failover/utils/ValueRamper.cpp:7-53 | the first call starts the clock and answers 0; later ones step towards the target |
| `ValueRamperModel.MovesTowardsTarget` | src/main/cpp/failover/utils/ValueRamper.cpp:17-49 | the move is the distance or one step, whichever is less, never past the target |
| `ValueRamperModel.RateIndependence` | src/main/cpp/failover/utils/ValueRamper.cpp:10-49 | two calls for one target do what one call at the later time does |
| `ValueRamperModel.OnlyTheLastCallCounts` | src/main/cpp/failover/utils/ValueRamper.cpp:7-53 | the same for any schedule of calls |
| `ValueRamperModel.ReachesTargetIff` | src/main/cpp/failover/utils/ValueRamper.cpp:7-53 | a constant target is reached exactly when the elapsed time covers the distance at the applicable rate |
| `ValueRamperModel.FullScaleTimes` | src/main/cpp/failover/utils/ValueRamper.cpp:12-14 | the two rates are the times from full off to full on and back |
| `ValueRamperModel.WhichRate` | src/main/cpp/failover/utils/ValueRamper.cpp:17-44 | which rate applies on the way from any value to any other |
| `ValueRamperModel.MirrorImageIff` | src/main/cpp/failover/utils/ValueRamper.cpp:17-44 | reverse mirrors forward exactly unless the target is 0 and the two steps differ |
| `ValueRamperModel.ReverseStopsMoreSlowly` | src/main/cpp/failover/utils/ValueRamper.cpp:24-44 | a concrete stop from reverse that takes two and a half times as long |
| `CKMath.NormalizeWithDeadband` | src/main/include/utils/CKMath.hpp:79-88 | dead zone to 0, the rest shifted and stretched |
| `CKMath.StretchedRange` | src/main/include/utils/CKMath.hpp:79-88 | full range stays full range, and 0 comes from the dead zone only |
| `CKMath.StretchedEvenly` | src/main/include/utils/CKMath.hpp:79-88 | t of the way from the edge of the dead zone to full deflection becomes t |
| `CKMath.LimitMeaning` | src/main/include/utils/CKMath.hpp:55-58 | what is in range stays, everything else goes to the nearer end |
| `CKMath.StretchedIsOdd` | src/main/include/utils/CKMath.hpp:79-88 | both directions are treated alike |
| `CKMath.StretchedIsMonotone` | src/main/include/utils/CKMath.hpp:79-88 | more deflection never gives less output |
| `CKMath.NormalizeYaw` | src/main/include/utils/CKMath.hpp:133-145 | both loops terminate on every real, at the angle that counting the turns gives |
| `CKMath.NormalizedYawMeaning` | src/main/include/utils/CKMath.hpp:133-145 | in [-180, 180], a whole number of turns away, idempotent |
| `CKMath.InRangeRepresentative` | src/main/include/utils/CKMath.hpp:133-145 | the angle in range is unique but for the half turn |
| `Pigeon2.CKPigeon2.SetYaw` | src/main/cpp/utils/drivers/CKPigeon2.cpp:17-36 | stores the offset to the raw reading, or changes nothing on failure |
| `Pigeon2.CKPigeon2.GetYPR` | src/main/cpp/utils/drivers/CKPigeon2.cpp:66-96 | fills all three angles, or none on failure |
| `Pigeon2.ReportedYaw` | src/main/cpp/utils/drivers/CKPigeon2.cpp:33-87 | with the offset of a yaw y set at raw r, raw r' is reported in range and congruent to y + r' - r |
| `Pigeon2.YawIsTracked` | src/main/cpp/utils/drivers/CKPigeon2.cpp:17-96 | the same after any later reads and failures |
| `Pigeon2.UnsetYawIsRaw` | src/main/cpp/utils/drivers/CKPigeon2.cpp:66-96 | until the yaw is set the raw one is reported |
| `Pigeon2.Radians` | src/main/cpp/utils/drivers/CKPigeon2.cpp:93 | a half turn is pi, and everything else in proportion |
| `Pigeon2.SetThenGet` | src/main/cpp/utils/drivers/CKPigeon2.cpp:17-96 | read back at once, the yaw is the one set, up to the sign of the half turn |
| `Arena.MaskRoundsDown` | src/main/include/google/protobuf/arena.h:101-105 | and-ing with a mask of high bits rounds down to a multiple of a power of two |
| `Arena.AlignToMeaning` | src/main/include/google/protobuf/arena.h:101-105 | the next multiple of a power of two |
| `Arena.AlignUpTo8Meaning` | src/main/include/google/protobuf/arena_impl.h:54-57 | the next multiple of 8 |
| `Arena.AlignToFits` | src/main/include/google/protobuf/arena.h:569-570 | the aligned object fits the size + align - 8 bytes requested |
| `Arena.NoByteIsShared` | src/main/include/google/protobuf/arena_impl.h:149-207 | no byte belongs to two objects, two nodes or one of each, and all lie in the block |
| `Arena.ReservedFits` | src/main/include/google/protobuf/arena.h:563-569 | the room reserved holds the object and keeps the pointer aligned |
| `Arena.SerialArena.AllocateAligned` | src/main/include/google/protobuf/arena_impl.h:151-168 | bumps exactly when there is room, and keeps the block well formed |
| `Arena.SerialArena.AllocateAlignedWithCleanup` | src/main/include/google/protobuf/arena_impl.h:180-199 | the same with a node below the limit |
| `Arena.SerialArena.AddCleanup` | src/main/include/google/protobuf/arena_impl.h:202-207 | a node without an object |
| `Arena.SerialArena.AllocateInternal` | src/main/include/google/protobuf/arena.h:556-576 | the object is aligned, inside its region and named by its node |
| `SafePrinters.Utoa` | src/main/cpp/utils/death_handler.cpp:172-186 | a NUL-terminated numeral inside the 32-byte window, nothing else written |
| `SafePrinters.UtoaDigits` | src/main/cpp/utils/death_handler.cpp:181-184 | the digit loop leaves the digits, at most 30, right in front of the NUL |
| `SafePrinters.ItoaDigits` | src/main/cpp/utils/death_handler.cpp:160-163 | the same for magnitudes, up to the first read in front of the digit table |
| `SafePrinters.Itoa` | src/main/cpp/utils/death_handler.cpp:150-168 | the signed numeral in the window, or the read in front of the digit table, exactly when some digit of a negative number is not 0 |
| `SafePrinters.Numerals` | src/main/cpp/utils/death_handler.cpp:150-186 | lower-case letters unsigned, upper-case ones signed, a minus in front of a negative number |
| `SafePrinters.Ptoa` | src/main/cpp/utils/death_handler.cpp:189-196 | "0x" and the hexadecimal numeral, copied without overlap inside 64 bytes |
| `SafePrinters.Strcpy` | src/main/cpp/utils/death_handler.cpp:189-196 | the copy that ends before its source begins is exact, and nothing else is written |
| `SafePrinters.HexLength` | src/main/cpp/utils/death_handler.cpp:189-196 | a 64-bit value has at most 16 hexadecimal digits |
| `SafePrinters.DigitsReadBack` | src/main/cpp/utils/death_handler.cpp:172-186 | the digits read back as the value modulo what fits in the slots |
| `SafePrinters.RoundTripIff` | src/main/cpp/utils/death_handler.cpp:172-186 | a numeral reads back as its value iff the value is below base^30, and then has no leading zero |
| `SafePrinters.AllWordsRoundTripIff` | src/main/cpp/utils/death_handler.cpp:172-186 | all 64-bit values round trip iff the base is at least five |
| `SafePrinters.IntsReadBack` | src/main/cpp/utils/death_handler.cpp:150-168 | non-negative ints round trip from base three on |
| `SafePrinters.CannotPrintIff` | src/main/cpp/utils/death_handler.cpp:150-168 | the faulting numbers; from base three on exactly the negative ones |

## Left out

Assumptions and simplifications

- TimedRobot.hpp and IterativeRobotBase.hpp are not part of this model: the queue is any queue whose top has a least
  expiration time, ties broken arbitrarily, and the initial mode is none.
- The .proto files are not part of this model: a message is the map of the values present in it, booleans and
  enumerations are numbers; no property depends on which enumeration value has which number.
- Phoenix, HAL, WPILib and ZeroMQ calls are small contracts and succeed, except where the code tests for failure; the
  retry helper and clearing sticky faults are left out. The differencer is taken at its promise, for any order of
  its reports; unknown fields in a message are left out.
- Floating point is modelled by reals: no rounding, infinity or NaN, except that a command's output may be one of the
  latter two. Ramp rates and denominators are not zero. The swerve kinematics and their optimisation are
  arbitrary functions, and so is the sine, except where `SineLike` asks for three of its properties.
- Tasks, heartbeat and locks: each task's run is one step. `try_lock` succeeds, or the message is none. Times are whole
  microseconds and do not overflow 64 bits; negative deadlines do not occur.
- TimedRobotLoop.TimedRobot.StartCompetition: takes periods to be positive (with others the catch-up loop need not end,
  see `NeverCaughtUp`) and the notifier to fire at or after its alarm and never back in time;
  callbacks do not add others while they run.
- TaskScheduling.TaskScheduler.RunPass: is not stated for a list that holds a task twice, or a null; the program
  schedules each of its tasks once.
- MultipartSocket.Multipart.Append: takes another object as argument; with itself the source never ends.
- MultipartSocket.Multipart.Prepend: the same.
- MotorTasks.ApplyMotorValuesTask.Apply: takes a follower's output value as already converted to the master's id.
- Arena sizes are below 2^63, and a request the block has no room for is answered None instead of falling back to a new
  block; per-thread lookup is left out.
- Encoded messages are not limited to the address space. Printers take bases 1 to 16.

Not modelled

- The registries of solenoids, encoders, IMUs and CANdles, near copies of the motor registry.
- Joystick polling, the tasks that send data, logging, error reporting and thread priorities.
- Arm, intake and LED failover, which set constants.
- The crash handler's signals, stack traces and output; the rest of the protobuf headers; the ZeroMQ socket wrapper.
