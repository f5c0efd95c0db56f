# Verified model of QUB_Controller

QUB_Controller drives a thirteen-joint biped whose RobStride motors sit on four CAN channels. One
real-time thread per channel sends MIT commands, collects feedback and publishes it through a seqlock;
a policy reads the merged state and publishes actions the same way. Two maintenance programs share the
bus protocol: `position_read` holds motors at their measured angle, `motor_config` changes motor IDs.

The project models that control path and proves what it keeps over whole runs:

| file | subject |
|---|---|
| `Codec.dfy` | linear quantisation between floats and 16-bit codes, under exact and under rounded arithmetic |
| `Wire.dfy`, `Frames.dfy` | 29-bit identifiers, payload packing, commands, the feedback frame, the `mechPos` reply, binary32; and all of it again in plain numbers |
| `Seqlock.dfy`, `SeqlockWrap.dfy`, `SeqlockProgress.dfy`, `SeqLocked.dfy` | the seqlock as an interleaving transition system, the exactness of its bound, why loads return, and `store`/`load` as loops over that system |
| `SharedState.dfy`, `RobotConfig.dfy` | the records copied through the seqlock word by word, and `MOTOR_MAP` |
| `Timing.dfy` | `timespec` arithmetic and the absolute schedule of `run` |
| `MotorFeedback.dfy`, `MotorThread.dfy`, `ThreadLife.dfy` | draining, publishing, the cycle, the thread's life |
| `Routing.dfy`, `EndToEnd.dfy` | distribution of the motor map, the thirteen-joint merge, and the composed theorems |
| `HoldTrace.dfy`, `Hold.dfy`, `HoldFrames.dfy`, `Polling.dfy`, `HoldController.dfy`, `Scan.dfy` | `position_read`: the rules of its bus history, the motors' state, each operation's frames, the round robin, the control loop, the scan |
| `SetId.dfy` | `motor_config set-id` against devices behind a lossy bus |

`dafny verify dfyconfig.toml` checks everything.

## How the original is represented

- Clocks, keys, signals, transmit results, received frames and exceptions from text assignment are
  arbitrary. A write may be refused at any time; a read may deliver any frame, nothing or an error. A
  loop that waits for a deadline runs an arbitrary number of rounds.
- The seqlock's steps interleave sequentially consistently; that is an assumption. The plain copy of
  `data_` is a data race in C++ (section 6.9.2.1 of C++20), so memory ordering is not covered. The copy
  is split into words, in ascending order, with any number of steps of other threads between them.
  `seq_` is 32 bits wide and wraps.
- Float arithmetic appears twice: exactly over `real`, and with every operation followed by a rounding
  of relative error at most 2^-24 (round-to-nearest, section 4.3 of IEEE 754-2019, without underflow;
  converting a 16-bit integer to float and the literals are exact). Infinities and NaN exist only as
  values taken from the wire and as command fields; a command holding one has no frame, because its
  cast to `uint16_t` is undefined.
- Objects whose methods change fields are classes with ghost history: the events of a seqlock run, the
  frames a thread attempted, the bus log of `position_read`, the frames of a set-id command.

## Where code and documentation differ

The model follows the code.

- `docs/position_read.md:24-25` promises that quitting stops every enabled motor. That fails in two ways,
  and in no other (`HoldFrames.ExitExactly`, `HoldController.Controller.Run`): a motor that is on when the
  exit begins stays armed exactly when the bus refuses the exit's one STOP to it; a motor that counts as
  off is armed exactly when, since its last accepted ENABLE, a hold frame and every STOP to it were
  refused, and then the exit sends it nothing. `HoldFrames.ExitCanLeaveArmed` and
  `HoldFrames.RefusedHoldCanLeaveArmed` are runs of either kind.
- `docs/motor_config.md:91-92` says set-id verifies that the new ID is unused. Lost replies defeat the
  check: success keeps IDs unique exactly when the new ID was free (`SetId.UniqueExactlyIfFree`), and
  `SetId.NewInUseCanGoUnnoticed` is a command that returns 0 and leaves two devices at one ID.
- `src/motor_thread.cpp:162` speaks of emptying the queue. The read precedes the cap test, so a cycle
  that finds 33 frames takes 33 and offers 32; the last is lost (`MotorFeedback.Receiver.DrainFeedback`).
- `src/motor_thread.cpp:135-136` calls the command before the first action a free-hanging state. Its
  gains are zero, but its torque decodes to half a quantum below zero (`Wire.FreeCommandDecodes`).
- The shutdown flag is never lowered: after `stop`, a new `start` enables the motors and its thread
  leaves without sending a MIT frame (`ThreadLife.RestartStaysQuiet`).
- When `pthread_create` fails, `start` reports it and leaves the motors enabled; the lifecycle theorem
  is about threads that started (`ThreadLife.Life.DoStart`).
- `include/robot_config.hpp:106` gives motor IDs as 1..253, and the table uses 0; nothing depends on it.

## Model

| member | source | states |
|---|---|---|
| Codec.ScaledNearIdeal | src/robstride.cpp:53-58 | under any rounding of relative error 2^-24 the value about to be cast is within 4.04 units of the exact one and inside [0, 65536), for every float and range: the cast never overflows |
| Codec.RoundedCodeWithinOne | src/robstride.cpp:53-58 | rounding moves a code by at most one |
| Codec.EncodeMonotone | src/robstride.cpp:53-58 | a larger setpoint never gets a smaller code, under any monotone rounding |
| Codec.DecodeNearLevel | src/robstride.cpp:60-63 | decoding is within 4.2 units in the last place of the range's width of the exact level |
| Codec.RoundTripRounded | src/robstride.cpp:53-63 | encoding a decoded code u gives u or u-1, for every code, range and rounding |
| Codec.RoundTripCanLoseOne | src/robstride.cpp:53-63 | u-1 happens in the program's own arithmetic: with every operation rounded to the nearest binary32 number, velocity code 1 comes back as 0 |
| Codec.RoundTripExact | src/robstride.cpp:53-63 | with exact reals the round trip is the identity |
| Codec.DecodeBelowSetpoint | src/robstride.cpp:53-63 | a setpoint decodes to at or below its clamped value, by less than one quantum |
| Codec.ZeroDecodesBelow | src/robstride.cpp:53-63 | in a symmetric range zero gets code 32767 and decodes half a quantum low |
| Codec.ZeroKeptAtLowEnd | src/robstride.cpp:53-63 | in a range starting at zero, zero survives under any rounding |
| Wire.ExtIdFields | src/robstride.cpp:39-44 | the identifier has 29 bits and every field is recovered from it |
| Wire.ExtIdStatus | src/robstride.cpp:221-232 | mode, fault, source and destination are recovered from a feedback identifier |
| Wire.ExtIdInjective | src/robstride.cpp:39-44 | equal identifiers mean equal fields |
| Wire.MitDecodes | src/robstride.cpp:112-132 | an independent motor-side decoder recovers, under any rounding, exactly the five codes and the motor ID |
| Wire.MitFidelity | src/robstride.cpp:112-132 | for all real setpoints the decoder recovers the ID and five values, each at or below the clamped setpoint by less than one quantum |
| Wire.MitFidelityRounded | src/robstride.cpp:112-132 | the same under any rounding of relative error 2^-24, with one more quantum of slack on either side |
| Wire.FreeCommandDecodes | src/motor_thread.cpp:146-147 | the all-zero command: gains exactly zero, position, velocity and torque half a quantum low |
| Wire.FreeGainsAreZero | src/motor_thread.cpp:146-147 | the gains are exactly zero under any rounding |
| Wire.IdsSeparate | src/robstride.cpp:39-44 | frames of different kinds or to different motors never share an identifier |
| Wire.EncodeSeparates | src/robstride.cpp:70-180 | apart from MIT frames, a frame determines its command and its motor |
| Wire.FeedbackRoundTrip | src/robstride.cpp:215-253 | parsing inverts the motor's encoding, for exactly the motor that sent it, for all modes, faults, hosts and codes |
| Wire.MechPosAccepted | apps/position_read.cpp:259-278 | a `mechPos` reply is accepted exactly when its 32-bit pattern is finite, and then yields the sender and that value |
| Wire.Float32Ordered | apps/position_read.cpp:276 | the patterns copied into a float are ordered as their values, and the sign bit negates |
| Wire.Float32One | apps/position_read.cpp:276 | the scale: pattern 0x3F800000 is 1 |
| Frames.CommandIds | docs/motor_config.md:11-17 | every command is an extended frame of eight bytes under the identifier the tables give, as a number: kind, host (or torque code, or new ID and host) and motor |
| Frames.CommandData | src/robstride.cpp:70-180 | position requests carry bytes 19 70, the run-mode write 05 70 and the mode, MIT frames the four codes most significant byte first; GET_ID, ENABLE, STOP and SET_ID eight zeros |
| Frames.ParamDecodes | apps/position_read.cpp:247-257 | an independent motor-side decoder reads kind 0x11 and parameter 0x7019 from a position request, kind 0x12, parameter 0x7005 and the mode from a run-mode write, host and motor from both, zeros elsewhere |
| Frames.RangeEnds | include/robstride.hpp:64-73 | the lowest and highest codes of the five ranges decode to the limits of the header |
| Frames.LimitsNearest | include/robstride.hpp:64-65 | the position limit is the binary32 number nearest to 12.57, and the temperature factor the one nearest to 0.1 |
| Frames.FeedbackAccepted | src/robstride.cpp:215-229 | a feedback frame is accepted exactly when it is extended, of kind 2 and from this motor |
| Frames.FeedbackNumbers | src/robstride.cpp:200-213 | the feedback frame as numbers: where mode, fault, motor, host and the four codes stand |
| Frames.MechPosExactly | apps/position_read.cpp:259-278 | a frame is accepted as a position reply exactly when it is extended, of eight bytes, of kind 0x11, to this host, of parameter 0x7019 and with an exponent that is not all ones; every other frame is rejected |
| SharedState.ChannelRoundTrip | include/shared_state.hpp:57-66 | a channel state is recovered from its 22 words |
| SharedState.ActionRoundTrip | include/shared_state.hpp:90-99 | an action is recovered from its 67 words |
| Seqlock.EveryLoadLinearized | include/shared_state.hpp:124-133 | in every interleaving of one writer and any readers, every load whose window saw fewer than 2^31 stores returned the register's value at an instant inside the call |
| Seqlock.LoadLinearizable | include/shared_state.hpp:115-133 | the instant is the first read of the sequence, and no store began in the window |
| Seqlock.LoadsNeverGoBack | include/shared_state.hpp:124-133 | a load that starts reading later never returns an older store |
| Seqlock.OneReaderInOrder | include/shared_state.hpp:124-133 | one reader's loads do not overlap, so its loads never go back |
| Seqlock.RetriesBounded | include/shared_state.hpp:126-132 | a load's failed validations are at most the stores begun during it |
| Seqlock.RetriesBoundedSoFar | include/shared_state.hpp:126-132 | the same for a load still spinning |
| Seqlock.GenerationCounts | include/shared_state.hpp:135-137 | in every reachable state `generation` is, modulo 2^31, the stores made so far less the one in progress |
| SeqlockProgress.UndisturbedLoad | include/shared_state.hpp:124-133 | from every state of every run with the writer idle, the undisturbed steps of one load finish exactly one load, of the register, without a failed validation, and change nothing else |
| SeqlockProgress.OddMeansBusy | include/shared_state.hpp:127-128 | an odd sequence at the first read means a store was in progress |
| SeqlockProgress.ChangedMeansBusy | include/shared_state.hpp:130-131 | another sequence at the second read means a store began since |
| SeqlockProgress.QuietNotBlocked | include/shared_state.hpp:124-133 | with an idle writer that takes no step since the call no round fails |
| SeqlockProgress.QuietValue | include/shared_state.hpp:124-133 | and the load returns the register as it was at the call |
| Seqlock.RegisterThen | include/shared_state.hpp:115-122 | the register at any earlier instant is one of the stores of the whole run, whole |
| SeqlockWrap.StoreMany | include/shared_state.hpp:115-122 | the effect of n successive undisturbed stores of a value of any width on the state |
| SeqlockWrap.TornAfterWrap | include/shared_state.hpp:124-133 | the bound is exact: with 2^31 stores inside the window a load returns a mix that was never stored |
| SeqLockedCell.SeqLocked.Store | include/shared_state.hpp:115-122 | between arbitrary reader steps, `store` appends its value and it becomes the register |
| SeqLockedCell.SeqLocked.Load | include/shared_state.hpp:124-133 | the retry loop returns a linearized value of the run, called after the method began; every round that fails does so because a store was in progress or began in its window, and a call that returns nothing had all its rounds fail; with the writer idle at the call and no step of it since, the first round returns the register |
| SeqLockedCell.SeqLocked.GetGeneration | include/shared_state.hpp:135-137 | the completed stores modulo 2^31 |
| Timing.AddNs | include/rt_utils.hpp:101-108 | the total grows by ns; the result is normalised exactly when the nanosecond field does not go negative |
| Timing.DiffNs | include/rt_utils.hpp:110-113 | the difference of the totals |
| Timing.NormalUnique | include/rt_utils.hpp:101-113 | a normalised timespec is determined by its total |
| Timing.Pacer.Measure | src/motor_thread.cpp:115-121 | the period just measured, the missed count, and periods telescoping to elapsed time |
| Timing.Pacer.EndCycle | src/motor_thread.cpp:115-125 | one cycle's end keeps the schedule: `next` normalised and at start + loops * period; the measurement falls within the call and its distance from the last one is the period recorded |
| Timing.Pacer.ScheduleHolds | src/motor_thread.cpp:103-127 | `next` is start + loops * period for all loops; loops are at most elapsed / period plus interrupted sleeps; 1.5 periods per missed deadline never exceed elapsed time; the missed count is the number of periods above 3 ms |
| Timing.LateBounded | src/motor_thread.cpp:120-121 | late periods times 1.5 periods stay below the sum of the periods |
| Timing.LateCounted | src/motor_thread.cpp:120-121 | the missed count is the number of recorded periods above 3 ms, each counted once |
| MotorFeedback.TargetIsSource | src/motor_thread.cpp:176-179 | with distinct IDs the binding that takes a frame is the one whose ID is the frame's source |
| MotorFeedback.LastForIsLast | src/motor_thread.cpp:175-181 | the last reading for a motor is that of the last frame that goes to it |
| MotorFeedback.LastForNone | src/motor_thread.cpp:175-181 | and there is none when no frame goes to it |
| MotorFeedback.LastParseIsLatest | src/robstride.cpp:245-251 | a motor's feedback carries the latest stamp of its parses, zero exactly when it has none |
| MotorFeedback.OnlineMeansHeard | src/motor_thread.cpp:217-221 | `online` is exactly "parsed less than ten periods ago", and the unsigned age never wraps |
| MotorFeedback.ParsesDrain | src/motor_thread.cpp:175-181 | a motor's feedback after the parses of a drain is the last frame meant for it, or what it had |
| MotorFeedback.LastParsed | src/motor_thread.cpp:175-181 | that last frame's reading and stamp are those of one of the drain's own parses |
| MotorFeedback.Receiver.Offer | src/motor_thread.cpp:176-179 | a frame updates at most one motor, the one it is for, and adds exactly its parse to the history |
| MotorFeedback.Receiver.DrainFeedback | src/motor_thread.cpp:166-188 | up to 33 frames leave the queue and the first 32 are offered; unless a read failed, the whole queue is taken, or 33 frames of it; the parses are those of the offered frames; each motor ends with the last frame meant for it; frames read = offered + cycles that found 33 |
| MotorFeedback.Receiver.BuildState | src/motor_thread.cpp:201-224 | the published record, field by field, from one clock reading |
| MotorThreads.MotorThread.SendCommands | src/motor_thread.cpp:139-157 | one frame per motor in order, all from one linearized action; while the writer is quiet there is always one, the current register |
| MotorThreads.MotorThread.PublishState | src/motor_thread.cpp:201-226 | the slot's register becomes the words of this channel's state, stamped with the clock as it stands after the reading; `online` holds exactly for motors heard within ten periods before it |
| MotorThreads.MotorThread.Cycle | src/motor_thread.cpp:109-126 | send, drain, publish, measure, as one contract: coherent frames; the whole queue taken, or 33 frames of it, unless a read failed; the parses of what was taken; a state published, with `online` exact, from all parses so far; drain and publication between the two clock measurements whose difference is the cycle's recorded period; while the writer is quiet the cycle happens |
| MotorThreads.MotorThread.Run | src/motor_thread.cpp:103-127 | everything a run ever sent is a concatenation of coherent batches acting on loads in order; the slot's new stores are exactly the states of those batches, each made of the frames its own and earlier cycles took and published within its cycle's measured time; no frame is lost between cycles; frames read, full cycles, refused and failed reads and measured periods are the sums and lists of the batches' |
| ThreadLife.StopHolds | src/motor_thread.cpp:29-80 | in every run, when stop() or the destructor of a started thread returns, each motor's last two attempts are STOPs and no MIT frame is attempted in the rest of the run |
| ThreadLife.RestartStaysQuiet | src/motor_thread.cpp:38-127 | a thread started with the flag up enables its motors and never sends a MIT frame |
| ThreadLife.StartHolds | src/motor_thread.cpp:38-64 | in every run, flag up or down, whatever pthread_create returns: a start of a thread that is not started attempts one ENABLE to every motor, and it is started exactly when the creation succeeded; a start of a started thread changes nothing |
| ThreadLife.OnlyWholeCycles | src/motor_thread.cpp:109-157 | in every run the MIT frames are whole cycles, one for each snapshot taken: each motor once, in order, with that snapshot's commands, the last possibly still under way |
| ThreadLife.FlagDownSendsCycle | src/motor_thread.cpp:109-157 | and with the flag down a started thread does send them: its next steps are one whole cycle of the snapshot it takes |
| ThreadLife.FlagEndsCycles | src/motor_thread.cpp:109 | once the flag is raised no further snapshot is taken in the rest of the run |
| ThreadLife.Life.DoStart | src/motor_thread.cpp:38-64 | takes exactly the Start step; if not started: one ENABLE per motor, and started exactly when the creation succeeded; a started thread is left alone; a failed creation leaves motors enabled |
| ThreadLife.Life.DoStop | src/motor_thread.cpp:66-80 | takes exactly the Stop step: the cycle in progress is finished, two STOPs per motor; nothing on a stopped thread |
| ThreadLife.Life.DoThreadStep | src/motor_thread.cpp:109-157 | takes exactly the thread's step: one frame of the cycle's snapshot at a time, no cycle once the flag is seen |
| ThreadLife.Life.Drive | src/motor_thread.cpp:29-80 | for any list of calls and thread steps, the program's state and attempts are those of the fold RunLife over the list |
| Routing.Distribute | apps/test_4ch.cpp:131-137 | each channel gets the map's entries for it, in order |
| Routing.EntryHasSlot | apps/test_4ch.cpp:131-137 | no entry is lost |
| Routing.SlotHasEntry | apps/test_4ch.cpp:131-137 | nothing else is there |
| Routing.MapSizes | include/robot_config.hpp:111-132 | four motors on channel 1 and three on the others; joints all different; IDs different within a channel |
| Routing.MapClosedForm | include/robot_config.hpp:111-132 | the table in closed form: motor ID from the joint's number within its side, channel from the limb |
| Routing.CombineChannels | apps/test_4ch.cpp:76-94 | each joint shows its last writer in visiting order, or zero and offline; no array is overrun |
| Routing.WriterIsLastInOrder | apps/test_4ch.cpp:82-92 | the nested loops visit the writers in channel order |
| Routing.SoleWriterWins | apps/test_4ch.cpp:82-92 | with one writer the visiting order is irrelevant |
| EndToEnd.SnapshotIsStoredAction | src/motor_thread.cpp:141 | the snapshot of a cycle is one stored action, whole |
| EndToEnd.CommandObeyed | src/motor_thread.cpp:146-155 | in exact arithmetic, what a motor decodes from its command is its joint's part of the action to within a quantum, or a free command |
| EndToEnd.CommandNearlyObeyed | src/motor_thread.cpp:146-155 | the same under any rounding, to within two quanta, zero gains still exact |
| EndToEnd.CycleObeysOneAction | src/motor_thread.cpp:139-157 | all frames of a cycle, decoded by the motors, obey one and the same stored action, exactly and under any rounding |
| EndToEnd.RunObeysInOrder | src/motor_thread.cpp:103-157 | over a whole run every cycle obeys a stored action and the actions obeyed never go back |
| EndToEnd.OwnMotorIsSoleWriter | apps/test_4ch.cpp:82-92 | once its channel has published, whatever the other channels have done, a joint has exactly one writer: its own motor |
| EndToEnd.UnpublishedHasNoWriter | apps/test_4ch.cpp:82-92 | before its channel's first publication nobody writes a joint |
| EndToEnd.EveryJointMapped | include/robot_config.hpp:111-132 | all thirteen joints are in the map |
| EndToEnd.OrderIrrelevant | apps/test_4ch.cpp:82-92 | any visiting order gives each published joint to its own motor |
| EndToEnd.JointShowsItsMotor | apps/test_4ch.cpp:76-94 | a joint shows the feedback and the online flag of the motor the map binds to it, zeros and offline before its channel's first publication |
| EndToEnd.LoadIsOnePublication | apps/test_4ch.cpp:83 | a channel load is one publication of that channel's thread, made within its cycle's measured time, or the record before the first |
| EndToEnd.ReadMerge | apps/test_4ch.cpp:76-94 | the merge as run, four loads against their threads' interference and the two loops: whatever runs the threads had, if the loads are usable no index leaves its array and the result is the merge of those loads; it waits only while a load still retries, which takes a writer that was busy |
| EndToEnd.OneChannel | src/motor_thread.cpp:103-226 | a channel's thread from start to shutdown, any frames, any readers: its history from a fresh start is that of its cycles, and every usable load of its slot is a publication made by them |
| EndToEnd.MergeRoutesFeedback | apps/test_4ch.cpp:76-94 | from the four threads' cycles to joints: each joint holds its motor's last parse as of one publication, made between the clock measurements that bound its cycle, and is online exactly when that motor was heard within ten periods before it |
| EndToEnd.FeedbackKept | src/motor_thread.cpp:166-181 | cycles without a frame for a motor leave its feedback alone |
| EndToEnd.FrameReachesJoint | src/motor_thread.cpp:166-226 | a feedback frame a motor encoded, among the first 32 of the queue at some cycle's drain with no failed read before it, and the last for the motor up to the publication read: that cycle parsed it with those codes decoded, at a time `stamp` inside the cycle; its joint in the merge shows them, and is online exactly when, at that publication, less than ten periods had passed since `stamp` |
| EndToEnd.FrameBecomesFeedback | src/motor_thread.cpp:175-181 | a feedback frame the motor encoded, when last for it, becomes its last feedback, field by field |
| EndToEnd.ChannelIdsDistinct | include/robot_config.hpp:111-132 | IDs are distinct within each channel's bindings |
| HoldTrace.ArmedMeaning | apps/position_read.cpp:391-472 | armed means an ENABLE was accepted and no STOP since |
| HoldTrace.NotPendingMeaning | apps/position_read.cpp:391-472 | not pending means every ENABLE attempt has a later STOP attempt |
| HoldTrace.DisciplinedAt | apps/position_read.cpp:391-472 | in a disciplined log every frame obeyed the rules when sent: ENABLE directly after own position read, STOP, MIT mode and the primed target; MIT frames only to armed motors or to prime |
| HoldTrace.HoldTargetsSteady | apps/position_read.cpp:398-431 | all MIT frames of one enabled episode carry one target, finite, inside the MIT range and so untouched by the clamp, reported by that motor |
| HoldTrace.MitFramesHold | apps/position_read.cpp:456-472 | every MIT frame of a disciplined log, decoded by its motor, is: hold a position that this motor reported, at no speed and no torque, with the configured stiffness and damping; to within a quantum exactly, two under any rounding |
| HoldTrace.MitRangeNumbers | apps/position_read.cpp:403-404 | the range check in numbers |
| HoldTrace.StrandedMeaning | apps/position_read.cpp:461-466 | armed and dropped means: after the last accepted ENABLE a hold frame was refused and no STOP accepted |
| Hold.ApplyIsolated | apps/position_read.cpp:280-322 | a frame changes at most the one motor it names on the receiving channel: generation up by one, position the finite one reported, control fields untouched |
| Hold.FeedbackApplied | apps/position_read.cpp:288-306 | a motor's feedback frame fills its record, and only its record, with the decoded codes and status |
| Hold.MechPosApplied | apps/position_read.cpp:309-321 | its finite reply to a position request sets its position, and nothing else but the generation |
| Hold.ApplyKeepsSafe | apps/position_read.cpp:280-322 | processing any frame keeps the invariant: a motor is marked enabled exactly when it is armed and no hold frame since its last accepted ENABLE was refused; its target is on record; positions are finite; no ENABLE is forgotten; only listed motors were ever armed |
| Hold.StopAndForget | apps/position_read.cpp:435-454 | so does an accepted STOP after which the motor counts as off, and, once the exit began, a refused one |
| Hold.DropKeepsSafe | apps/position_read.cpp:461-466 | so does a refused hold frame with the STOP attempt after it, accepted or not |
| Hold.EnableAndRemember | apps/position_read.cpp:422-431 | so does an accepted, primed ENABLE |
| Hold.EnableRefused | apps/position_read.cpp:422-428 | so does a refused ENABLE with the STOP attempt after it |
| HoldFrames.ArmedUntilStopped | apps/position_read.cpp:446-472 | without ENABLE a motor stays armed exactly until an accepted STOP |
| HoldFrames.SelectMoves | apps/position_read.cpp:738-741 | Up selects the motor before and Down the one after, round the ends; no other key moves the selection |
| HoldFrames.EnabledIsHeld | apps/position_read.cpp:456-472 | in every complete tick of a run every motor that is on after the key is sent its target: the frame is in the log among that tick's and decodes to the target and the configured gains; if refused, a STOP attempt to the motor is next and it is off |
| HoldFrames.StopRoundFrame | apps/position_read.cpp:446-454 | exactly one of the exit's frames goes to a motor that was on |
| HoldFrames.ExitStops | apps/position_read.cpp:446-454 | a motor is armed after the exit if and only if it was on and its one STOP was refused, or it was off and stranded by a refused hold frame |
| HoldFrames.ExitExactly | docs/position_read.md:24-25 | the same for every motor at once, and no other ID on any channel is armed |
| HoldFrames.ExitCanLeaveArmed | docs/position_read.md:24-25 | a run of one tick and the exit whose STOP is refused: the motor ends armed |
| HoldFrames.RefusedHoldCanLeaveArmed | apps/position_read.cpp:461-466 | a run of one tick whose hold frame and STOP are refused: the exit sends nothing and the motor ends armed |
| HoldController.Controller.ProcessMessage | apps/position_read.cpp:280-322 | the two searching loops do exactly what Apply says |
| HoldController.Controller.DrainAndProcess | apps/position_read.cpp:324-344 | every frame read is processed, in order; a channel is read until a read delivers nothing or 256 frames; closed channels are skipped |
| HoldController.Controller.WaitForReport | apps/position_read.cpp:364-377 | success ends with the first frame that reports this motor, with its position; nothing before did; every frame read is processed |
| HoldController.Controller.RefreshPosition | apps/position_read.cpp:346-378 | one request; reads on its channel; success exactly when the last frame read reports this motor; every frame read is processed |
| HoldController.Controller.SwitchOn | apps/position_read.cpp:409-431 | STOP, MIT mode, priming frame, ENABLE, ended by the first refusal, with a STOP attempt once priming began |
| HoldController.Controller.EnableSelected | apps/position_read.cpp:391-433 | the switching frames are sent exactly when the refresh read a position of the MIT range; that position is the target; enabled exactly when ENABLE was accepted; other motors untouched; every frame read is processed, and beyond that only this motor's flag and target change |
| HoldController.Controller.DisableSelected | apps/position_read.cpp:435-444 | one STOP; the motor counts as off exactly when it was accepted |
| HoldController.Controller.SendHold | apps/position_read.cpp:456-472 | each enabled motor gets its target once; a refusal is followed by one STOP attempt and the motor is off; what an exception cuts off |
| HoldController.Controller.StopAll | apps/position_read.cpp:446-454 | one STOP attempt per enabled motor in order, nothing else, all off |
| HoldController.Controller.PollChannel | apps/position_read.cpp:482-496 | the modular search asks the first disabled motor of the channel from the cursor on, and moves the cursor past it |
| HoldController.Controller.PollDisabled | apps/position_read.cpp:474-498 | at most one request per open channel; cursors follow the poll history and stay in range |
| HoldController.Controller.HandleKey | apps/position_read.cpp:735-748 | a key moves the selection or toggles the selected motor; only a toggle sends frames, and only the selected motor changes |
| HoldController.Controller.Serve | apps/position_read.cpp:751-763 | the frames of a tick are one whole hold round, on every fifth tick one poll, then the drained frames, all of them processed; every open channel drained until a read delivers nothing or 256 frames were taken |
| HoldController.Controller.Loop | apps/position_read.cpp:726-769 | for any keys, signals and exceptions the bus history is the concatenation of complete ticks, each starting from the motors and the selection the previous one left; poll t is that of tick 5t, on its motors, with its frames, from the cursors all earlier polls led to |
| HoldController.Controller.Run | apps/position_read.cpp:704-776 | initial refresh, every motor in turn unless a signal came, ticks, then the stop round, however the loop ends: nothing stays enabled, every ENABLE attempt has a later STOP attempt, the log is disciplined, polls are those of every fifth tick and in the log in order, and exactly the motors ExitExactly names are still armed |
| HoldFrames.DisabledIsAsked | apps/position_read.cpp:726-769 | fairness of a run: a motor of an open channel that is disabled at k consecutive polls of its ticks, k being the motors on the channel, is asked by one of those ticks, alone on its channel, and the request stands in the log among that tick's frames |
| Polling.PickComesCloser | apps/position_read.cpp:483-495 | a poll that passes over a waiting motor lands on one that was ahead of it |
| Polling.AheadBounded | apps/position_read.cpp:483-495 | at most the other motors of the channel are ahead |
| Polling.PolledWithinK | apps/position_read.cpp:474-498 | a motor that stays disabled is picked in any k consecutive polls, k being the motors on its channel, however others toggle |
| Polling.PolledOnTheBus | apps/position_read.cpp:474-498 | and the request is on the bus, after the frames of all earlier polls |
| Scan.SortChangesNothing | apps/position_read.cpp:217-222 | the scan's order is already strictly ascending, so any correct sort returns it unchanged |
| Scan.AnswersExactly | apps/position_read.cpp:158-168 | an answer is an extended frame of eight bytes, of kind 0, from this motor, to 0xFE or the host, and no other frame is |
| Scan.ReplyAnswers | apps/position_read.cpp:162-168 | a device's reply answers the query for its own ID and no other, exactly when it is sent to 0xFE or to the host |
| Scan.ReplyReported | apps/position_read.cpp:138-181 | a query that read a device's reply reports that device, with its UID |
| Scan.Scanner.QueryDevice | apps/position_read.cpp:138-181 | a device is reported exactly when a frame read after the accepted request answers it; the first such frame ends the query and gives the UID; nothing else is sent; a device's reply read after the accepted request makes the result that device |
| Scan.Scanner.ScanChannels | apps/position_read.cpp:183-224 | the devices are exactly what the queries found, strictly sorted by (channel, ID), on open channels; unless a signal came, every ID of every open channel was queried |
| Scan.MakeMotorStates | apps/position_read.cpp:226-245 | one new, disabled motor per device, strictly sorted |
| Scan.PositionRead | apps/position_read.cpp:704-776 | the whole program, scan to exit: every frame the scan sent is a recorded query's, one for every ID of every open channel unless a signal came; the motors are exactly the devices those queries found; none is left enabled, the bus history is disciplined and no ENABLE attempt lacks a later STOP attempt |
| SetId.SetFrameFields | apps/motor_config.cpp:260-266 | the motor reads the old and the new ID back from the SET_ID identifier |
| SetId.RequestNumbers | apps/motor_config.cpp:222-266 | the identifiers of the GET_ID, STOP and SET_ID requests as numbers; eight zero bytes |
| SetId.ReplyIsHonest | apps/motor_config.cpp:228-240 | a device's reply answers the query for its ID and no other, exactly when sent to 0xFE or to the host |
| SetId.Bus.Receive | apps/motor_config.cpp:155-190 | the frames read are standard ones and then, if a frame is returned, the first extended one; with a zero timeout at most one frame is read |
| SetId.Bus.Drain | apps/motor_config.cpp:191-197 | a quiet bus's queue ends empty; nothing on a dry run |
| SetId.Bus.GetDevice | apps/motor_config.cpp:222-251 | the UID returned belongs to a device that had that ID by now; only queries are sent; on a quiet bus it answers exactly when an audible device has the ID; none means that `retries` requests were sent or the last was refused |
| SetId.Bus.SendSetId | apps/motor_config.cpp:260-266 | one frame; it is an order to the devices exactly when accepted |
| SetId.Bus.Verify | apps/motor_config.cpp:513-532 | code 0 only if the recorded UID is now at NEW |
| SetId.Bus.CommandSetId | apps/motor_config.cpp:469-533 | code 0 means the recorded device moved from OLD to NEW and, IDs having been unique, no other changed; without an accepted SET_ID nothing changed; that frame is sent at most once, directly after an accepted STOP to the same ID; a dry run sends nothing; on a bus that only loses the replies of some devices the command succeeds exactly when confirmed, an audible device is at OLD and none at NEW |
| SetId.OnlyTargetMoved | apps/motor_config.cpp:513-532 | a reply with the recorded UID from NEW pins down every device's ID |
| SetId.UniqueExactlyIfFree | docs/motor_config.md:91-92 | after success IDs are unique if and only if NEW was free |
| SetId.NewInUseCanGoUnnoticed | docs/motor_config.md:91-92 | with devices at 1 and 2 and the second one's replies lost, `set-id 1 2` returns 0 and leaves both at 2 |

## Left out

- Weak memory: the seqlock theorems assume sequentially consistent steps.
- Copy order: the seqlock copies words in ascending order; a compiler may choose another.
- Underflow and subnormal results in the rounded codec; the rounding model has relative error only.
- Non-finite action values: their encoding is undefined in C++, so the codec theorems are about finite setpoints.
- Timing of `position_read`: deadlines, the 50 Hz tick and the sleeps between frames are arbitrary waits.
- `last_update`, joint names and UIDs of motors in the control loop, which only the screen shows.
- `loop_count_` and the other statistics as atomics: they are plain fields here.
- SetId.Bus.CommandSetId: on a lossy bus a failure code after the SET_ID frame says nothing about the device, in the program as in the model; the quiet bus is one whose devices send nothing but GET_ID replies, some of them lost for good.
- ThreadLife.Life.DoStart: a thread that could not be created is not stopped by `stop`, so the two-STOP theorem excludes it, as the code does.
- HoldController.Controller.RefreshPosition: the position is one read during the call, not necessarily the answer to this request, because the queue is not emptied first.
- `scan`, `get` and `set-zero` of motor_config: easier paths over the same queries.
- `write_param_float`, `enable` with fault clearing, velocity and current modes: no caller in the modelled programs.
- The IMU thread, PCAN driver, CPU pinning, scheduling priorities, terminal drawing and argument parsing.
