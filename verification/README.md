# A verified model of the quadruped's command path

This Dafny project models the parts of the quadruped controller that carry a command from a
policy to a motor, and proves what they keep over all inputs, all interleavings and all runs:

    policy network -> shared memory -> controller tick -> wire bytes -> motor

together with what runs beside that path: the seqlock block between the two real-time processes,
the CAN daemon's queue, the echo filter, the bus-load window, the communication monitors and the
attitude mathematics.

`dafny verify dfyconfig.toml` checks everything. Objects whose methods change fields are classes
and every method is tied to a function of the old state; concurrency is modelled as interleaved
atomic steps; floats are exact reals and pi is a real constant (3.141592653589793).

## How the modules fit together

| module | models |
|---|---|
| `Seqlock`, `SharedBlock` | the odd/even sequence counter protocol of the shared blocks, step by step, and its two calls as an object |
| `StateMachine`, `Controller`, `ControllerRuns` | the six-mode machine, the controller object and its tick, and safety over all runs |
| `OperatorCommand`, `ControlCommand`, `OperatorPath`, `ZeroSetPath` | the operator's record and the policy's record, and what word-wise copying does to each |
| `CommandPath` | the composition: the policy object's turn, its targets, torn copies, frames |
| `SpgProtocol`, `Encoder` | the MIT and zero-set payloads and the 14-bit encoder arithmetic |
| `Robstride`, `MotorBridge` | the C++ motor objects, their frames, feedback routing, the index tables and a cycle out and back |
| `TxDaemon`, `CanDaemon`, `SentFrames` | the daemon's queue, sender thread and clients in every interleaving, the daemon as an object whose past is such a run, and the controller as its client |
| `EchoFilter`, `BusLoad`, `CommMonitor`, `ActuatorDriver` | windows and monitors as functions of the whole history |
| `Policy`, `Gravity` | the policy's action history and index maps, and the two gravity formulas |
| `Rounding`, `Bytes`, `Ordering`, `RealProducts`, `Wrappers` | shared arithmetic and data types |

## What the proofs found

- **The seqlock bound is tight.** A reader that sleeps while exactly 2^31 writes complete can
  return true with a block that was never published (`Seqlock.TornReadAfterFullWrap`). A bound on
  the writes between its two loads rules that out if and only if it is below 2^31
  (`Seqlock.BoundRulesOutTearing`).
- **The recorded output can disagree with the bus**, in damping and in policy ticks.
  `_send_policy_command` records only after its loop, so a record with an out-of-range later
  target sends earlier policy frames while the published source still names the previous family
  (`ControllerRuns.UnrecordedPolicyFrame`, a run from start-up with a sound configuration).
  `_send_damping_all` records before its loop, so a damping gain out of range, which nothing
  rejects, records targets for which no frame went out (`ControllerRuns.UnsentDampingRecord`).
  `ControllerRuns.RecordMatchesOutput` says before the tick exactly when record and bus agree.
- **RUN while zero-setting starts nothing.** It keeps the mode and sends every actuator a
  zero-set with offset zero (`ControllerRuns.RunWhileZeroSettingZeroesAll`).
- **The first policy record can tear into something no policy asked for.** A copy taken while
  the very first record is stored can pair the policy's stiffness with position zero, and a NORMAL
  tick sends it (`CommandPath.FirstRecordCanTear`). A slot is what the policy could have asked
  exactly if each of its words was stored and then fetched since a publication, or need not have
  been because zero suits as well (`CommandPath.SlotAskedExactly`).
- **A torn operator record can lose a command or deliver it twice.** The timestamp that marks a
  command as new may arrive before the command: the old command is then consumed under it and the
  new one dropped as a repeat, even an ESTOP (`OperatorPath.EstopCanBeLost`).
  `OperatorPath.DeliveredExactly` says for every schedule how often a command is delivered. One
  with the same code as the command it replaces is always delivered once
  (`OperatorPath.RepeatedCommand`).
- **A torn ZERO_SET can zero everybody.** If the command arrives before the count of its list, a
  zero-set for one motor zeroes every motor; if the count arrives before the magic, the tick
  raises (`ZeroSetPath.PartialZeroSetMisfires`). `ZeroSetPath.ZeroSetExactly` says which words must
  have arrived for the list to be zeroed as published.
- **One motor never receives feedback.** The feedback table has 51 entries and the right rear
  knee's id is 0x33 = 51; no frame for that id is ever stored (`Robstride.RegisterAndAddress`), so
  that motor is calibrated from the zero position it was created with (`MotorBridge.Startup`).
- **Velocity and torque commands stop at the bridge.** `update_Control_params` forwards only
  position and the two gains (`MotorBridge.ApplyControl`).
- **The two MIT packers differ on half counts**, exactly where some field lies half way above an
  even count (`SpgProtocol.PackersAgree`); a damping gain of 1.5 is such a field
  (`SpgProtocol.PackersCanDiffer`).
- **Calibration is independent of whole turns** except for readings exactly half a turn off that
  the shift carries across the expected position (`Robstride.CalibrationIgnoresTurns`,
  `Robstride.TurnsCanMatter`); and the raw code 65535, which lies beyond full scale, is re-encoded
  as 65534 (`Robstride.CodeRoundTrip`).
- **Holding a position survives the bridge's clamp** exactly under the condition of
  `Robstride.HoldThroughClamp`, and not always (`Robstride.ClampCanMoveMotor`); after calibration
  three half turns between expected position and mechanical offset are enough
  (`Robstride.CalibratedHold`).
- **`is_done` and the event of a transaction differ** for a transaction that expects nothing and
  has seen nothing: it is done, but a waiter is not woken (`CommMonitor.TransactionManager.IsDone`,
  `CommMonitor.DoneWithoutEvent`).
- **The gravity formulas agree on unit quaternions only** (and on those without a tilt), so they
  always agree when the decoder normalises (`Gravity.AgreementWithoutNormalisation`) and can
  differ when it does not (`Gravity.GravitiesCanDiffer`).

The check of configuration inequalities is disabled in `robot_controller/core/config.py:460`;
where a property needs them they are explicit as `Config.Sound`. `Config.Constructible` is what the
constructors enforce by themselves. The CAN daemon's answers are an input of every tick: a refused
frame raises and ends the sending loop, and `TakesAll` says that none is refused.

## Model

| member | source | states |
|---|---|---|
| Seqlock.NoTornRead | robot_controller/subprocesses/sparq_can/inc/Sharemem.hpp:57-72 | in every interleaving of word copies, a read that returns true (fewer than 2^31 writes between its loads) delivers one published snapshot, which was current with no write in progress at every moment between the loads |
| Seqlock.SucceedsExactlyModuloWrap | robot_controller/subprocesses/sparq_can/inc/Sharemem.hpp:66-72 | without a proviso: a read past its first load returns true exactly if the counter increments since then are a multiple of 2^32 |
| Seqlock.SucceedsExactlyWhenQuiet | robot_controller/subprocesses/sparq_can/inc/Sharemem.hpp:66-72 | a read past its first load succeeds exactly when no writer step falls between the loads, so only a write causes a retry |
| Seqlock.GivesUpExactlyDuringWrite | robot_controller/subprocesses/sparq_can/inc/Sharemem.hpp:67-68 | the first load makes the read give up exactly while a write is in progress, and the read then returned false |
| Seqlock.ReadsNeverGoBack | robot_controller/subprocesses/sparq_can/inc/Sharemem.hpp:57-89 | of two successful reads, one after the other, by one or two readers, the later never delivers an older version |
| Seqlock.RunInv | robot_controller/subprocesses/sparq_can/inc/Sharemem.hpp:57-63 | in every reachable state the data are the last snapshot or, word by word, old or new, and the counter is the true number of increments modulo 2^32; the published list only grows |
| Seqlock.CopiedWords | robot_controller/subprocesses/sparq_can/inc/Sharemem.hpp:66-72 | while the counter has not moved, each word copied so far is a word of the snapshot current at the first load |
| Seqlock.TornReadAfterFullWrap | robot_controller/subprocesses/sparq_can/inc/Sharemem.hpp:66-72 | a run in which exactly 2^31 writes between the loads make a read return true with a never published block |
| Seqlock.BoundRulesOutTearing | robot_controller/subprocesses/sparq_can/inc/Sharemem.hpp:66-72 | a bound on the writes between the loads rules out torn reads if and only if it is below 2^31 |
| Seqlock.WriteUndisturbed | robot_controller/subprocesses/sparq_can/inc/Sharemem.hpp:75-81 | a write nothing interrupts is a run of the protocol that ends with the new block published |
| Seqlock.ReadUndisturbed | robot_controller/subprocesses/sparq_can/inc/Sharemem.hpp:83-89 | a read nothing interrupts is a run of the protocol that succeeds with the current data unless the counter is odd |
| SharedBlock.SeqlockBlock.constructor | robot_controller/subprocesses/sparq_can/inc/Sharemem.hpp:45-54 | a zeroed block is an initial state of the protocol |
| SharedBlock.SeqlockBlock.Write | robot_controller/subprocesses/sparq_can/inc/Sharemem.hpp:57-63 | the data are the new block, the counter is two on modulo 2^32, and the whole call has the effect of the undisturbed write |
| SharedBlock.SeqlockBlock.TryRead | robot_controller/subprocesses/sparq_can/inc/Sharemem.hpp:66-72 | succeeds exactly if the counter is even and then delivers the data, else nothing; the whole call has the effect of the undisturbed read |
| StateMachine.ControllerStateMachine.constructor | robot_controller/state_machine.py:20-29 | starts DISABLED at the given time; a negative duration is refused |
| StateMachine.ControllerStateMachine.Enter | robot_controller/state_machine.py:83-87 | the entry time moves only when the mode changes |
| StateMachine.ControllerStateMachine.Update | robot_controller/state_machine.py:31-81 | for each command number and mode the mode it leads to, said command by command; the cascade of guards equals the transition table, and the entry time moves only with the mode |
| StateMachine.TableByCommand | robot_controller/state_machine.py:31-81 | the table read mode by mode and the law read command by command determine the same mode |
| Controller.RobotController.constructor | robot_controller/controller.py:41-65 | a new controller has an empty past and has sent nothing |
| Controller.RobotController.Tick | robot_controller/controller.py:123-158 | for any contents of the two records and any answers of the daemon: new state, frames handed to the bus and raised error are those of the step function, and the object's past stays a run |
| Controller.RobotController.SendForMode | robot_controller/controller.py:132-158 | the mode selects one family; what was sent and recorded before an error stays |
| Controller.RobotController.SendFrame | hal/can_bus/process_client.py:75-90 | a frame goes out exactly if its payload could be packed, its id is at most 0x7FF and the daemon takes it; otherwise the matching error is raised and nothing is counted as sent |
| Controller.RobotController.ConsumeOperatorCommand | robot_controller/controller.py:251-275 | unknown codes and NONE pass without effect, a repeated timestamp becomes NONE, anything else is consumed |
| Controller.RobotController.SendCommandAll | robot_controller/controller.py:290-298 | records, then sends the opcode frame to each actuator in order up to the first error |
| Controller.RobotController.SendDampingAll | robot_controller/controller.py:335-359 | records and sends zero targets with the damping gain in ascending id order up to the first error |
| Controller.RobotController.SendPolicyCommand | robot_controller/controller.py:361-387 | sends the known targets of the used slots in slot order; records them only if none raised |
| Controller.RobotController.SendZeroSetAll | robot_controller/controller.py:300-310 | a malformed record raises before anything changes; otherwise one frame for each known id in ascending order |
| Controller.RobotController.ZeroSetOffsetsByCanId | robot_controller/controller.py:312-333 | equals the pure parse, including both malformed cases |
| Controller.RobotController.RecordOutputCommand | robot_controller/controller.py:389-396 | stores source and targets |
| Controller.OffsetsAreLastListed | robot_controller/controller.py:326-333 | the dictionary holds exactly the listed nonzero ids, each with the offset of its last entry |
| Controller.ErrorStops | robot_controller/controller.py:290-387 | the first error of a sending loop decides what was sent, whatever would have followed |
| Controller.AllSent | robot_controller/controller.py:290-387 | no error exactly if no job has one and the daemon takes each, and then one frame for each job in order |
| Ordering.SortedIdsUnique | robot_controller/controller.py:302-302 | ascending order and the set of elements determine the list that `sorted` returns |
| ControllerRuns.OneFamilyPerTick | robot_controller/controller.py:123-158 | every frame of a tick goes to a configured actuator and carries the one opcode of the mode the tick ends in |
| ControllerRuns.CommandReachesAll | robot_controller/controller.py:132-142 | under a sound configuration a tick that ends in ESTOP or DISABLED sends the actuators 0xC2 frames, one that ends in ENABLING 0xC1 frames, one for each actuator in order up to the first frame the daemon refuses, and records it so |
| ControllerRuns.DampingReachesAll | robot_controller/controller.py:335-359 | with a sound configuration and a willing daemon a damping tick raises nothing and sends exactly one frame to each actuator, ascending, that stands for zero position, velocity, stiffness and torque with the damping gain |
| ControllerRuns.RecordMatchesOutput | robot_controller/controller.py:300-396 | recorded source and targets match the frames of the tick if and only if a condition on the state and the inputs before it holds: every known used slot sendable (policy), gain, ranges, ids and daemon in order (damping), record well formed (zero-set), or the old record happens to describe what is sent |
| ControllerRuns.UnrecordedPolicyFrame | robot_controller/controller.py:361-387 | a run of two ticks from start-up, under a sound configuration, that sends a policy frame while the record says damping |
| ControllerRuns.UnsentDampingRecord | robot_controller/controller.py:335-359 | a run of one tick whose record lists a damping target although no frame went out |
| ControllerRuns.PassingAreSent | robot_controller/controller.py:361-387 | exactly the targets before the first one that cannot be sent go out, in order |
| ControllerRuns.PolicyTickRaisesNothing | robot_controller/controller.py:361-387 | a NORMAL tick raises nothing if and only if every used slot with a known id is in range (sound configuration, willing daemon) |
| ControllerRuns.PolicyTickSendsSlots | robot_controller/controller.py:361-387 | a NORMAL tick without an error sends exactly one frame for each used slot with a known id, in slot order, and its bytes stand for that slot's five values |
| ControllerRuns.EveryCommandObeyed | robot_controller/state_machine.py:31-87 | over every run each tick does, from each mode, what the number in the record asks, unless the timestamp was consumed last; what is heard is consumed, and a change of mode restarts the clock |
| ControllerRuns.DisableStops | robot_controller/state_machine.py:48-50 | over every run a DISABLE heard outside ESTOP ends its tick in DISABLED and sends only disable frames, one to each actuator in order up to the first refused one |
| ControllerRuns.EstopLatches | robot_controller/state_machine.py:39-46 | once ESTOP is consumed every tick stays in ESTOP and sends only disable frames until a fresh RESET_FAULT is consumed |
| ControllerRuns.PolicyNeedsRun | robot_controller/state_machine.py:57-62 | a NORMAL tick lies in an unbroken NORMAL stretch begun by a RUN consumed in DAMPING |
| ControllerRuns.MotionNeedsCommand | robot_controller/state_machine.py:51-65 | from a mode in which nothing moves, ENABLING, DAMPING and NORMAL are reached only through a consumed ENABLE or DAMPING |
| ControllerRuns.RestartTakesThreeCommands | robot_controller/state_machine.py:39-81 | after a consumed ESTOP, NORMAL takes RESET_FAULT, then ENABLE or DAMPING, then RUN, in this order |
| ControllerRuns.EnablingTimesOut | robot_controller/state_machine.py:77-79 | an update that starts in ENABLING at or after the duration never ends there, and without another command ends in DAMPING |
| ControllerRuns.EnablingIsBounded | robot_controller/state_machine.py:77-87 | a stretch of ENABLING that is still going has lasted less than the duration |
| ControllerRuns.LastConsumedIsLastAsked | robot_controller/controller.py:251-275 | the stored timestamp is that of the last read that asked for something, over any run |
| ControllerRuns.CommandsAreEdges | robot_controller/controller.py:251-275 | the code delivered at a tick is the read's own exactly if it asks for something and the last earlier asking read had another timestamp; otherwise NONE |
| ControllerRuns.HeldZeroSetActsOnce | robot_controller/controller.py:259-271 | a ZERO_SET record held unchanged yields exactly one zero-set tick outside ESTOP and then DISABLED |
| ControllerRuns.ZeroSettingExactly | robot_controller/state_machine.py:57-75 | a tick ends in ZERO_SETTING exactly after a ZERO_SET consumed outside ESTOP or a RUN consumed while zero-setting |
| ControllerRuns.OffsetsOfPublished | robot_controller/controller.py:313-333 | parsing a published record gives exactly the listed nonzero ids with their last published offsets |
| ControllerRuns.ZeroSetDelivers | robot_controller/controller.py:300-333 | a fresh untorn ZERO_SET raises nothing, if the daemon takes its frames, and sends one frame to each known id asked for, ascending, whose acknowledgement reports the last offset published for that id (zero to everybody if no nonzero id was listed) |
| ControllerRuns.RunWhileZeroSettingZeroesAll | robot_controller/state_machine.py:57-75 | a fresh RUN in ZERO_SETTING stays there and zeroes every actuator |
| ControllerRuns.TornPolicyRecordsAreSafe | robot_controller/controller.py:361-387 | if every published record is in range and the daemon takes every frame, a NORMAL tick on any word-wise mixture raises nothing and, unless id 0 is configured, addresses only published ids |
| OperatorCommand.BuildCommand | robot_controller/shm/operator_command.py:113-141 | accepts exactly the lists of at most twelve targets with ids up to 0x1FFFFFFF and 16-bit offsets, carries them slot by slot with the magic, and otherwise names the first fault |
| OperatorCommand.OperatorCommandShm.Publish | robot_controller/shm/operator_command.py:100-103 | the segment then carries the command without targets |
| OperatorCommand.OperatorCommandShm.PublishZeroSet | robot_controller/shm/operator_command.py:105-111 | an accepted list is carried; a rejected one leaves the segment unchanged and names the first fault |
| ControlCommand.BuildRecord | robot_controller/shm/control_command.py:99-112 | refuses exactly the lists over capacity; otherwise carries the targets, other slots zero |
| ControlCommand.CopiesAreMixtures | robot_controller/shm/control_command.py:92-97 | under every interleaving of single-word stores and fetches the segment and any copy are word-wise mixtures of published records and the cleared one |
| OperatorPath.CopyShows | robot_controller/shm/operator_command.py:93-98 | in every interleaving of single words, the schedule alone decides, word by word, whether segment and copy show the published record or the one before |
| OperatorPath.DeliveredExactly | robot_controller/controller.py:251-275 | how often a fresh command of another code reaches the state machine once a tick saw all of it: never, if a tick saw its timestamp first and the old command asks for something; twice, if a tick saw the command first and the old timestamp was not the last consumed; else once |
| OperatorPath.RepeatedCommand | robot_controller/controller.py:251-275 | a command with the same code as the consumed one it replaces is delivered once by every schedule, as soon as a tick sees its timestamp |
| OperatorPath.NeverBoth | robot_controller/shm/operator_command.py:93-98 | no schedule shows one tick the timestamp first and another the command first |
| OperatorPath.EstopCanBeLost | robot_controller/controller.py:259-271 | a run in which a published ESTOP is fully copied and never delivered, and the old RUN is delivered instead |
| ZeroSetPath.TornZeroSet | robot_controller/controller.py:300-333 | what the delivering tick of a ZERO_SET does for every schedule: everybody without the count, an error without the magic, else the list as far as it has arrived |
| ZeroSetPath.SameZeroing | robot_controller/controller.py:300-310 | frames that zero exactly one list zero exactly another if and only if both lists do the same to every motor |
| ZeroSetPath.ZeroSetExactly | robot_controller/controller.py:300-333 | for a list that names configured motors, each once, the delivering tick zeroes exactly what was published if and only if the stated words have arrived |
| ZeroSetPath.PartialZeroSetMisfires | robot_controller/controller.py:312-325 | runs in which the first tick after start-up zeroes both motors for a list of one, or raises |
| CommandPath.TargetsAreAsked | robot_controller/subprocesses/task_controller/main.py:158-172 | for any network output each target lies within clip times scale of its joint's default, at rest, with the policy's gains |
| CommandPath.TaskTurn | robot_controller/subprocesses/task_controller/main.py:155-172 | a record is built exactly if the attitude has a norm, the network gives enough numbers or one, and the joints fit; joint by joint it then has the id, gains and order of the task, the default position with the button released, and with it held the default plus this network's clipped and scaled output for the joint; the policy observed this sample |
| CommandPath.PolicyRecordIsSound | robot_controller/subprocesses/task_controller/main.py:160-172 | if clip times scale plus the default fits the position range, every record is within the packer's ranges |
| CommandPath.NormalTickNeverRaises | robot_controller/controller.py:361-387 | for any network outputs, any run of word copies and any moment, a NORMAL tick raises nothing if the daemon takes its frames |
| CommandPath.CopyIsExpected | robot_controller/shm/control_command.py:92-97 | every word of every copy is one the policy published, if it was stored and then fetched since a publication, and zero otherwise |
| CommandPath.SlotAskedExactly | robot_controller/shm/control_command.py:92-112 | a slot of a copy is a target the policy could have asked of that joint if and only if each of its words has arrived or zero suits in its place |
| CommandPath.WholeExactly | robot_controller/shm/control_command.py:92-112 | the whole copy is such a record if and only if the count has arrived and every slot is in order |
| CommandPath.PrimedCopyIsAsked | robot_controller/shm/control_command.py:92-112 | once every word was stored and then fetched, every later copy is such a record |
| CommandPath.PolicyReachesMotors | robot_controller/controller.py:361-387 | end to end: with every word in order a NORMAL tick sends exactly one frame for each joint in joint order, and each stands for a target the policy could have asked of it |
| CommandPath.FirstRecordCanTear | robot_controller/controller.py:361-387 | out of order it goes wrong: a run of copies and two controller ticks whose NORMAL tick sends exactly one frame, which the policy could not have asked for |
| SpgProtocol.QuantiseError | qhrr0_hw/actuators/dongilc_protocol.py:42-52 | a value in range gets a code that fits the field and stands for it to within half a step, under either rounding rule |
| SpgProtocol.QuantiseMonotone | qhrr0_hw/actuators/dongilc_protocol.py:48-52 | a larger value never gets a smaller code |
| SpgProtocol.DecodeEncodeFields | qhrr0_hw/actuators/dongilc_protocol.py:639-649 | the five fields survive the 16/12/12/8/8-bit packing |
| SpgProtocol.EncodeDecodeFields | qhrr0_hw/actuators/dongilc_protocol.py:639-649 | every eight bytes with the opcode are the packing of their fields |
| SpgProtocol.MitPayloadMeaning | qhrr0_hw/actuators/dongilc_protocol.py:618-649 | packing succeeds exactly for setpoints in range under positive ranges, and the decoded fields stand for the setpoint to half a step |
| SpgProtocol.PayloadBits | qhrr0_hw/actuators/dongilc_protocol.py:639-649 | the decoded fields stand for a setpoint exactly if the bits do: 0xC0, then 16 of position, 12 of velocity, 12 of stiffness, 8 of damping, 8 of torque, high bits first |
| SpgProtocol.PackMitPayload | qhrr0_hw/actuators/dongilc_protocol.py:618-649 | succeeds exactly on setpoints in range under positive ranges, and the bits of the eight bytes, opcode first, stand for the five values each to within half a step; otherwise the matching error |
| SpgProtocol.PackersAgree | robot_controller/subprocesses/dashboard/backend/command_api.py:58-98 | the second packer accepts the same setpoints and gives the same bytes exactly when no field lies half way above an even count |
| SpgProtocol.PackersCanDiffer | robot_controller/subprocesses/dashboard/backend/command_api.py:58-98 | a damping gain of 1.5 goes out as 77 by one rule and as 76 by the other |
| SpgProtocol.ZeroOffsetRoundTrip | qhrr0_hw/actuators/dongilc_protocol.py:502-518 | an int16 offset sent in hundredths of a degree goes out as 0xC3 with the offset, low byte first, at the end, and comes back from the acknowledgement unchanged |
| SpgProtocol.ZeroPayloadAccepts | qhrr0_hw/actuators/dongilc_protocol.py:651-658 | exactly the angles that round to an int16 are accepted |
| SpgProtocol.PackZeroPayload | qhrr0_hw/actuators/dongilc_protocol.py:651-667 | accepts exactly the angles that round to int16 hundredths of a degree, and the last two bytes, low one first, hold that number |
| Encoder.ExactCounts | qhrr0_hw/actuators/dongilc_protocol.py:77-79 | an angle of exactly n counts, any sign and number of turns, converts to n modulo 16384 |
| Encoder.CountRadCount | qhrr0_hw/actuators/dongilc_protocol.py:73-88 | both ways of reading a count, as an angle in [0, 2 pi) or in [-pi, pi), convert back to the same count |
| Encoder.RadCountRad | qhrr0_hw/actuators/dongilc_protocol.py:77-79 | angle to count to angle loses at most half a count up to whole turns |
| Encoder.SetPositionReachesDesired | qhrr0_hw/actuators/dongilc_protocol.py:371-403 | the frame is 0x91 with the offset, low byte first, at its end; original plus acknowledged offset is the desired count modulo 16384, and the angle then read is the desired one up to half a count |
| Encoder.DeltaRecoversStep | qhrr0_hw/actuators/dongilc_protocol.py:59-70 | the shortest delta is the true step exactly up to half a turn, and says which half-turn steps are recovered |
| Encoder.DeltaIsShort | qhrr0_hw/actuators/dongilc_protocol.py:59-70 | every delta is at most half a turn and right up to whole turns |
| Encoder.TotalDisplacement | qhrr0_hw/actuators/dongilc_protocol.py:59-70 | summed along any samples with steps below half a turn it gives the exact multi-turn displacement |
| Rounding.RoundHalfAwayUnique | qhrr0_hw/actuators/dongilc_protocol.py:42-45 | nearest integer with ties away from zero determines the result |
| Rounding.RoundHalfAwayMonotone | qhrr0_hw/actuators/dongilc_protocol.py:42-45 | rounding is monotone |
| Rounding.RoundingsDiffer | robot_controller/subprocesses/dashboard/backend/command_api.py:58-62 | on non-negative numbers the two rounding rules differ exactly on halves above an even integer |
| Rounding.ClampIsNearest | robot_controller/subprocesses/sparq_can/inc/RobstrideMotor.hpp:352-356 | clamping gives the one value of the interval that is nearest |
| Rounding.RoundHalfAwayShift | robot_controller/subprocesses/sparq_can/inc/RobstrideMotor.hpp:201-206 | rounding commutes with an integer shift except for a half carried across zero |
| Robstride.SignedRoundTrip | robot_controller/subprocesses/sparq_can/inc/RobstrideMotor.hpp:350-362 | the truncating code of a clamped value decodes to at most that value and less than one step below it |
| Robstride.UnsignedRoundTrip | robot_controller/subprocesses/sparq_can/inc/RobstrideMotor.hpp:353-361 | the same for the gains with 65535 steps |
| Robstride.CodeRoundTrip | robot_controller/subprocesses/sparq_can/inc/Rx_handler.hpp:73-80 | decode then encode is the identity on every code but 65535 |
| Robstride.CalibratedNearExpected | robot_controller/subprocesses/sparq_can/inc/RobstrideMotor.hpp:201-206 | the corrected position lies within half a turn of expected minus mechanical offset |
| Robstride.CalibrationIgnoresTurns | robot_controller/subprocesses/sparq_can/inc/RobstrideMotor.hpp:201-206 | it is unchanged by a whole-turn shift of the raw reading exactly unless the reading is a half-turn tie carried across the expected position |
| Robstride.TurnsCanMatter | robot_controller/subprocesses/sparq_can/inc/RobstrideMotor.hpp:201-206 | half a turn above and half a turn below the expected position are corrected differently |
| Robstride.HoldReproducesRaw | robot_controller/subprocesses/sparq_can/inc/RobstrideMotor.hpp:350-362 | under any offset, commanding the corrected position gives back the very code of the raw reading (65534 for 65535) |
| Robstride.HoldThroughClamp | robot_controller/subprocesses/sparq_can/src/main.cpp:129-143 | the clamp of the bridge changes nothing exactly within full scale; and exactly when the code survives it |
| Robstride.ClampCanMoveMotor | robot_controller/subprocesses/sparq_can/src/main.cpp:129-143 | a code and an offset for which the clamp loses the code |
| Robstride.CalibratedHold | robot_controller/subprocesses/sparq_can/src/main.cpp:129-143 | after calibration the clamp changes nothing if expected position and mechanical offset are within three half turns |
| Robstride.HoldWithinOneStep | robot_controller/subprocesses/sparq_can/inc/RobstrideMotor.hpp:350-362 | under any offset, a raw reading within full scale comes back to less than one step |
| Robstride.RobstrideMotor.Calibrate | robot_controller/subprocesses/sparq_can/inc/RobstrideMotor.hpp:201-206 | stores that offset, so the corrected position is within half a turn |
| Robstride.RobstrideMotor.WriteFb | robot_controller/subprocesses/sparq_can/inc/RobstrideMotor.hpp:412-417 | stores the readings under the motor type's own scales |
| Robstride.RobstrideMotor.UpdatedOperationFrame | robot_controller/subprocesses/sparq_can/inc/RobstrideMotor.hpp:350-377 | the bytes, high one first, and the torque word stand for the current parameters, position less offset: each truncated by less than a step, or the end code beyond full scale |
| Robstride.ExtendedId | robot_controller/subprocesses/sparq_can/inc/RobstrideMotor.hpp:370-375 | the 29-bit id of a control frame is the one from which a motor takes back the frame type, the torque word and its own id |
| Robstride.PackU16Be | robot_controller/subprocesses/sparq_can/inc/RobstrideMotor.hpp:219-222 | writes high byte first and touches nothing else |
| Robstride.RxHandler.RegisterVector | robot_controller/subprocesses/sparq_can/inc/Rx_handler.hpp:39-57 | each table entry becomes the last listed motor with that id; entries nobody has the id of stay, and ids outside the table are passed over |
| Robstride.TableFindsMotor | robot_controller/subprocesses/sparq_can/inc/Rx_handler.hpp:39-57 | with distinct ids the entry of a motor's id is that motor and other entries are empty |
| Robstride.RxHandler.WriteFb | robot_controller/subprocesses/sparq_can/inc/Rx_handler.hpp:86-90 | only the addressee changes, under its own scales |
| Robstride.RxHandler.HandleFrame | robot_controller/subprocesses/sparq_can/inc/Rx_handler.hpp:68-90 | for an id made of a motor id below 256, an error below 64 and any other bits: an error stops the thread and stores nothing; without one the motor with that id, and nobody else, takes the four readings of the eight bytes, high byte first, under its own scales |
| Robstride.AnswerIsParsed | robot_controller/subprocesses/sparq_can/inc/Rx_handler.hpp:68-71 | parsing finds a motor id and error exactly if the frame id is made of them and some other bits |
| Robstride.ParsesAnswer | robot_controller/subprocesses/sparq_can/inc/Rx_handler.hpp:68-71 | an id composed as low + 0x100 motor + 0x10000 error + 0x400000 rest parses to that motor and that error |
| Robstride.RegisterAndAddress | robot_controller/subprocesses/sparq_can/src/main.cpp:19-19 | a motor is addressed exactly if its id is below 51, which 0x33 is not |
| Robstride.EchoReadsBack | robot_controller/subprocesses/sparq_can/inc/Rx_handler.hpp:68-90 | a feedback frame with the codes of a command reads back as position, velocity and torque each less than one step below the clamped command |
| MotorBridge.SlotsMeetTheirMotors | robot_controller/subprocesses/sparq_can/inc/SPARQ_config.h:7-54 | slot table, motor list and creation order agree, and no two slots share a motor |
| MotorBridge.MotorsDiffer | robot_controller/subprocesses/sparq_can/src/main.cpp:274-287 | each slot has a motor object of its own with the slot's id |
| MotorBridge.ApplyControl | robot_controller/subprocesses/sparq_can/src/main.cpp:126-177 | every motor gets its slot's position, clamped, and its slot's two gains, and keeps velocity and torque |
| MotorBridge.ControlCycle | robot_controller/subprocesses/sparq_can/src/main.cpp:126-177 | every slot's motor is sent a frame whose codes stand for the slot's clamped position less the motor's offset, the slot's stiffness and damping, and the motor's old velocity and torque |
| MotorBridge.FollowRead | robot_controller/subprocesses/sparq_can/src/main.cpp:126-177 | after a successful read the twelve frames of a cycle stand, slot by slot, for words 5i, 5i+2 and 5i+3 of one published block, current throughout the read |
| MotorBridge.ReceiveCycle | robot_controller/subprocesses/sparq_can/src/main.cpp:93-102 | one answer for each motor: each with an id inside the table takes the readings of its own bytes over |
| MotorBridge.CommandedComesBack | robot_controller/subprocesses/sparq_can/src/main.cpp:90-110 | if every motor answers with the codes it was sent, each slot with an id inside the table publishes its commanded position back to less than one step, or what full scale leaves of it |
| MotorBridge.CollectFeedback | robot_controller/subprocesses/sparq_can/src/main.cpp:182-248 | every slot publishes its own motor's corrected position and readings |
| MotorBridge.ReceiveAll | robot_controller/subprocesses/sparq_can/src/main.cpp:76-81 | each motor inside the table then has the readings of the last error-free frame composed with its id; without one, and outside the table, nothing changes |
| MotorBridge.CalibrateAll | robot_controller/subprocesses/sparq_can/src/main.cpp:83-87 | every motor's corrected position lies within half a turn of its mounting angle |
| MotorBridge.Startup | robot_controller/subprocesses/sparq_can/src/main.cpp:56-87 | register, receive, then calibrate from what was received |
| TxDaemon.NothingLostOrReordered | hal/can_bus/daemon.py:96-132 | in every interleaving accepted frames are those taken followed by those queued, in order and within capacity |
| TxDaemon.AnswersMatchRequests | hal/can_bus/process_client.py:75-90 | a client's k-th answer is positive exactly if its k-th request was accepted, and a rejected frame is never taken |
| TxDaemon.DecidedByRoom | hal/can_bus/daemon.py:96-102 | in every reachable state an undecided frame can be accepted exactly if the queue has room and rejected exactly if it has none; a garbled request is always rejected |
| TxDaemon.ClientOrderKept | hal/can_bus/daemon.py:120-132 | frames of one client are taken in request order, none twice |
| TxDaemon.StopTakesAtMostOne | hal/can_bus/daemon.py:75-132 | after a stop request at most one more frame is taken until the next start |
| TxDaemon.RunInv | robot_controller/subprocesses/can_daemon/main.py:159-178 | the ledger between requests, decisions, answers, queue and sent frames holds in every reachable state |
| SentFrames.AcceptedInOrder | hal/can_bus/daemon.py:96-102 | in every interleaving what the daemon accepted from a client are the frames of its positively decided requests, each once and in order |
| SentFrames.SentIsAccepted | hal/can_bus/process_client.py:75-90 | a controller's sent frames over all its ticks are exactly those the daemon accepted from it, taken or still queued, in order |
| CanDaemon.CANDaemon.Send | hal/can_bus/daemon.py:96-102 | true exactly if there was room, and then the frame is last in the queue; the call is an accept or reject step of the protocol |
| CanDaemon.CANDaemon.HandleTxRequest | robot_controller/subprocesses/can_daemon/main.py:159-178 | a request line is asked, decided and answered; a garbled one is refused and a full queue rejects |
| CanDaemon.CANDaemon.Launch | hal/can_bus/daemon.py:58-73 | starts once; starting again changes nothing |
| CanDaemon.CANDaemon.Stop | hal/can_bus/daemon.py:75-94 | from wherever the sender stands: only one that was already waiting takes one more frame, and nothing else leaves the queue |
| CanDaemon.CANDaemon.TxLoopOnce | hal/can_bus/daemon.py:120-132 | takes exactly the oldest frame, unless stopping or empty |
| EchoFilter.DequeDecides | hal/can_bus/process_transport.py:68-78 | after pruning the deque answers as the full send history does |
| EchoFilter.ProcessTransport.SendFrame | hal/can_bus/process_transport.py:57-66 | only delivered standard-id frames are remembered |
| EchoFilter.ProcessTransport.RememberTxFrame | hal/can_bus/process_transport.py:65-66 | appends, dropping the oldest of 512 |
| EchoFilter.ProcessTransport.IsRecentTxEcho | hal/can_bus/process_transport.py:68-78 | true exactly if one of the last 512 sends is at most 0.25 s old with this id and data |
| BusLoad.WindowCounts | robot_controller/subprocesses/dashboard/backend/bus_load.py:35-50 | counts and bit sums of the deque equal those of the full history restricted to the window |
| BusLoad.EventCounts | robot_controller/subprocesses/dashboard/backend/bus_load.py:44-50 | wherever it stands, an event in the window counts once, with its bits, and for its own direction only |
| BusLoad.LoadMeaning | robot_controller/subprocesses/dashboard/backend/bus_load.py:52-63 | the load percentage times what the bus could carry is a hundred times the bits |
| BusLoad.DropOld | robot_controller/subprocesses/dashboard/backend/bus_load.py:35-38 | dropping events before the cutoff changes no count and no sum |
| BusLoad.BusLoadWindow.Add | robot_controller/subprocesses/dashboard/backend/bus_load.py:31-33 | appends with negative bit counts as zero, and prunes |
| BusLoad.BusLoadWindow.Prune | robot_controller/subprocesses/dashboard/backend/bus_load.py:35-38 | keeps exactly the suffix within the window |
| BusLoad.BusLoadWindow.TakeSnapshot | robot_controller/subprocesses/dashboard/backend/bus_load.py:40-66 | frames, bits, rates and load are those of the full history in the window |
| CommMonitor.StaleWasSeen | hal/hardware/can/device_comm_manager.py:48-72 | a stale end after a reception means some look found that value too old |
| CommMonitor.StaleExactly | hal/hardware/can/device_comm_manager.py:34-72 | after a reception the history ends stale exactly if the last look since found the value older than the timeout or its time stamp not positive |
| CommMonitor.NothingReceived | hal/hardware/can/device_comm_manager.py:48-60 | without a reception every history ends stale |
| CommMonitor.OnlyRxRestores | hal/hardware/can/device_comm_manager.py:34-72 | with a nondecreasing clock only a reception turns stale into fresh |
| CommMonitor.TimeoutsBoundedByRx | hal/hardware/can/device_comm_manager.py:34-72 | with a nondecreasing clock the timeouts, plus one while fresh, never exceed the receptions |
| CommMonitor.BestEffortCommManager.MarkRx | hal/hardware/can/device_comm_manager.py:34-41 | fresh, online, dated and counted, faults untouched; flags and counters stay functions of the whole history |
| CommMonitor.BestEffortCommManager.MarkDecodeError | hal/hardware/can/device_comm_manager.py:43-46 | counts the error and dates the fault |
| CommMonitor.BestEffortCommManager.UpdateFaultFlags | hal/hardware/can/device_comm_manager.py:48-72 | freshness as of this look; the timeout count is the number of fresh-to-stale changes; the fault is dated on a change only |
| CommMonitor.TransactionManager.MarkRx | hal/hardware/can/device_comm_manager.py:122-132 | the id is added to the pending transaction, whose event is set as soon as every expected id is in; without one nothing changes |
| CommMonitor.TransactionManager.IsDone | hal/hardware/can/device_comm_manager.py:144-149 | done exactly if every expected id was marked; says when the event disagrees |
| CommMonitor.DoneWithoutEvent | hal/hardware/can/device_comm_manager.py:104-149 | a transaction that is done while its event is not set |
| ActuatorDriver.LastSomeMeaning | hal/hardware/can/actuator/driver.py:97-136 | the merged value of a field is the one of the last decoded state that had any |
| ActuatorDriver.LastRawMeaning | hal/hardware/can/actuator/driver.py:129-130 | the merged value of a raw key is the one of the last decoded state that had the key |
| ActuatorDriver.LastTimeMeaning | hal/hardware/can/actuator/driver.py:132-134 | the merged feedback time is the last positive one |
| ActuatorDriver.MergeExtends | hal/hardware/can/actuator/driver.py:97-136 | merging one more partial state keeps every field, and every raw key, the last value decoded |
| ActuatorDriver.Driver.MergeState | hal/hardware/can/actuator/driver.py:97-136 | the state stays the merge of the whole history and the monitor is marked with the right time |
| ActuatorDriver.Driver.OnFrame | hal/hardware/can/actuator/driver.py:73-95 | an undecodable frame is only counted, one for somebody else ignored, and only a decoded one merged, marked at the right time and entered under its id in the pending transaction |
| Policy.ClipBounds | robot_controller/subprocesses/task_controller/policy_runner.py:189-189 | the clip bounds any value by the limit's magnitude and leaves values within it alone |
| Policy.ScaledClipBounds | robot_controller/subprocesses/task_controller/policy_runner.py:189-190 | a scaled action is at most clip times scale in magnitude |
| Policy.ScaledClipExactly | robot_controller/subprocesses/task_controller/policy_runner.py:189-190 | above the limit an action is limit times scale, below minus the limit the opposite, in between the value times scale; a negative limit leaves only itself |
| Policy.ActionBounds | robot_controller/subprocesses/task_controller/policy_runner.py:189-192 | whatever the network puts out, every action is at most clip times scale in magnitude |
| Policy.ActionExactly | robot_controller/subprocesses/task_controller/policy_runner.py:188-192 | an output is usable exactly with enough numbers or a single one, and each joint is then driven by its map entry, clipped and scaled; joints beyond the map get nothing |
| Policy.OnnxPolicy.constructor | robot_controller/subprocesses/task_controller/policy_runner.py:134-156 | zero history, defaults in slot order, negative indices counted from the end |
| Policy.OnnxPolicy.SetState | robot_controller/subprocesses/task_controller/policy_runner.py:170-178 | slots observe position and velocity of the joints the input map names, positions less their own defaults unless raw; gravity and angular velocity follow unless the quaternion is zero |
| Policy.OnnxPolicy.ComputeAction | robot_controller/subprocesses/task_controller/policy_runner.py:184-196 | for any network output that fits: each joint gets its entry's clipped and scaled number, the newest history slot is the clipped output and the other two shift by one; one that does not fit changes nothing |
| Policy.RoundTripExactly | robot_controller/subprocesses/task_controller/policy_runner.py:145-146 | observing all joints and driving them back is the identity for every posture exactly if the slot driving each joint observes it |
| Policy.NoSlotIsIdle | robot_controller/subprocesses/task_controller/policy_runner.py:145-146 | then the maps are inverse in both orders: every slot drives exactly the joint it observes |
| Policy.JointsKeepToThemselves | robot_controller/subprocesses/task_controller/policy_runner.py:170-192 | then a network that treats slots alike makes each joint's action a function of its own deviation |
| Policy.ShippedMapsAreInverse | config/policy_config/SPARQ/SPARQ/runner_config.yaml:8-10 | the shipped index maps meet that condition |
| Gravity.SameFormula | qhrr0_hw/imu/e2box_protocol.py:106-123 | cross-product and rotation-matrix gravity are the same vector with x and y exchanged |
| Gravity.UnitGravity | qhrr0_hw/imu/e2box_protocol.py:106-123 | the decoder's gravity has norm one exactly for unit quaternions and those without a tilt |
| Gravity.DecodedGravityIsUnit | qhrr0_hw/imu/e2box_protocol.py:55-104 | with normalisation every eight bytes decode to a unit quaternion and unit gravity |
| Gravity.PackedQuatDecodes | qhrr0_hw/imu/e2box_protocol.py:55-123 | for all int16 z, y, x, w: the eight bytes that pack them low byte first in this order decode to (-x, y, z, w) over the scale, normalised if asked (identity below 1e-12), with the gravity polynomials of that quaternion, straight down when level |
| Gravity.PolicySeesDecodedGravity | robot_controller/subprocesses/task_controller/policy_runner.py:117-130 | on a decoded quaternion the policy's gravity never fails and is the decoder's with x and y exchanged |
| Gravity.PolicyGravityWrittenOut | robot_controller/subprocesses/task_controller/policy_runner.py:117-130 | the policy's gravity is those polynomials of the quaternion over its norm with x and y exchanged, and raises exactly at norm zero |
| Gravity.AgreementWithoutNormalisation | robot_controller/subprocesses/task_controller/policy_runner.py:117-130 | without normalisation they agree exactly for unit quaternions and those without a tilt; exactly the zero quaternion raises |
| Gravity.GravitiesCanDiffer | robot_controller/subprocesses/task_controller/policy_runner.py:117-130 | an eight-byte payload whose decoder gravity without normalisation is not the policy's |

## Left out

- Sockets, SocketCAN calls, JSON text, shared-memory attachment and process start-up: they appear as steps on abstract buffers and queues.
- `open_shm` and `close_shm`: the reference count is not modelled; blocks are taken as initialised before they are used.
- Weak memory ordering and the data race of the unordered `memcpy`: words move one at a time under sequential consistency, in any order.
- IEEE rounding, NaN and infinities: exact reals. The square root is any function that satisfies its defining equation.
- Policy.OnnxPolicy.constructor: index maps of a wrong length, which the source's constructor takes and its later calls reject, are refused at once.
- The network itself: an arbitrary list of reals.
- The observation vector's components and scales, and `set_commands`: easy copies beside the history and the maps.
- `Seqlock`, `ControlCommand` and `TxDaemon` are step systems on values, because their content is the interleaving; `SharedBlock` and `CanDaemon` are the objects, whose calls run to completion by themselves.
- Two writers on one block: the protocol has one writer for each block, as the processes use it.
- The retry loop of `update_Control_params` as a loop: it need not terminate while writes keep coming; `Seqlock.SucceedsExactlyWhenQuiet` says when an attempt succeeds.
- Controller.RobotController.RecordOutputCommand: the output time stamp is not stored; nothing modelled here reads it.
- The log-once timestamp, published telemetry and shutdown of the controller: not part of any decision modelled here.
- Words of the shared records: a 64-bit timestamp is one word, as its aligned place in the records makes it.
- Controller.RobotController.Tick: IMU request frames at the start of a tick are left out: they do not go to actuators, and if the daemon refuses one, the tick raises before it does anything.
- CanDaemon.CANDaemon.Send: a call runs to completion by itself, so a blocking put that waits for room is not one; in `TxDaemon` its later acceptance, or its rejection while the queue is full, are ordinary steps.
- CanDaemon.CANDaemon.HandleTxRequest: like `Send`, without a wait for room.
- Threads that outlive the join time-out in `CANDaemon.stop`: joins are taken to succeed.
- TxDaemon.StopTakesAtMostOne: two overlapping `stop` calls with a `start` between them, of which the later one would clear the started flag under a live thread, are not modelled; stop calls do not overlap.
- The receive loop and dispatcher registration of the daemon, and its subscriber set.
- The other frame writers of the Robstride motor, among them `write_operation_frame`: same packing as the modelled one.
- `HandleFrame` receives a whole frame; reading frames and the interface list are not modelled.
- `estimate_classical_can_bits` and the rate in kilobits: a ceiling and a quotient without state.
- `wait` and `is_expired` of transactions, and `RealTimeClock.wait_next`: waiting itself has no model.
- The dashboard's gates around `send_raw`, name normalisation and its state: user interface.
- The gyro decoder: the same unpacking as the quaternion without a property of its own.
- `tools/can_monitor.py`, `can_decode.py` and the joint initializer's policy runner: near copies of modelled code.
