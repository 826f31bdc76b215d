/** The robot controller's tick: consume the operator record, update the state machine, send
    exactly one family of actuator frames and record what was sent.

    A tick can raise. What it has sent and changed until then stays, and the model keeps it:
    a list of jobs is sent up to the first one that cannot be packed or sent. */
module Controller {
  import opened Wrappers
  import opened Bytes
  import opened Ordering
  import opened StateMachine
  import opened SpgProtocol
  import OperatorCommand
  import ControlCommand

  type Code = OperatorCommand.Code

  const MAX_STANDARD_ID: int := 0x7FF

  datatype CanFrame = CanFrame(canId: int, data: seq<byte>)

  datatype TickError = BadCanId | BadPayload(error: SpgProtocol.Error) | Refused | BadZeroMagic | BadZeroCount

  /** The CAN daemon's answers: whether it takes the `n`-th frame of the tick. */
  type Bus = nat -> bool

  ghost predicate TakesAll(bus: Bus) {
    forall n :: bus(n)
  }

  /** `ids` are the keys of the actuator dictionary, in insertion order. */
  datatype Config = Config(mit: MitConfig, dampingKd: real, enableDuration: real, ids: seq<int>) {
    /** The dictionary's keys are distinct and the state machine accepts the duration. */
    ghost predicate Constructible() {
      && enableDuration >= 0.0
      && forall i, j :: 0 <= i < j < |ids| ==> ids[i] != ids[j]
    }

    /** What the disabled configuration check would have to guarantee. */
    ghost predicate Sound() {
      && Constructible() && mit.Positive() && 0.0 <= dampingKd <= mit.kdMax
      && forall i :: 0 <= i < |ids| ==> 0 <= ids[i] <= MAX_STANDARD_ID
    }
  }

  datatype Source = NO_OUTPUT | DISABLE_ALL | ENABLE_ALL | ZERO_SET_ALL | DAMPING_ALL | POLICY

  datatype CommandTarget = CommandTarget(canId: int, setpoint: Setpoint)

  // ---------------------------------------------------------------------------
  // Sending
  // ---------------------------------------------------------------------------

  /** A frame about to be built and sent. */
  datatype Job = Job(canId: int, payload: Result<seq<byte>, SpgProtocol.Error>) {
    /** What building it and handing it to the transport raises, if anything. */
    function Error(taken: bool): Option<TickError> {
      if payload.Err? then Some(BadPayload(payload.error))
      else if !(0 <= canId <= MAX_STANDARD_ID) then Some(BadCanId)
      else if !taken then Some(Refused)
      else None
    }

    predicate Fine() {
      payload.Ok? && 0 <= canId <= MAX_STANDARD_ID
    }

    function Frame(): CanFrame
      requires Fine()
    {
      CanFrame(canId, payload.value)
    }
  }

  function FirstError(jobs: seq<Job>, bus: Bus): Option<TickError> {
    if jobs == [] then None
    else
      var before := FirstError(jobs[..|jobs| - 1], bus);
      if before.Some? then before else jobs[|jobs| - 1].Error(bus(|jobs| - 1))
  }

  /** The frames that go out before the first error. */
  function SentBy(jobs: seq<Job>, bus: Bus): seq<CanFrame> {
    if jobs == [] then []
    else
      var init := jobs[..|jobs| - 1];
      if FirstError(init, bus).Some? || jobs[|jobs| - 1].Error(bus(|jobs| - 1)).Some? then SentBy(init, bus)
      else SentBy(init, bus) + [jobs[|jobs| - 1].Frame()]
  }

  /** An error decides the outcome of any longer list. */
  lemma {:induction false} ErrorStops(jobs: seq<Job>, bus: Bus, n: nat)
    requires n <= |jobs| && FirstError(jobs[..n], bus).Some?
    ensures FirstError(jobs, bus) == FirstError(jobs[..n], bus) && SentBy(jobs, bus) == SentBy(jobs[..n], bus)
  {
    if n < |jobs| {
      assert jobs[..|jobs| - 1][..n] == jobs[..n];
      ErrorStops(jobs[..|jobs| - 1], bus, n);
    } else {
      assert jobs[..n] == jobs;
    }
  }

  /** What the next turn of a sending loop does to the outcome. */
  lemma NextJob(jobs: seq<Job>, bus: Bus, i: nat)
    requires i < |jobs| && FirstError(jobs[..i], bus).None?
    ensures jobs[i].Error(bus(i)).None? ==>
              (FirstError(jobs[..i + 1], bus).None?
               && SentBy(jobs[..i + 1], bus) == SentBy(jobs[..i], bus) + [jobs[i].Frame()])
    ensures jobs[i].Error(bus(i)).Some? ==>
              (FirstError(jobs, bus) == jobs[i].Error(bus(i)) && SentBy(jobs, bus) == SentBy(jobs[..i], bus))
  {
    assert jobs[..i + 1][..i] == jobs[..i];
    if jobs[i].Error(bus(i)).Some? {
      ErrorStops(jobs, bus, i + 1);
    }
  }

  /** The first `i` jobs have been sent without an error. */
  ghost predicate SentSoFar(jobs: seq<Job>, bus: Bus, i: nat, before: seq<CanFrame>, sent: seq<CanFrame>) {
    i <= |jobs| && FirstError(jobs[..i], bus).None? && sent == before + SentBy(jobs[..i], bus)
  }

  lemma NothingSentYet(jobs: seq<Job>, bus: Bus, before: seq<CanFrame>)
    ensures SentSoFar(jobs, bus, 0, before, before)
  {
  }

  lemma LoopDone(jobs: seq<Job>, bus: Bus, before: seq<CanFrame>, sent: seq<CanFrame>)
    requires SentSoFar(jobs, bus, |jobs|, before, sent)
    ensures FirstError(jobs, bus).None? && sent == before + SentBy(jobs, bus)
  {
    assert jobs[..|jobs|] == jobs;
  }

  /** Without errors there is exactly one frame per job, in order. */
  lemma {:induction false} AllSent(jobs: seq<Job>, bus: Bus)
    ensures FirstError(jobs, bus).None? <==> forall i :: 0 <= i < |jobs| ==> jobs[i].Error(bus(i)).None?
    ensures FirstError(jobs, bus).None? ==>
              (|SentBy(jobs, bus)| == |jobs|
               && forall i :: 0 <= i < |jobs| ==>
                    jobs[i].Error(bus(i)).None? && SentBy(jobs, bus)[i] == jobs[i].Frame())
  {
    if jobs != [] {
      var init := jobs[..|jobs| - 1];
      AllSent(init, bus);
      assert forall i :: 0 <= i < |init| ==> jobs[i] == init[i];
    }
  }

  // ---------------------------------------------------------------------------
  // The five families
  // ---------------------------------------------------------------------------

  function CommandJobs(ids: seq<int>, opcode: byte): seq<Job> {
    seq(|ids|, i requires 0 <= i < |ids| => Job(ids[i], Ok([opcode, 0, 0, 0, 0, 0, 0, 0])))
  }

  function MitJob(cfg: Config, t: CommandTarget): Job {
    Job(t.canId, MitPayload(HalfAway, cfg.mit, t.setpoint))
  }

  function MitJobs(cfg: Config, targets: seq<CommandTarget>): seq<Job> {
    seq(|targets|, i requires 0 <= i < |targets| => MitJob(cfg, targets[i]))
  }

  function IdSet(ids: seq<int>): set<int> {
    set id | id in ids
  }

  function DampingTargets(cfg: Config): seq<CommandTarget> {
    var ids := SortedIds(IdSet(cfg.ids));
    seq(|ids|, i requires 0 <= i < |ids| => CommandTarget(ids[i], Setpoint(0.0, 0.0, 0.0, cfg.dampingKd, 0.0)))
  }

  function AsTarget(t: ControlCommand.Target): CommandTarget {
    CommandTarget(t.canId, Setpoint(t.q, t.dq, t.kp, t.kd, t.tau))
  }

  function Min(a: nat, b: nat): nat {
    if a < b then a else b
  }

  /** The known ones among the first `n` slots. */
  function KnownTargets(cfg: Config, slots: seq<ControlCommand.Target>, n: nat): seq<CommandTarget>
    requires n <= |slots|
  {
    if n == 0 then []
    else
      KnownTargets(cfg, slots, n - 1)
      + if slots[n - 1].canId in cfg.ids then [AsTarget(slots[n - 1])] else []
  }

  function PolicyTargets(cfg: Config, cmd: ControlCommand.Record): seq<CommandTarget> {
    KnownTargets(cfg, cmd.targets, Min(cmd.numTargets, |cmd.targets|))
  }

  /** The last offset listed for each nonzero id, or why the record is malformed. */
  function ZeroOffsets(op: OperatorCommand.Record): Result<map<int, i16>, TickError> {
    if op.zeroCount == 0 then Ok(map[])
    else if op.zeroMagic != OperatorCommand.ZERO_TARGET_MAGIC then Err(BadZeroMagic)
    else if op.zeroCount > |op.zeroTargets| then Err(BadZeroCount)
    else Ok(OffsetsOf(op.zeroTargets[..op.zeroCount]))
  }

  function OffsetsOf(targets: seq<OperatorCommand.ZeroTarget>): map<int, i16> {
    if targets == [] then map[]
    else
      var t := targets[|targets| - 1];
      var before := OffsetsOf(targets[..|targets| - 1]);
      if t.canId == 0 then before else before[t.canId as int := t.offset]
  }

  /** Exactly the listed nonzero ids, each with the offset of its last entry. */
  lemma {:induction false} OffsetsAreLastListed(targets: seq<OperatorCommand.ZeroTarget>, id: int)
    ensures id in OffsetsOf(targets) <==> id != 0 && exists i :: 0 <= i < |targets| && targets[i].canId == id
    ensures id in OffsetsOf(targets) ==>
              exists i :: 0 <= i < |targets| && targets[i].canId == id && OffsetsOf(targets)[id] == targets[i].offset
                       && forall j :: i < j < |targets| ==> targets[j].canId != id
  {
    if targets != [] {
      var n := |targets| - 1;
      var init := targets[..n];
      OffsetsAreLastListed(init, id);
      if targets[n].canId == id {
        assert id != 0 ==> OffsetsOf(targets)[id] == targets[n].offset;
      } else if id in OffsetsOf(init) {
        var i :| 0 <= i < |init| && init[i].canId == id && OffsetsOf(init)[id] == init[i].offset
                 && forall j :: i < j < |init| ==> init[j].canId != id;
        assert targets[i] == init[i];
        assert forall j :: i < j < n ==> targets[j] == init[j];
      }
    }
  }

  function ZeroOrder(cfg: Config, offsets: map<int, i16>): seq<int> {
    SortedIds(if HasElement(offsets.Keys) then offsets.Keys else IdSet(cfg.ids))
  }

  function OffsetOr0(offsets: map<int, i16>, id: int): i16 {
    if id in offsets then offsets[id] else 0
  }

  function ZeroJob(offsets: map<int, i16>, id: int): Job {
    Job(id, ZeroPayload(OffsetOr0(offsets, id) as real * 0.01))
  }

  /** One job per known id of the order; unknown ids are skipped. */
  function ZeroJobs(cfg: Config, offsets: map<int, i16>, order: seq<int>): seq<Job> {
    if order == [] then []
    else
      var id := order[|order| - 1];
      ZeroJobs(cfg, offsets, order[..|order| - 1]) + if id in cfg.ids then [ZeroJob(offsets, id)] else []
  }

  // ---------------------------------------------------------------------------
  // One tick as a function
  // ---------------------------------------------------------------------------

  /** What a tick depends on and changes. */
  datatype State = State(
    mode: Mode, since: real, lastConsumed: Option<nat>, source: Source, targets: seq<CommandTarget>)

  /** The clock, what the two shared records read as, and the daemon's answers. */
  datatype Input = Input(now: real, op: OperatorCommand.Record, cmd: ControlCommand.Record, bus: Bus)

  datatype Outcome = Outcome(state: State, frames: seq<CanFrame>, error: Option<TickError>)

  /** The code that reaches the state machine: a repeat of the last consumed timestamp, or a
      code that does not exist, counts as NONE. */
  function Delivered(lastConsumed: Option<nat>, op: OperatorCommand.Record): Code {
    match op.Code()
    case None => OperatorCommand.NONE
    case Some(code) => if lastConsumed == Some(op.timestamp) then OperatorCommand.NONE else code
  }

  /** A list of jobs sent after recording, and the other way round. */
  function RecordThenSend(s: State, source: Source, targets: seq<CommandTarget>, jobs: seq<Job>, bus: Bus): Outcome {
    Outcome(s.(source := source, targets := targets), SentBy(jobs, bus), FirstError(jobs, bus))
  }

  function SendThenRecord(s: State, source: Source, targets: seq<CommandTarget>, jobs: seq<Job>, bus: Bus): Outcome {
    var s' := if FirstError(jobs, bus).None? then s.(source := source, targets := targets) else s;
    Outcome(s', SentBy(jobs, bus), FirstError(jobs, bus))
  }

  function Dispatch(cfg: Config, s: State, input: Input): Outcome {
    match s.mode
    case ESTOP => RecordThenSend(s, DISABLE_ALL, [], CommandJobs(cfg.ids, CMD_MIT_EXIT), input.bus)
    case DISABLED => RecordThenSend(s, DISABLE_ALL, [], CommandJobs(cfg.ids, CMD_MIT_EXIT), input.bus)
    case ENABLING => RecordThenSend(s, ENABLE_ALL, [], CommandJobs(cfg.ids, CMD_MIT_ENTER), input.bus)
    case ZERO_SETTING =>
      (match ZeroOffsets(input.op)
       case Err(e) => Outcome(s, [], Some(e))
       case Ok(offsets) =>
         RecordThenSend(s, ZERO_SET_ALL, [], ZeroJobs(cfg, offsets, ZeroOrder(cfg, offsets)), input.bus))
    case DAMPING =>
      RecordThenSend(s, DAMPING_ALL, DampingTargets(cfg), MitJobs(cfg, DampingTargets(cfg)), input.bus)
    case NORMAL =>
      SendThenRecord(
        s, POLICY, PolicyTargets(cfg, input.cmd), MitJobs(cfg, PolicyTargets(cfg, input.cmd)), input.bus)
  }

  function Updated(cfg: Config, s: State, input: Input): State {
    var code := Delivered(s.lastConsumed, input.op);
    var mode := NextMode(s.mode, code, input.now - s.since >= cfg.enableDuration);
    s.(mode := mode,
       since := if mode == s.mode then s.since else input.now,
       lastConsumed := if code == OperatorCommand.NONE then s.lastConsumed else Some(input.op.timestamp))
  }

  function Step(cfg: Config, s: State, input: Input): Outcome {
    Dispatch(cfg, Updated(cfg, s, input), input)
  }

  ghost predicate Initial(s: State) {
    s.mode == DISABLED && s.lastConsumed == None && s.source == NO_OUTPUT && s.targets == []
  }

  /** Any number of ticks from start-up, on any clock and any shared records. */
  ghost predicate IsRun(cfg: Config, states: seq<State>, inputs: seq<Input>) {
    && |states| == |inputs| + 1 && Initial(states[0])
    && forall k :: 0 <= k < |inputs| ==> IsTick(cfg, states[k], inputs[k], states[k + 1])
  }

  ghost predicate IsTick(cfg: Config, s: State, input: Input, s': State) {
    && input.op.Valid() && input.cmd.Valid()
    && s' == Step(cfg, s, input).state
  }

  lemma ExtendRun(cfg: Config, states: seq<State>, inputs: seq<Input>, input: Input)
    requires IsRun(cfg, states, inputs) && input.op.Valid() && input.cmd.Valid()
    ensures IsRun(cfg, states + [Step(cfg, states[|inputs|], input).state], inputs + [input])
  {
  }

  // ---------------------------------------------------------------------------
  // The controller object
  // ---------------------------------------------------------------------------

  class RobotController {
    const cfg: Config
    const stateMachine: ControllerStateMachine
    var lastOutputSource: Source
    var lastOutputTargets: seq<CommandTarget>
    var lastConsumed: Option<nat>
    /** The frames handed to the CAN transport, oldest first. */
    var sent: seq<CanFrame>

    ghost var states: seq<State>
    ghost var inputs: seq<Input>

    ghost function Abs(): State
      reads this, stateMachine
    {
      State(stateMachine.mode, stateMachine.modeEnterTime, lastConsumed, lastOutputSource, lastOutputTargets)
    }

    /** The object's past is a run, and its fields are the run's last state. */
    ghost predicate Valid()
      reads this, stateMachine
    {
      && cfg.Constructible() && stateMachine.enableDuration == cfg.enableDuration
      && IsRun(cfg, states, inputs) && states[|inputs|] == Abs()
    }

    constructor (cfg: Config, now: real)
      requires cfg.Constructible()
      ensures Valid() && fresh(stateMachine) && this.cfg == cfg
      ensures inputs == [] && sent == []
    {
      this.cfg := cfg;
      stateMachine := new ControllerStateMachine(cfg.enableDuration, now);
      lastOutputSource := NO_OUTPUT;
      lastOutputTargets := [];
      lastConsumed := None;
      sent := [];
      inputs := [];
      new;
      states := [Abs()];
    }

    /** One control tick, whatever the operator record `op` and the policy record `cmd` hold. */
    method Tick(now: real, op: OperatorCommand.Record, cmd: ControlCommand.Record, bus: Bus)
      returns (error: Option<TickError>)
      requires Valid() && op.Valid() && cmd.Valid()
      modifies this, stateMachine
      ensures Valid() && inputs == old(inputs) + [Input(now, op, cmd, bus)]
      ensures var outcome := Step(cfg, old(Abs()), Input(now, op, cmd, bus));
              Abs() == outcome.state && sent == old(sent) + outcome.frames && error == outcome.error
    {
      ghost var before, input := Abs(), Input(now, op, cmd, bus);
      ExtendRun(cfg, states, inputs, input);
      var consumed := ConsumeOperatorCommand(op);
      var code := if consumed.Code().Some? then consumed.Code().value else OperatorCommand.NONE;
      stateMachine.Update(code, now);
      assert Abs() == Updated(cfg, before, input);
      assert stateMachine.mode == ZERO_SETTING ==> consumed == op;
      error := SendForMode(now, consumed, cmd, bus);
      states, inputs := states + [Abs()], inputs + [input];
    }

    /** The mode decides which single family goes out. */
    method SendForMode(ghost now: real, op: OperatorCommand.Record, cmd: ControlCommand.Record, bus: Bus)
      returns (error: Option<TickError>)
      modifies this`sent, this`lastOutputSource, this`lastOutputTargets
      ensures var outcome := Dispatch(cfg, old(Abs()), Input(now, op, cmd, bus));
              Abs() == outcome.state && sent == old(sent) + outcome.frames && error == outcome.error
    {
      match stateMachine.mode {
        case ESTOP => error := SendCommandAll(DISABLE_ALL, CMD_MIT_EXIT, bus);
        case DISABLED => error := SendCommandAll(DISABLE_ALL, CMD_MIT_EXIT, bus);
        case ENABLING => error := SendCommandAll(ENABLE_ALL, CMD_MIT_ENTER, bus);
        case ZERO_SETTING => error := SendZeroSetAll(op, bus);
        case DAMPING => error := SendDampingAll(bus);
        case NORMAL => error := SendPolicyCommand(cmd, bus);
      }
    }

    method ConsumeOperatorCommand(op: OperatorCommand.Record) returns (r: OperatorCommand.Record)
      requires op.Valid()
      modifies this`lastConsumed
      ensures r.Valid()
      ensures var code := Delivered(old(lastConsumed), op);
              && (if code == OperatorCommand.NONE then r.Code() in {None, Some(OperatorCommand.NONE)} else r == op)
              && lastConsumed == if code == OperatorCommand.NONE then old(lastConsumed) else Some(op.timestamp)
    {
      var code := op.Code();
      if code == None || code == Some(OperatorCommand.NONE) {
        return op;
      }
      if lastConsumed == Some(op.timestamp) {
        return OperatorCommand.Record(
          op.timestamp, 0, 0, 0, 0, seq(OperatorCommand.CAPACITY, _ => OperatorCommand.EMPTY_SLOT));
      }
      lastConsumed := Some(op.timestamp);
      return op;
    }

    /** `taken`: the daemon takes the frame. If it does not, the client raises. */
    method SendFrame(job: Job, taken: bool) returns (error: Option<TickError>)
      modifies this`sent
      ensures error == job.Error(taken)
      ensures error == None <==> job.payload.Ok? && 0 <= job.canId <= 0x7FF && taken
      ensures error == Some(BadCanId) <==> job.payload.Ok? && !(0 <= job.canId <= 0x7FF)
      ensures job.payload.Err? ==> error == Some(BadPayload(job.payload.error))
      ensures sent == if error.None? then old(sent) + [CanFrame(job.canId, job.payload.value)] else old(sent)
    {
      error := job.Error(taken);
      if error.None? {
        sent := sent + [job.Frame()];
      }
    }

    /** A turn of a sending loop: `job` is job `i` of the list. */
    method SendNext(ghost jobs: seq<Job>, i: nat, ghost before: seq<CanFrame>, job: Job, bus: Bus)
      returns (error: Option<TickError>)
      requires i < |jobs| && jobs[i] == job && SentSoFar(jobs, bus, i, before, sent)
      modifies this`sent
      ensures error.None? ==> SentSoFar(jobs, bus, i + 1, before, sent)
      ensures error.Some? ==> FirstError(jobs, bus) == error && sent == before + SentBy(jobs, bus)
    {
      NextJob(jobs, bus, i);
      error := SendFrame(job, bus(i));
    }

    method RecordOutputCommand(source: Source, targets: seq<CommandTarget>)
      modifies this`lastOutputSource, this`lastOutputTargets
      ensures lastOutputSource == source && lastOutputTargets == targets
    {
      lastOutputSource := source;
      lastOutputTargets := targets;
    }

    /** `_send_disable_all` and `_send_enable_all`: the same loop with another opcode. */
    method SendCommandAll(source: Source, opcode: byte, bus: Bus) returns (error: Option<TickError>)
      modifies this`sent, this`lastOutputSource, this`lastOutputTargets
      ensures var jobs := CommandJobs(cfg.ids, opcode);
              sent == old(sent) + SentBy(jobs, bus) && error == FirstError(jobs, bus)
      ensures lastOutputSource == source && lastOutputTargets == []
    {
      ghost var jobs := CommandJobs(cfg.ids, opcode);
      RecordOutputCommand(source, []);
      NothingSentYet(jobs, bus, sent);
      hide SentSoFar, FirstError, SentBy;
      for i := 0 to |cfg.ids|
        invariant SentSoFar(jobs, bus, i, old(sent), sent)
        invariant lastOutputSource == source && lastOutputTargets == []
      {
        error := SendNext(jobs, i, old(sent), Job(cfg.ids[i], Ok([opcode, 0, 0, 0, 0, 0, 0, 0])), bus);
        if error.Some? {
          return;
        }
      }
      LoopDone(jobs, bus, old(sent), sent);
      return None;
    }

    method SendDampingAll(bus: Bus) returns (error: Option<TickError>)
      modifies this`sent, this`lastOutputSource, this`lastOutputTargets
      ensures var jobs := MitJobs(cfg, DampingTargets(cfg));
              sent == old(sent) + SentBy(jobs, bus) && error == FirstError(jobs, bus)
      ensures lastOutputSource == DAMPING_ALL && lastOutputTargets == DampingTargets(cfg)
    {
      var targets := DampingTargets(cfg);
      ghost var jobs := MitJobs(cfg, targets);
      RecordOutputCommand(DAMPING_ALL, targets);
      NothingSentYet(jobs, bus, sent);
      hide SentSoFar, FirstError, SentBy, MitJob, DampingTargets;
      for i := 0 to |targets|
        invariant SentSoFar(jobs, bus, i, old(sent), sent)
        invariant lastOutputSource == DAMPING_ALL && lastOutputTargets == targets
      {
        error := SendNext(jobs, i, old(sent), MitJob(cfg, targets[i]), bus);
        if error.Some? {
          return;
        }
      }
      LoopDone(jobs, bus, old(sent), sent);
      return None;
    }

    /** Only a loop that ends without an error is recorded. */
    method SendPolicyCommand(cmd: ControlCommand.Record, bus: Bus) returns (error: Option<TickError>)
      modifies this`sent, this`lastOutputSource, this`lastOutputTargets
      ensures var jobs := MitJobs(cfg, PolicyTargets(cfg, cmd));
              sent == old(sent) + SentBy(jobs, bus) && error == FirstError(jobs, bus)
      ensures if error.None? then lastOutputSource == POLICY && lastOutputTargets == PolicyTargets(cfg, cmd)
              else lastOutputSource == old(lastOutputSource) && lastOutputTargets == old(lastOutputTargets)
    {
      var n := Min(cmd.numTargets, |cmd.targets|);
      ghost var jobs := MitJobs(cfg, PolicyTargets(cfg, cmd));
      var targets: seq<CommandTarget> := [];
      NothingSentYet(jobs, bus, sent);
      assert targets == KnownTargets(cfg, cmd.targets, 0);
      assert |jobs| == |KnownTargets(cfg, cmd.targets, n)|;
      assert PolicyTargets(cfg, cmd) == KnownTargets(cfg, cmd.targets, n);
      hide SentSoFar, FirstError, SentBy, MitJobs, MitJob, KnownTargets, PolicyTargets, AsTarget;
      for index := 0 to n
        invariant targets == KnownTargets(cfg, cmd.targets, index) && |targets| <= |jobs|
        invariant SentSoFar(jobs, bus, |targets|, old(sent), sent)
        invariant lastOutputSource == old(lastOutputSource) && lastOutputTargets == old(lastOutputTargets)
      {
        var slot := cmd.targets[index];
        NextPolicyJob(cfg, cmd, index);
        if slot.canId !in cfg.ids {
          continue;
        }
        var target := AsTarget(slot);
        error := SendNext(jobs, |targets|, old(sent), MitJob(cfg, target), bus);
        targets := targets + [target];
        if error.Some? {
          return;
        }
      }
      LoopDone(jobs, bus, old(sent), sent);
      RecordOutputCommand(POLICY, targets);
      return None;
    }

    method SendZeroSetAll(op: OperatorCommand.Record, bus: Bus) returns (error: Option<TickError>)
      modifies this`sent, this`lastOutputSource, this`lastOutputTargets
      ensures match ZeroOffsets(op)
              case Err(e) =>
                && sent == old(sent) && error == Some(e)
                && lastOutputSource == old(lastOutputSource) && lastOutputTargets == old(lastOutputTargets)
              case Ok(offsets) =>
                var jobs := ZeroJobs(cfg, offsets, ZeroOrder(cfg, offsets));
                && sent == old(sent) + SentBy(jobs, bus) && error == FirstError(jobs, bus)
                && lastOutputSource == ZERO_SET_ALL && lastOutputTargets == []
    {
      var parsed := ZeroSetOffsetsByCanId(op);
      if parsed.Err? {
        return Some(parsed.error);
      }
      var offsets := parsed.value;
      var order := ZeroOrder(cfg, offsets);
      ghost var jobs := ZeroJobs(cfg, offsets, order);
      RecordOutputCommand(ZERO_SET_ALL, []);
      var done := 0;
      NothingSentYet(jobs, bus, sent);
      assert order[..0] == [];
      assert |ZeroJobs(cfg, offsets, order[..0])| == 0;
      hide SentSoFar, FirstError, SentBy, ZeroJobs, ZeroJob, ZeroOffsets, ZeroOrder;
      for i := 0 to |order|
        invariant 0 <= done == |ZeroJobs(cfg, offsets, order[..i])| <= |jobs|
        invariant SentSoFar(jobs, bus, done, old(sent), sent)
        invariant lastOutputSource == ZERO_SET_ALL && lastOutputTargets == []
      {
        NextZeroJob(cfg, offsets, order, i);
        if order[i] !in cfg.ids {
          continue;
        }
        error := SendNext(jobs, done, old(sent), ZeroJob(offsets, order[i]), bus);
        if error.Some? {
          return;
        }
        done := done + 1;
      }
      assert order[..|order|] == order;
      LoopDone(jobs, bus, old(sent), sent);
      return None;
    }

    method ZeroSetOffsetsByCanId(op: OperatorCommand.Record) returns (r: Result<map<int, i16>, TickError>)
      ensures r == ZeroOffsets(op)
    {
      if op.zeroCount == 0 {
        return Ok(map[]);
      }
      if op.zeroMagic != OperatorCommand.ZERO_TARGET_MAGIC {
        return Err(BadZeroMagic);
      }
      if op.zeroCount > |op.zeroTargets| {
        return Err(BadZeroCount);
      }
      var offsets: map<int, i16> := map[];
      for index := 0 to op.zeroCount
        invariant offsets == OffsetsOf(op.zeroTargets[..index])
      {
        var target := op.zeroTargets[index];
        assert op.zeroTargets[..index + 1][..index] == op.zeroTargets[..index];
        if target.canId == 0 {
          continue;
        }
        offsets := offsets[target.canId as int := target.offset];
      }
      return Ok(offsets);
    }
  }

  lemma NextPolicyJob(cfg: Config, cmd: ControlCommand.Record, index: nat)
    requires index < Min(cmd.numTargets, |cmd.targets|)
    ensures var before, after := KnownTargets(cfg, cmd.targets, index), KnownTargets(cfg, cmd.targets, index + 1);
            var jobs, t := MitJobs(cfg, PolicyTargets(cfg, cmd)), AsTarget(cmd.targets[index]);
            if t.canId in cfg.ids then
              |before| < |jobs| && jobs[|before|] == MitJob(cfg, t) && after == before + [t]
            else
              after == before
  {
    KnownTargetsPrefix(cfg, cmd.targets, index + 1, Min(cmd.numTargets, |cmd.targets|));
  }

  lemma NextZeroJob(cfg: Config, offsets: map<int, i16>, order: seq<int>, i: nat)
    requires i < |order|
    ensures var before, after := ZeroJobs(cfg, offsets, order[..i]), ZeroJobs(cfg, offsets, order[..i + 1]);
            var jobs := ZeroJobs(cfg, offsets, order);
            if order[i] in cfg.ids then
              |before| < |jobs| && jobs[|before|] == ZeroJob(offsets, order[i]) && |after| == |before| + 1
            else
              after == before
  {
    assert order[..i + 1][..i] == order[..i];
    ZeroJobsPrefix(cfg, offsets, order, i + 1);
  }

  lemma {:induction false} KnownTargetsPrefix(cfg: Config, slots: seq<ControlCommand.Target>, m: nat, n: nat)
    requires m <= n <= |slots|
    ensures KnownTargets(cfg, slots, m) <= KnownTargets(cfg, slots, n)
    decreases n
  {
    if m < n {
      KnownTargetsPrefix(cfg, slots, m, n - 1);
    }
  }

  lemma {:induction false} ZeroJobsPrefix(cfg: Config, offsets: map<int, i16>, order: seq<int>, n: nat)
    requires n <= |order|
    ensures ZeroJobs(cfg, offsets, order[..n]) <= ZeroJobs(cfg, offsets, order)
    decreases |order|
  {
    if n < |order| {
      var init := order[..|order| - 1];
      assert init[..n] == order[..n];
      ZeroJobsPrefix(cfg, offsets, init, n);
    } else {
      assert order[..n] == order;
    }
  }
}
