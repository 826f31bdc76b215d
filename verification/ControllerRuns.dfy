/** What the controller keeps over all runs: any number of ticks, on any clock readings and
    any contents of the shared records. */
module ControllerRuns {
  import opened Wrappers
  import opened Bytes
  import opened Ordering
  import opened StateMachine
  import opened SpgProtocol
  import opened Controller

  /** The code tick `k` hands to the state machine. */
  function CodeAt(states: seq<State>, inputs: seq<Input>, k: nat): Controller.Code
    requires k < |inputs| && k < |states|
  {
    Delivered(states[k].lastConsumed, inputs[k].op)
  }

  function FramesAt(cfg: Config, states: seq<State>, inputs: seq<Input>, k: nat): seq<CanFrame>
    requires k < |inputs| && k < |states|
  {
    Step(cfg, states[k], inputs[k]).frames
  }

  lemma RunLength(cfg: Config, states: seq<State>, inputs: seq<Input>)
    requires IsRun(cfg, states, inputs)
    ensures |states| == |inputs| + 1 && Initial(states[0])
  {
  }

  /** The mode, entry time and consumed timestamp of a tick do not depend on what it sends. */
  lemma TickUpdates(cfg: Config, states: seq<State>, inputs: seq<Input>, k: nat)
    requires IsRun(cfg, states, inputs) && k < |inputs|
    ensures var s, s', code := states[k], states[k + 1], CodeAt(states, inputs, k);
            && s'.mode == NextMode(s.mode, code, inputs[k].now - s.since >= cfg.enableDuration)
            && s'.since == (if s'.mode == s.mode then s.since else inputs[k].now)
            && s'.lastConsumed == if code == Op.NONE then s.lastConsumed else Some(inputs[k].op.timestamp)
  {
  }

  // ---------------------------------------------------------------------------
  // One family per tick
  // ---------------------------------------------------------------------------

  /** All frames carry this opcode and go to configured actuators. */
  ghost predicate OnlyFamily(cfg: Config, frames: seq<CanFrame>, opcode: byte) {
    forall f :: f in frames ==> f.canId in cfg.ids && |f.data| == 8 && f.data[0] == opcode
  }

  function FamilyOf(mode: Mode): byte {
    match mode
    case ESTOP => CMD_MIT_EXIT
    case DISABLED => CMD_MIT_EXIT
    case ENABLING => CMD_MIT_ENTER
    case ZERO_SETTING => CMD_MIT_SET_ZERO
    case DAMPING => CMD_MIT_CONTROL
    case NORMAL => CMD_MIT_CONTROL
  }

  ghost predicate JobsOfFamily(cfg: Config, jobs: seq<Job>, opcode: byte) {
    forall i :: 0 <= i < |jobs| ==>
      && jobs[i].canId in cfg.ids
      && (jobs[i].payload.Ok? ==> |jobs[i].payload.value| == 8 && jobs[i].payload.value[0] == opcode)
  }

  lemma FamilyOfJobs(cfg: Config, jobs: seq<Job>, bus: Bus, opcode: byte)
    requires JobsOfFamily(cfg, jobs, opcode)
    ensures OnlyFamily(cfg, SentBy(jobs, bus), opcode)
  {
  }

  lemma MitJobsFamily(cfg: Config, targets: seq<CommandTarget>)
    requires forall i :: 0 <= i < |targets| ==> targets[i].canId in cfg.ids
    ensures JobsOfFamily(cfg, MitJobs(cfg, targets), CMD_MIT_CONTROL)
  {
  }

  /** The known slots, in slot order. */
  lemma {:induction false} KnownTargetsAre(cfg: Config, slots: seq<ControlCommand.Target>, n: nat)
    requires n <= |slots|
    ensures forall i :: 0 <= i < |KnownTargets(cfg, slots, n)| ==>
              && KnownTargets(cfg, slots, n)[i].canId in cfg.ids
              && exists j :: 0 <= j < n && AsTarget(slots[j]) == KnownTargets(cfg, slots, n)[i]
  {
    if n > 0 {
      KnownTargetsAre(cfg, slots, n - 1);
      var before, ts := KnownTargets(cfg, slots, n - 1), KnownTargets(cfg, slots, n);
      forall i | 0 <= i < |ts|
        ensures ts[i].canId in cfg.ids && exists j :: 0 <= j < n && AsTarget(slots[j]) == ts[i]
      {
        if i < |before| {
          var j :| 0 <= j < n - 1 && AsTarget(slots[j]) == before[i];
          assert AsTarget(slots[j]) == ts[i];
        } else {
          assert AsTarget(slots[n - 1]) == ts[i];
        }
      }
    }
  }

  ghost predicate AreZeroJobs(cfg: Config, offsets: map<int, i16>, jobs: seq<Job>) {
    forall i :: 0 <= i < |jobs| ==> jobs[i].canId in cfg.ids && jobs[i] == ZeroJob(offsets, jobs[i].canId)
  }

  ghost predicate AscendingJobs(jobs: seq<Job>) {
    forall i, j :: 0 <= i < j < |jobs| ==> jobs[i].canId < jobs[j].canId
  }

  ghost predicate HasJob(jobs: seq<Job>, id: int) {
    exists i :: 0 <= i < |jobs| && jobs[i].canId == id
  }

  /** The jobs of a zero-set tick: the known ids of the order, in that order. */
  lemma {:induction false} ZeroJobsAre(cfg: Config, offsets: map<int, i16>, order: seq<int>)
    requires Ascending(order)
    ensures var jobs := ZeroJobs(cfg, offsets, order);
            && AreZeroJobs(cfg, offsets, jobs) && AscendingJobs(jobs)
            && forall id :: HasJob(jobs, id) <==> id in order && id in cfg.ids
  {
    forall id
      ensures HasJob(ZeroJobs(cfg, offsets, order), id) <==> id in order && id in cfg.ids
    {
      ZeroJobsHave(cfg, offsets, order, id);
    }
    if order != [] {
      var init, last := order[..|order| - 1], order[|order| - 1];
      ZeroJobsAre(cfg, offsets, init);
      var before, job := ZeroJobs(cfg, offsets, init), ZeroJob(offsets, last);
      LastIsGreatest(before, order);
      assert ZeroJobs(cfg, offsets, order) == if last in cfg.ids then before + [job] else before;
      hide HasJob, Ascending, ZeroJobs;
      if last in cfg.ids {
        LongerZeroJobs(cfg, offsets, before, last);
        hide AreZeroJobs, AscendingJobs, ZeroJob;
      }
    }
  }

  lemma LongerZeroJobs(cfg: Config, offsets: map<int, i16>, jobs: seq<Job>, id: int)
    requires AreZeroJobs(cfg, offsets, jobs) && AscendingJobs(jobs) && id in cfg.ids
    requires forall i :: 0 <= i < |jobs| ==> jobs[i].canId < id
    ensures AreZeroJobs(cfg, offsets, jobs + [ZeroJob(offsets, id)])
    ensures AscendingJobs(jobs + [ZeroJob(offsets, id)])
  {
    assert ZeroJob(offsets, id).canId == id;
    hide ZeroJob;
  }

  lemma LastIsGreatest(jobs: seq<Job>, order: seq<int>)
    requires order != [] && Ascending(order)
    requires forall id :: HasJob(jobs, id) ==> id in order[..|order| - 1]
    ensures forall i :: 0 <= i < |jobs| ==> jobs[i].canId < order[|order| - 1]
  {
    forall i | 0 <= i < |jobs|
      ensures jobs[i].canId < order[|order| - 1]
    {
      assert HasJob(jobs, jobs[i].canId);
      var init := order[..|order| - 1];
      var k :| 0 <= k < |init| && init[k] == jobs[i].canId;
      assert order[k] == init[k];
    }
  }

  lemma {:induction false} ZeroJobsHave(cfg: Config, offsets: map<int, i16>, order: seq<int>, id: int)
    ensures HasJob(ZeroJobs(cfg, offsets, order), id) <==> id in order && id in cfg.ids
  {
    if order != [] {
      var init, last := order[..|order| - 1], order[|order| - 1];
      ZeroJobsHave(cfg, offsets, init, id);
      assert order == init + [last];
      var before := ZeroJobs(cfg, offsets, init);
      assert ZeroJobs(cfg, offsets, order) == if last in cfg.ids then before + [ZeroJob(offsets, last)] else before;
      MoreJobs(before, ZeroJob(offsets, last), id);
    }
  }

  lemma MoreJobs(jobs: seq<Job>, job: Job, id: int)
    ensures HasJob(jobs + [job], id) <==> HasJob(jobs, id) || job.canId == id
  {
    if HasJob(jobs, id) {
      var i :| 0 <= i < |jobs| && jobs[i].canId == id;
      assert (jobs + [job])[i].canId == id;
    }
    if job.canId == id {
      assert (jobs + [job])[|jobs|].canId == id;
    }
  }

  lemma ZeroJobsFamily(cfg: Config, offsets: map<int, i16>)
    ensures JobsOfFamily(cfg, ZeroJobs(cfg, offsets, ZeroOrder(cfg, offsets)), CMD_MIT_SET_ZERO)
  {
    ZeroJobsAre(cfg, offsets, ZeroOrder(cfg, offsets));
    forall id: int
      ensures var p := ZeroJob(offsets, id).payload; p.Ok? ==> |p.value| == 8 && p.value[0] == CMD_MIT_SET_ZERO
    {
    }
  }

  lemma DampingTargetsKnown(cfg: Config)
    ensures forall i :: 0 <= i < |DampingTargets(cfg)| ==> DampingTargets(cfg)[i].canId in cfg.ids
  {
  }

  /** Whatever a tick sends belongs to the one family of the mode it ends in. */
  lemma OneFamilyPerTick(cfg: Config, s: State, input: Input)
    requires input.op.Valid() && input.cmd.Valid()
    ensures var outcome := Step(cfg, s, input);
            OnlyFamily(cfg, outcome.frames, FamilyOf(outcome.state.mode))
  {
    var s' := Updated(cfg, s, input);
    match s'.mode
    case ESTOP => FamilyOfJobs(cfg, CommandJobs(cfg.ids, CMD_MIT_EXIT), input.bus, CMD_MIT_EXIT);
    case DISABLED => FamilyOfJobs(cfg, CommandJobs(cfg.ids, CMD_MIT_EXIT), input.bus, CMD_MIT_EXIT);
    case ENABLING => FamilyOfJobs(cfg, CommandJobs(cfg.ids, CMD_MIT_ENTER), input.bus, CMD_MIT_ENTER);
    case ZERO_SETTING =>
      if ZeroOffsets(input.op).Ok? {
        var offsets := ZeroOffsets(input.op).value;
        ZeroJobsFamily(cfg, offsets);
        FamilyOfJobs(cfg, ZeroJobs(cfg, offsets, ZeroOrder(cfg, offsets)), input.bus, CMD_MIT_SET_ZERO);
      }
    case DAMPING =>
      DampingTargetsKnown(cfg);
      MitJobsFamily(cfg, DampingTargets(cfg));
      FamilyOfJobs(cfg, MitJobs(cfg, DampingTargets(cfg)), input.bus, CMD_MIT_CONTROL);
    case NORMAL =>
      KnownTargetsAre(cfg, input.cmd.targets, Min(input.cmd.numTargets, |input.cmd.targets|));
      MitJobsFamily(cfg, PolicyTargets(cfg, input.cmd));
      FamilyOfJobs(cfg, MitJobs(cfg, PolicyTargets(cfg, input.cmd)), input.bus, CMD_MIT_CONTROL);
  }

  /** One frame with this opcode to each actuator in order, up to the first that the daemon refuses. */
  ghost predicate ReachesAll(ids: seq<int>, opcode: int, bus: Bus, frames: seq<CanFrame>, error: Option<TickError>) {
    && |frames| <= |ids| && (forall i :: 0 <= i < |frames| ==> bus(i))
    && (if |frames| < |ids| then !bus(|frames|) && error == Some(Refused) else error == None)
    && forall i :: 0 <= i < |frames| ==>
         && frames[i].canId == ids[i] && |frames[i].data| == 8 && frames[i].data[0] == opcode
         && forall k :: 1 <= k < 8 ==> frames[i].data[k] == 0
  }

  /** A tick that ends in ESTOP or DISABLED sends every actuator a disable frame, one that ends in
      ENABLING an enable frame, and records it so. */
  lemma CommandReachesAll(cfg: Config, s: State, input: Input)
    requires cfg.Sound()
    ensures var outcome := Step(cfg, s, input);
            && (outcome.state.mode in {Mode.ESTOP, DISABLED} ==>
                  && ReachesAll(cfg.ids, 0xC2, input.bus, outcome.frames, outcome.error)
                  && outcome.state.source == DISABLE_ALL && outcome.state.targets == [])
            && (outcome.state.mode == ENABLING ==>
                  && ReachesAll(cfg.ids, 0xC1, input.bus, outcome.frames, outcome.error)
                  && outcome.state.source == ENABLE_ALL && outcome.state.targets == [])
  {
    CommandJobsSent(cfg.ids, CMD_MIT_EXIT, input.bus);
    CommandJobsSent(cfg.ids, CMD_MIT_ENTER, input.bus);
    hide Updated, CommandJobs, MitJobs, ZeroJobs, ZeroOffsets, SentBy, FirstError, ReachesAll, PolicyTargets;
  }

  lemma {:induction false} CommandJobsSent(ids: seq<int>, opcode: byte, bus: Bus)
    requires forall i :: 0 <= i < |ids| ==> 0 <= ids[i] <= MAX_STANDARD_ID
    ensures ReachesAll(
              ids, opcode, bus, SentBy(CommandJobs(ids, opcode), bus), FirstError(CommandJobs(ids, opcode), bus))
  {
    if ids != [] {
      var n := |ids| - 1;
      CommandJobsSent(ids[..n], opcode, bus);
      var before, job := CommandJobs(ids[..n], opcode), Job(ids[n], Ok([opcode, 0, 0, 0, 0, 0, 0, 0]));
      assert CommandJobs(ids, opcode) == before + [job];
      LastCommandJob(before, job, bus);
      hide CommandJobs, SentBy, FirstError;
      ReachesOneMore(ids[..n], ids[n], opcode, bus, SentBy(before, bus), FirstError(before, bus));
      hide ReachesAll;
      assert ids == ids[..n] + [ids[n]];
    }
  }

  lemma ReachesOneMore(
    ids: seq<int>, id: int, opcode: byte, bus: Bus, frames: seq<CanFrame>, error: Option<TickError>)
    requires ReachesAll(ids, opcode, bus, frames, error)
    ensures error.Some? ==> ReachesAll(ids + [id], opcode, bus, frames, error)
    ensures error.None? ==>
              && |frames| == |ids|
              && if bus(|ids|) then
                ReachesAll(ids + [id], opcode, bus, frames + [CanFrame(id, [opcode, 0, 0, 0, 0, 0, 0, 0])], None)
              else
                ReachesAll(ids + [id], opcode, bus, frames, Some(Refused))
  {
  }

  lemma LastCommandJob(jobs: seq<Job>, job: Job, bus: Bus)
    requires job.Fine()
    ensures FirstError(jobs, bus).Some? ==>
              FirstError(jobs + [job], bus) == FirstError(jobs, bus) && SentBy(jobs + [job], bus) == SentBy(jobs, bus)
    ensures FirstError(jobs, bus).None? ==>
              if bus(|jobs|) then
                FirstError(jobs + [job], bus).None? && SentBy(jobs + [job], bus) == SentBy(jobs, bus) + [job.Frame()]
              else
                FirstError(jobs + [job], bus) == Some(Refused) && SentBy(jobs + [job], bus) == SentBy(jobs, bus)
  {
    assert (jobs + [job])[..|jobs|] == jobs;
  }

  // ---------------------------------------------------------------------------
  // The record of what was sent
  // ---------------------------------------------------------------------------

  function SourceOf(mode: Mode): Source {
    match mode
    case ESTOP => DISABLE_ALL
    case DISABLED => DISABLE_ALL
    case ENABLING => ENABLE_ALL
    case ZERO_SETTING => ZERO_SET_ALL
    case DAMPING => DAMPING_ALL
    case NORMAL => POLICY
  }

  /** Frame by frame: the frame goes to the target's actuator and its bytes stand for the
      target's setpoint. */
  ghost predicate FramesMatchTargets(cfg: Config, frames: seq<CanFrame>, targets: seq<CommandTarget>) {
    && |frames| == |targets|
    && forall i :: 0 <= i < |targets| ==>
         && frames[i].canId == targets[i].canId && |frames[i].data| == 8
         && Stands(cfg.mit, DecodeFields(frames[i].data), targets[i].setpoint)
  }

  lemma MitJobsMatchTargets(cfg: Config, targets: seq<CommandTarget>, bus: Bus)
    requires FirstError(MitJobs(cfg, targets), bus).None?
    ensures FramesMatchTargets(cfg, SentBy(MitJobs(cfg, targets), bus), targets)
  {
    var jobs := MitJobs(cfg, targets);
    AllSent(jobs, bus);
    forall i | 0 <= i < |targets|
      ensures var f := SentBy(jobs, bus)[i];
              f.canId == targets[i].canId && |f.data| == 8 && Stands(cfg.mit, DecodeFields(f.data), targets[i].setpoint)
    {
      MitPayloadMeaning(HalfAway, cfg.mit, targets[i].setpoint);
      assert jobs[i].Error(bus(i)).None? && SentBy(jobs, bus)[i] == jobs[i].Frame();
    }
  }

  /** A damping tick asks every actuator, in ascending order, for nothing but damping. */
  lemma DampingReachesAll(cfg: Config, s: State, input: Input)
    requires cfg.Sound() && TakesAll(input.bus) && Updated(cfg, s, input).mode == Mode.DAMPING
    ensures var outcome := Step(cfg, s, input);
            && outcome.error.None? && |outcome.frames| == |cfg.ids|
            && (forall i, j :: 0 <= i < j < |outcome.frames| ==> outcome.frames[i].canId < outcome.frames[j].canId)
            && forall i :: 0 <= i < |outcome.frames| ==>
                 && outcome.frames[i].canId in cfg.ids && |outcome.frames[i].data| == 8
                 && Stands(cfg.mit, DecodeFields(outcome.frames[i].data), Setpoint(0.0, 0.0, 0.0, cfg.dampingKd, 0.0))
  {
    DampingTick(cfg, s, input);
    hide Step, Updated, Stands, Sendable, MitJobs, FirstError, SentBy, DampingTargets;
    var targets := DampingTargets(cfg);
    DampingTargetsAre(cfg);
    DampingSendable(cfg, input.bus);
    PassingAreSent(cfg, targets, input.bus);
    MitJobsMatchTargets(cfg, targets, input.bus);
  }

  lemma DampingTargetsAre(cfg: Config)
    requires cfg.Constructible()
    ensures var targets := DampingTargets(cfg);
            && |targets| == |cfg.ids|
            && (forall i, j :: 0 <= i < j < |targets| ==> targets[i].canId < targets[j].canId)
            && forall i :: 0 <= i < |targets| ==>
                 targets[i].canId in cfg.ids && targets[i].setpoint == Setpoint(0.0, 0.0, 0.0, cfg.dampingKd, 0.0)
  {
    AscendingLength(cfg.ids);
    DampingTargetsKnown(cfg);
  }

  lemma DampingTick(cfg: Config, s: State, input: Input)
    requires Updated(cfg, s, input).mode == Mode.DAMPING
    ensures var outcome, jobs := Step(cfg, s, input), MitJobs(cfg, DampingTargets(cfg));
            outcome.frames == SentBy(jobs, input.bus) && outcome.error == FirstError(jobs, input.bus)
  {
    hide Updated, FirstError, SentBy, MitJobs, DampingTargets;
  }

  lemma AscendingLength(ids: seq<int>)
    requires forall i, j :: 0 <= i < j < |ids| ==> ids[i] != ids[j]
    ensures |SortedIds(IdSet(ids))| == |ids|
  {
    var sorted := SortedIds(IdSet(ids));
    DistinctLength(ids);
    DistinctLength(sorted);
    assert IdSet(sorted) == IdSet(ids) by {
      assert forall x :: x in IdSet(sorted) <==> x in sorted;
      assert forall i :: 0 <= i < |sorted| ==> sorted[i] in IdSet(ids);
    }
  }

  // ---------------------------------------------------------------------------
  // When the record is right
  // ---------------------------------------------------------------------------

  /** The record names the family of the mode and, for damping and policy, lists exactly the
      targets of the frames that went out. */
  ghost predicate Agrees(cfg: Config, outcome: Outcome) {
    var s := outcome.state;
    && s.source == SourceOf(s.mode)
    && (s.mode == Mode.DAMPING || s.mode == NORMAL ==> FramesMatchTargets(cfg, outcome.frames, s.targets))
  }

  /** Nothing about this target makes its tick raise. */
  predicate Sendable(cfg: Config, t: CommandTarget, taken: bool) {
    cfg.mit.Positive() && t.setpoint.InRange(cfg.mit) && 0 <= t.canId <= MAX_STANDARD_ID && taken
  }

  ghost predicate AllSendable(cfg: Config, targets: seq<CommandTarget>, bus: Bus) {
    forall i :: 0 <= i < |targets| ==> Sendable(cfg, targets[i], bus(i))
  }

  /** How many targets lie before the first that cannot be sent. */
  function Passing(cfg: Config, targets: seq<CommandTarget>, bus: Bus): (n: nat)
    ensures n <= |targets|
    ensures forall i :: 0 <= i < n ==> Sendable(cfg, targets[i], bus(i))
    ensures n < |targets| ==> !Sendable(cfg, targets[n], bus(n))
  {
    if targets == [] then 0
    else
      var init := targets[..|targets| - 1];
      var n := Passing(cfg, init, bus);
      if n == |init| && Sendable(cfg, targets[n], bus(n)) then n + 1 else n
  }

  /** Exactly the targets before the first bad one are sent. */
  lemma {:induction false} PassingAreSent(cfg: Config, targets: seq<CommandTarget>, bus: Bus)
    ensures var jobs, n := MitJobs(cfg, targets), Passing(cfg, targets, bus);
            && (FirstError(jobs, bus).None? <==> n == |targets|) && |SentBy(jobs, bus)| == n
            && forall i :: 0 <= i < n ==> jobs[i].Fine() && SentBy(jobs, bus)[i] == jobs[i].Frame()
  {
    if targets != [] {
      var last := |targets| - 1;
      var init, job := targets[..last], MitJob(cfg, targets[last]);
      PassingAreSent(cfg, init, bus);
      SendableJob(cfg, targets[last], bus(last));
      var before, jobs := MitJobs(cfg, init), MitJobs(cfg, targets);
      assert jobs == before + [job];
      OneMoreJob(before, job, bus);
      assert Passing(cfg, targets, bus)
          == if Passing(cfg, init, bus) == last && job.Fine() && bus(last) then |targets| else Passing(cfg, init, bus);
      hide MitJobs, MitJob, FirstError, SentBy, Passing, Sendable;
    }
  }

  lemma SendableJob(cfg: Config, t: CommandTarget, taken: bool)
    ensures Sendable(cfg, t, taken) <==> MitJob(cfg, t).Fine() && taken
  {
    MitPayloadMeaning(HalfAway, cfg.mit, t.setpoint);
    hide MitPayload, Stands;
  }

  lemma OneMoreJob(jobs: seq<Job>, job: Job, bus: Bus)
    ensures FirstError(jobs + [job], bus).None? <==> FirstError(jobs, bus).None? && job.Fine() && bus(|jobs|)
    ensures SentBy(jobs + [job], bus)
         == SentBy(jobs, bus) + if FirstError(jobs + [job], bus).None? then [job.Frame()] else []
  {
    assert (jobs + [job])[..|jobs|] == jobs;
  }

  /** An earlier list of targets that happens to describe the first `n` frames of this one. */
  ghost predicate DescribesFrames(cfg: Config, kept: seq<CommandTarget>, targets: seq<CommandTarget>, n: nat)
    requires n <= |targets|
  {
    && |kept| == n
    && forall i :: 0 <= i < n ==>
         && kept[i].canId == targets[i].canId
         && var q := Quantise(HalfAway, cfg.mit, targets[i].setpoint);
            q.Ok? && Stands(cfg.mit, q.value, kept[i].setpoint)
  }

  /** What decides before the tick whether its record will be right. */
  ghost predicate WillAgree(cfg: Config, s: State, input: Input) {
    match Updated(cfg, s, input).mode
    case ESTOP => true
    case DISABLED => true
    case ENABLING => true
    case ZERO_SETTING => ZeroOffsets(input.op).Ok? || s.source == ZERO_SET_ALL
    case DAMPING =>
      cfg.ids != [] ==>
        && cfg.mit.Positive() && 0.0 <= cfg.dampingKd <= cfg.mit.kdMax
        && (forall id :: id in cfg.ids ==> 0 <= id <= MAX_STANDARD_ID)
        && forall i: nat :: i < |cfg.ids| ==> input.bus(i)
    case NORMAL =>
      var targets := PolicyTargets(cfg, input.cmd);
      || AllSendable(cfg, targets, input.bus)
      || (s.source == POLICY && DescribesFrames(cfg, s.targets, targets, Passing(cfg, targets, input.bus)))
  }

  /** The record of a tick matches the bus exactly if no target of a damping or policy tick is
      unsendable and no zero-set record malformed, or the record left from before happens to fit. */
  lemma RecordMatchesOutput(cfg: Config, s: State, input: Input)
    requires cfg.Constructible()
    ensures Agrees(cfg, Step(cfg, s, input)) <==> WillAgree(cfg, s, input)
  {
    var mode := Updated(cfg, s, input).mode;
    if mode == Mode.DAMPING {
      DampingRecord(cfg, s, input);
    } else if mode == NORMAL {
      PolicyRecord(cfg, s, input);
    }
    hide Updated, PolicyTargets, DampingTargets, FramesMatchTargets, ZeroJobs;
  }

  lemma DampingRecord(cfg: Config, s: State, input: Input)
    requires cfg.Constructible() && Updated(cfg, s, input).mode == Mode.DAMPING
    ensures Agrees(cfg, Step(cfg, s, input)) <==> WillAgree(cfg, s, input)
  {
    var targets := DampingTargets(cfg);
    hide Updated, FirstError, SentBy, MitJobs;
    PassingAreSent(cfg, targets, input.bus);
    if Passing(cfg, targets, input.bus) == |targets| {
      MitJobsMatchTargets(cfg, targets, input.bus);
    }
    DampingSendable(cfg, input.bus);
    hide DampingTargets, Sendable;
  }

  lemma DampingSendable(cfg: Config, bus: Bus)
    requires cfg.Constructible()
    ensures AllSendable(cfg, DampingTargets(cfg), bus) <==>
            (cfg.ids != [] ==>
               && cfg.mit.Positive() && 0.0 <= cfg.dampingKd <= cfg.mit.kdMax
               && (forall id :: id in cfg.ids ==> 0 <= id <= MAX_STANDARD_ID)
               && forall i: nat :: i < |cfg.ids| ==> bus(i))
  {
    var targets, ids := DampingTargets(cfg), SortedIds(IdSet(cfg.ids));
    AscendingLength(cfg.ids);
    if AllSendable(cfg, targets, bus) && cfg.ids != [] {
      assert Sendable(cfg, targets[0], bus(0));
      forall id | id in cfg.ids
        ensures 0 <= id <= MAX_STANDARD_ID
      {
        assert id in IdSet(cfg.ids);
        var i :| 0 <= i < |ids| && ids[i] == id;
        assert Sendable(cfg, targets[i], bus(i));
      }
      forall i: nat | i < |cfg.ids|
        ensures bus(i)
      {
        assert Sendable(cfg, targets[i], bus(i));
      }
    } else {
      DampingTargetsKnown(cfg);
    }
  }

  lemma PolicyRecord(cfg: Config, s: State, input: Input)
    requires Updated(cfg, s, input).mode == NORMAL
    ensures Agrees(cfg, Step(cfg, s, input)) <==> WillAgree(cfg, s, input)
  {
    var targets := PolicyTargets(cfg, input.cmd);
    var n := Passing(cfg, targets, input.bus);
    hide FirstError, SentBy, PolicyTargets;
    PassingAreSent(cfg, targets, input.bus);
    if n == |targets| {
      MitJobsMatchTargets(cfg, targets, input.bus);
    } else {
      DescriptionDecides(cfg, s.targets, targets, input.bus);
    }
    assert n == |targets| <==> AllSendable(cfg, targets, input.bus);
    hide Sendable, MitJobs, DescribesFrames, FramesMatchTargets;
  }

  lemma DescriptionDecides(cfg: Config, kept: seq<CommandTarget>, targets: seq<CommandTarget>, bus: Bus)
    ensures FramesMatchTargets(cfg, SentBy(MitJobs(cfg, targets), bus), kept)
       <==> DescribesFrames(cfg, kept, targets, Passing(cfg, targets, bus))
  {
    var jobs, n := MitJobs(cfg, targets), Passing(cfg, targets, bus);
    PassingAreSent(cfg, targets, bus);
    hide SentBy, FirstError;
    forall i | 0 <= i < n
      ensures var q := Quantise(HalfAway, cfg.mit, targets[i].setpoint);
              q.Ok? && |SentBy(jobs, bus)[i].data| == 8 && DecodeFields(SentBy(jobs, bus)[i].data) == q.value
    {
      MitPayloadFields(HalfAway, cfg.mit, targets[i].setpoint);
    }
    hide Stands, Quantise, DecodeFields;
  }

  /** With a sound configuration and a willing daemon a NORMAL tick raises nothing exactly if
      every used slot with a known id is in range. */
  lemma PolicyTickRaisesNothing(cfg: Config, s: State, input: Input)
    requires cfg.Sound() && TakesAll(input.bus) && Updated(cfg, s, input).mode == NORMAL
    ensures Step(cfg, s, input).error.None? <==>
            forall i :: 0 <= i < Min(input.cmd.numTargets, |input.cmd.targets|) && input.cmd.targets[i].canId in cfg.ids
              ==> AsTarget(input.cmd.targets[i]).setpoint.InRange(cfg.mit)
  {
    var n := Min(input.cmd.numTargets, |input.cmd.targets|);
    var targets := PolicyTargets(cfg, input.cmd);
    PassingAreSent(cfg, targets, input.bus);
    KnownTargetsAre(cfg, input.cmd.targets, n);
    forall i | 0 <= i < n && input.cmd.targets[i].canId in cfg.ids
      ensures AsTarget(input.cmd.targets[i]) in targets
    {
      KnownSlotIsListed(cfg, input.cmd.targets, n, i);
    }
    hide FirstError, SentBy, MitJobs, KnownTargets;
  }

  /** `slots` are the used slots with a known id, in slot order. */
  ghost predicate AreKnownSlots(cfg: Config, cmd: ControlCommand.Record, slots: seq<nat>) {
    && (forall m, n :: 0 <= m < n < |slots| ==> slots[m] < slots[n])
    && forall i: nat :: i in slots <==> i < cmd.numTargets && i < |cmd.targets| && cmd.targets[i].canId in cfg.ids
  }

  /** A frame that asks for exactly this slot's setpoint. */
  ghost predicate CarriesSlot(cfg: Config, f: CanFrame, t: ControlCommand.Target) {
    && f.canId == t.canId && |f.data| == 8 && f.data[0] == 0xC0
    && Stands(cfg.mit, DecodeFields(f.data), Setpoint(t.q, t.dq, t.kp, t.kd, t.tau))
  }

  /** A NORMAL tick without an error sends one frame for each used slot with a known id, in slot order,
      and each frame's bytes stand for that slot's setpoint. */
  lemma PolicyTickSendsSlots(cfg: Config, s: State, input: Input) returns (slots: seq<nat>)
    requires Step(cfg, s, input).state.mode == NORMAL && Step(cfg, s, input).error == None && input.cmd.Valid()
    ensures AreKnownSlots(cfg, input.cmd, slots) && |Step(cfg, s, input).frames| == |slots|
    ensures forall m :: 0 <= m < |slots| ==>
              && slots[m] < |input.cmd.targets|
              && CarriesSlot(cfg, Step(cfg, s, input).frames[m], input.cmd.targets[slots[m]])
  {
    hide Step, KnownTargets, MitPayload, Stands, MitJobs, SentBy, FirstError;
    var targets := PolicyTargets(cfg, input.cmd);
    NormalTickFrames(cfg, s, input);
    slots := KnownSlots(cfg, input.cmd.targets, Min(input.cmd.numTargets, |input.cmd.targets|));
    MitJobsMatchTargets(cfg, targets, input.bus);
    assert forall m :: 0 <= m < |slots| ==> slots[m] in slots;
    forall m | 0 <= m < |slots|
      ensures CarriesSlot(cfg, Step(cfg, s, input).frames[m], input.cmd.targets[slots[m]])
    {
      MitJobsOpcode(cfg, targets, input.bus, m);
    }
  }

  lemma NormalTickFrames(cfg: Config, s: State, input: Input)
    requires Step(cfg, s, input).state.mode == NORMAL
    ensures var jobs := MitJobs(cfg, PolicyTargets(cfg, input.cmd));
            && Step(cfg, s, input).frames == SentBy(jobs, input.bus)
            && Step(cfg, s, input).error == FirstError(jobs, input.bus)
  {
    hide Updated, MitJobs, SentBy, FirstError, PolicyTargets, ZeroJobs, ZeroOffsets, DampingTargets;
  }

  lemma MitJobsOpcode(cfg: Config, targets: seq<CommandTarget>, bus: Bus, m: nat)
    requires FirstError(MitJobs(cfg, targets), bus).None? && m < |targets|
    ensures |SentBy(MitJobs(cfg, targets), bus)| == |targets|
    ensures var data := SentBy(MitJobs(cfg, targets), bus)[m].data; |data| == 8 && data[0] == 0xC0
  {
    AllSent(MitJobs(cfg, targets), bus);
    MitPayloadMeaning(HalfAway, cfg.mit, targets[m].setpoint);
    assert MitJobs(cfg, targets)[m].Error(bus(m)).None?;
    hide FirstError, SentBy, MitPayload, Stands;
  }

  lemma {:induction false} KnownSlots(cfg: Config, targets: seq<ControlCommand.Target>, n: nat)
    returns (slots: seq<nat>)
    requires n <= |targets|
    ensures forall i, j :: 0 <= i < j < |slots| ==> slots[i] < slots[j]
    ensures forall m :: 0 <= m < |slots| ==> slots[m] < n
    ensures forall i: nat :: i in slots <==> i < n && targets[i].canId in cfg.ids
    ensures |KnownTargets(cfg, targets, n)| == |slots|
    ensures forall m :: 0 <= m < |slots| ==> KnownTargets(cfg, targets, n)[m] == AsTarget(targets[slots[m]])
  {
    slots := [];
    if n > 0 {
      slots := KnownSlots(cfg, targets, n - 1);
      if targets[n - 1].canId in cfg.ids {
        slots := slots + [n - 1];
      }
    }
  }

  lemma {:induction false} KnownSlotIsListed(cfg: Config, slots: seq<ControlCommand.Target>, n: nat, i: nat)
    requires i < n <= |slots| && slots[i].canId in cfg.ids
    ensures AsTarget(slots[i]) in KnownTargets(cfg, slots, n)
    decreases n
  {
    if i < n - 1 {
      KnownSlotIsListed(cfg, slots, n - 1, i);
    }
  }

  const SHIPPED_RANGES := MitConfig(12.5, 45.0, 500.0, 5.0, 33.0)

  const LIMP := ControlCommand.Target(1, 0.0, 0.0, 0.0, 0.0, 0.0)

  const TOO_STIFF := ControlCommand.Target(2, 0.0, 0.0, 501.0, 0.0, 0.0)

  lemma ShippedRangesApply(cfg: Config)
    requires cfg == Config(SHIPPED_RANGES, 1.0, 0.0, [1, 2])
    ensures cfg.Sound() && Sendable(cfg, AsTarget(LIMP), true) && !AsTarget(TOO_STIFF).setpoint.InRange(cfg.mit)
  {
  }

  /** Two ticks from start-up, with a sound configuration and a willing daemon, the record can be
      wrong: DAMPING, and then RUN with a policy record whose second gain is out of range, sends
      one policy frame while the record still says damping. */
  lemma UnrecordedPolicyFrame() returns (cfg: Config, states: seq<State>, inputs: seq<Input>)
    ensures cfg.Sound() && IsRun(cfg, states, inputs) && |inputs| == 2 && TakesAll(inputs[1].bus)
    ensures var outcome := Step(cfg, states[1], inputs[1]);
            && outcome.state.mode == NORMAL && outcome.error == Some(BadPayload(OutOfRange))
            && |outcome.frames| == 1 && outcome.state.source == DAMPING_ALL && !Agrees(cfg, outcome)
  {
    cfg := Config(SHIPPED_RANGES, 1.0, 0.0, [1, 2]);
    var good, bad := LIMP, TOO_STIFF;
    ShippedRangesApply(cfg);
    hide Config.Sound, Sendable, Setpoint.InRange;
    var cmd := ControlCommand.Record(0, 2, [good, bad] + seq(10, _ => ControlCommand.EMPTY_SLOT));
    var willing: Bus := _ => true;
    inputs := [Input(0.0, Op.Plain(Op.DAMPING, 1), cmd, willing), Input(0.0, Op.Plain(Op.RUN, 2), cmd, willing)];
    var s0 := State(DISABLED, 0.0, None, NO_OUTPUT, []);
    FirstDamping(cfg, s0, inputs[0], 1);
    var s1 := Step(cfg, s0, inputs[0]).state;
    assert Initial(s0) && cmd.Valid() && inputs[0].op.Valid() && inputs[1].op.Valid();
    hide IsRun, Initial, Step, Op.Plain, Agrees, DampingTargets;
    TwoTicks(cfg, s0, inputs[0], inputs[1]);
    states := [s0, s1, Step(cfg, s1, inputs[1]).state];
    BadPolicyTick(cfg, s1, inputs[1], good, bad);
  }

  lemma FirstDamping(cfg: Config, s: State, input: Input, timestamp: nat)
    requires s.mode == DISABLED && s.lastConsumed == None && input.op == Op.Plain(Op.DAMPING, timestamp)
    ensures var s' := Step(cfg, s, input).state;
            && s'.mode == Mode.DAMPING && s'.lastConsumed == Some(timestamp)
            && s'.source == DAMPING_ALL && s'.targets == DampingTargets(cfg)
  {
    hide SentBy, FirstError, MitJobs, DampingTargets;
    assert Updated(cfg, s, input).mode == Mode.DAMPING;
  }

  lemma BadPolicyTick(
    cfg: Config, s: State, input: Input, good: ControlCommand.Target, bad: ControlCommand.Target)
    requires s.mode == Mode.DAMPING && s.lastConsumed == Some(1) && input.op == Op.Plain(Op.RUN, 2)
    requires s.source == DAMPING_ALL && input.cmd.Valid() && input.cmd.numTargets == 2
    requires input.cmd.targets[0] == good && input.cmd.targets[1] == bad
    requires Sendable(cfg, AsTarget(good), input.bus(0)) && good.canId in cfg.ids && bad.canId in cfg.ids
    requires !AsTarget(bad).setpoint.InRange(cfg.mit)
    ensures var outcome := Step(cfg, s, input);
            && outcome.state.mode == NORMAL && outcome.error == Some(BadPayload(OutOfRange))
            && |outcome.frames| == 1 && outcome.state.source == DAMPING_ALL && !Agrees(cfg, outcome)
  {
    BadSecondTarget(cfg, input.cmd, good, bad, input.bus);
    hide SentBy, FirstError, MitJobs, PolicyTargets, Sendable;
    assert Updated(cfg, s, input).mode == NORMAL;
  }

  lemma TwoTicks(cfg: Config, s0: State, first: Input, second: Input)
    requires Initial(s0) && first.op.Valid() && first.cmd.Valid() && second.op.Valid() && second.cmd.Valid()
    ensures var s1 := Step(cfg, s0, first).state;
            IsRun(cfg, [s0, s1, Step(cfg, s1, second).state], [first, second])
  {
    hide Step;
  }

  lemma BadSecondTarget(
    cfg: Config, cmd: ControlCommand.Record, good: ControlCommand.Target, bad: ControlCommand.Target, bus: Bus)
    requires cmd.Valid() && cmd.numTargets == 2 && cmd.targets[0] == good && cmd.targets[1] == bad
    requires Sendable(cfg, AsTarget(good), bus(0)) && good.canId in cfg.ids && bad.canId in cfg.ids
    requires !AsTarget(bad).setpoint.InRange(cfg.mit)
    ensures var jobs := MitJobs(cfg, PolicyTargets(cfg, cmd));
            FirstError(jobs, bus) == Some(BadPayload(OutOfRange)) && |SentBy(jobs, bus)| == 1
  {
    assert KnownTargets(cfg, cmd.targets, 1) == [AsTarget(good)];
    assert PolicyTargets(cfg, cmd) == [AsTarget(good), AsTarget(bad)];
    var jobs := MitJobs(cfg, PolicyTargets(cfg, cmd));
    MitPayloadMeaning(HalfAway, cfg.mit, AsTarget(good).setpoint);
    SecondJobRaises(jobs, bus);
    hide FirstError, SentBy, KnownTargets, Stands;
  }

  lemma SecondJobRaises(jobs: seq<Job>, bus: Bus)
    requires |jobs| == 2 && jobs[0].Error(bus(0)).None? && jobs[1].Error(bus(1)).Some?
    ensures FirstError(jobs, bus) == jobs[1].Error(bus(1)) && SentBy(jobs, bus) == [jobs[0].Frame()]
  {
    assert jobs[..1] == [jobs[0]] && jobs[..0] == [];
    NextJob(jobs, bus, 0);
    NextJob(jobs, bus, 1);
  }

  /** A damping gain beyond its range, which nothing rejects, makes the first damping tick list
      a target for which no frame went out. */
  lemma UnsentDampingRecord() returns (cfg: Config, states: seq<State>, inputs: seq<Input>)
    ensures cfg.Constructible() && IsRun(cfg, states, inputs) && |inputs| == 1 && TakesAll(inputs[0].bus)
    ensures var outcome := Step(cfg, states[0], inputs[0]);
            && outcome.state.mode == Mode.DAMPING && outcome.error.Some? && outcome.frames == []
            && outcome.state.source == DAMPING_ALL && |outcome.state.targets| == 1 && !Agrees(cfg, outcome)
  {
    cfg := Config(SHIPPED_RANGES, 6.0, 0.0, [1]);
    var cmd := ControlCommand.Record(0, 0, seq(ControlCommand.CAPACITY, _ => ControlCommand.EMPTY_SLOT));
    inputs := [Input(0.0, Op.Plain(Op.DAMPING, 1), cmd, _ => true)];
    var s0 := State(DISABLED, 0.0, None, NO_OUTPUT, []);
    hide SentBy, FirstError, MitJobs;
    FirstDamping(cfg, s0, inputs[0], 1);
    states := [s0, Step(cfg, s0, inputs[0]).state];
    AscendingLength(cfg.ids);
    assert DampingTargets(cfg)[0].setpoint.kd == 6.0;
    PassingAreSent(cfg, DampingTargets(cfg), inputs[0].bus);
  }

  // ---------------------------------------------------------------------------
  // What every command does
  // ---------------------------------------------------------------------------

  /** The number tick `k` acts on: the one in the operator's record, or 0 if the record has the
      timestamp that was consumed last. */
  ghost function HeardAt(states: seq<State>, inputs: seq<Input>, k: nat): nat
    requires k < |inputs| && k < |states|
  {
    if states[k].lastConsumed == Some(inputs[k].op.timestamp) then 0 else inputs[k].op.command
  }

  /** Over every run each tick does what the number it hears asks of the mode it starts in. A number
      that asks for something is consumed, and a change of mode starts the mode's clock. */
  lemma EveryCommandObeyed(cfg: Config, states: seq<State>, inputs: seq<Input>, k: nat)
    requires IsRun(cfg, states, inputs) && k < |inputs|
    ensures var s, s', heard := states[k], states[k + 1], HeardAt(states, inputs, k);
            && Obeys(s.mode, heard, inputs[k].now - s.since >= cfg.enableDuration, s'.mode)
            && s'.since == (if s'.mode == s.mode then s.since else inputs[k].now)
            && s'.lastConsumed == if 1 <= heard <= 7 then Some(inputs[k].op.timestamp) else s.lastConsumed
  {
    hide IsRun, Delivered, NextMode, HeardAt, Op.Code.Raw;
    RunLength(cfg, states, inputs);
    TickUpdates(cfg, states, inputs, k);
    HeardCode(states, inputs, k);
    TableByCommand(
      states[k].mode, CodeAt(states, inputs, k), inputs[k].now - states[k].since >= cfg.enableDuration,
      states[k + 1].mode);
  }

  lemma HeardCode(states: seq<State>, inputs: seq<Input>, k: nat)
    requires k < |inputs| && k < |states|
    ensures var code, heard := CodeAt(states, inputs, k), HeardAt(states, inputs, k);
            code.Raw() == (if heard <= 7 then heard else 0) && (code == Op.NONE <==> !(1 <= heard <= 7))
  {
  }

  /** A DISABLE heard outside ESTOP ends its tick in DISABLED, whatever the controller was doing,
      and the tick sends nothing but disable frames: one to every actuator, in order, up to the first
      that the daemon refuses. */
  lemma DisableStops(cfg: Config, states: seq<State>, inputs: seq<Input>, k: nat)
    requires cfg.Sound() && IsRun(cfg, states, inputs) && k < |inputs|
    requires HeardAt(states, inputs, k) == 2 && states[k].mode != Mode.ESTOP
    ensures states[k + 1].mode == DISABLED
    ensures var outcome := Step(cfg, states[k], inputs[k]);
            && ReachesAll(cfg.ids, 0xC2, inputs[k].bus, outcome.frames, outcome.error)
            && (TakesAll(inputs[k].bus) ==> |outcome.frames| == |cfg.ids| && outcome.error == None)
  {
    EveryCommandObeyed(cfg, states, inputs, k);
    CommandReachesAll(cfg, states[k], inputs[k]);
    assert IsTick(cfg, states[k], inputs[k], states[k + 1]);
    hide Step, IsRun, HeardAt, Config.Sound;
  }

  // ---------------------------------------------------------------------------
  // Safety over runs
  // ---------------------------------------------------------------------------

  /** Once ESTOP is consumed, every tick stays in ESTOP and sends disable frames only, until a
      fresh RESET_FAULT is consumed. */
  lemma {:induction false} EstopLatches(cfg: Config, states: seq<State>, inputs: seq<Input>, i: nat, k: nat)
    requires IsRun(cfg, states, inputs) && i <= k < |inputs|
    requires CodeAt(states, inputs, i) == Op.ESTOP
    requires forall m :: i < m <= k ==> CodeAt(states, inputs, m) != Op.RESET_FAULT
    ensures states[k + 1].mode == Mode.ESTOP
    ensures OnlyFamily(cfg, FramesAt(cfg, states, inputs, k), CMD_MIT_EXIT)
    decreases k
  {
    hide IsRun, FramesAt, OnlyFamily, CodeAt;
    RunLength(cfg, states, inputs);
    if i < k {
      EstopLatches(cfg, states, inputs, i, k - 1);
    }
    EstopStays(cfg, states, inputs, k);
    FamilyAt(cfg, states, inputs, k);
  }

  lemma EstopStays(cfg: Config, states: seq<State>, inputs: seq<Input>, k: nat)
    requires IsRun(cfg, states, inputs) && k < |inputs|
    requires var code := CodeAt(states, inputs, k);
             code == Op.ESTOP || (states[k].mode == Mode.ESTOP && code != Op.RESET_FAULT)
    ensures states[k + 1].mode == Mode.ESTOP
  {
    TickUpdates(cfg, states, inputs, k);
    hide IsRun, CodeAt;
  }

  lemma FamilyAt(cfg: Config, states: seq<State>, inputs: seq<Input>, k: nat)
    requires IsRun(cfg, states, inputs) && k < |inputs|
    ensures OnlyFamily(cfg, FramesAt(cfg, states, inputs, k), FamilyOf(states[k + 1].mode))
  {
    assert IsTick(cfg, states[k], inputs[k], states[k + 1]);
    OneFamilyPerTick(cfg, states[k], inputs[k]);
    hide Step, OnlyFamily;
  }

  /** A tick that ends in NORMAL, and only such a tick sends policy frames, lies in an unbroken
      NORMAL stretch that a RUN consumed in DAMPING began. */
  lemma {:induction false} PolicyNeedsRun(cfg: Config, states: seq<State>, inputs: seq<Input>, k: nat)
    returns (start: nat)
    requires IsRun(cfg, states, inputs) && k < |inputs| && states[k + 1].mode == NORMAL
    ensures start <= k && states[start].mode == Mode.DAMPING && CodeAt(states, inputs, start) == Op.RUN
    ensures forall m :: start < m <= k + 1 ==> states[m].mode == NORMAL
    decreases k
  {
    hide IsRun, Delivered;
    RunLength(cfg, states, inputs);
    TickUpdates(cfg, states, inputs, k);
    if states[k].mode == NORMAL {
      start := PolicyNeedsRun(cfg, states, inputs, k - 1);
    } else {
      start := k;
    }
  }

  predicate Armed(mode: Mode) {
    mode == ENABLING || mode == Mode.DAMPING || mode == NORMAL
  }

  /** Without ENABLE or DAMPING there is no way out of the modes in which nothing moves. */
  lemma {:induction false} MotionNeedsCommand(
    cfg: Config, states: seq<State>, inputs: seq<Input>, i: nat, k: nat) returns (d: nat)
    requires IsRun(cfg, states, inputs) && i < k <= |inputs|
    requires !Armed(states[i].mode) && Armed(states[k].mode)
    ensures i <= d < k && (CodeAt(states, inputs, d) == Op.ENABLE || CodeAt(states, inputs, d) == Op.DAMPING)
    decreases k
  {
    hide IsRun, Delivered, CodeAt, NextMode, Armed;
    RunLength(cfg, states, inputs);
    if Armed(states[k - 1].mode) {
      d := MotionNeedsCommand(cfg, states, inputs, i, k - 1);
    } else {
      d := k - 1;
      ArmedByCommand(cfg, states, inputs, d);
    }
  }

  lemma ArmedByCommand(cfg: Config, states: seq<State>, inputs: seq<Input>, k: nat)
    requires IsRun(cfg, states, inputs) && k < |inputs|
    requires !Armed(states[k].mode) && Armed(states[k + 1].mode)
    ensures CodeAt(states, inputs, k) == Op.ENABLE || CodeAt(states, inputs, k) == Op.DAMPING
  {
  }

  /** After a consumed ESTOP, policy frames take three fresh operator commands in this order:
      RESET_FAULT, then ENABLE or DAMPING, then RUN. */
  lemma RestartTakesThreeCommands(cfg: Config, states: seq<State>, inputs: seq<Input>, i: nat, k: nat)
    returns (reset: nat, arm: nat, run: nat)
    requires IsRun(cfg, states, inputs) && i < k < |inputs|
    requires CodeAt(states, inputs, i) == Op.ESTOP && states[k + 1].mode == NORMAL
    ensures i < reset < arm < run <= k
    ensures CodeAt(states, inputs, reset) == Op.RESET_FAULT
    ensures CodeAt(states, inputs, arm) == Op.ENABLE || CodeAt(states, inputs, arm) == Op.DAMPING
    ensures CodeAt(states, inputs, run) == Op.RUN
  {
    hide IsRun, Delivered;
    RunLength(cfg, states, inputs);
    run := PolicyNeedsRun(cfg, states, inputs, k);
    TickUpdates(cfg, states, inputs, i);
    reset := FirstReset(cfg, states, inputs, i, run);
    TickUpdates(cfg, states, inputs, reset);
    arm := MotionNeedsCommand(cfg, states, inputs, reset + 1, run);
  }

  lemma {:induction false} FirstReset(cfg: Config, states: seq<State>, inputs: seq<Input>, i: nat, k: nat)
    returns (reset: nat)
    requires IsRun(cfg, states, inputs) && i < k < |inputs|
    requires states[i + 1].mode == Mode.ESTOP && states[k].mode != Mode.ESTOP
    ensures i < reset < k && CodeAt(states, inputs, reset) == Op.RESET_FAULT && states[reset].mode == Mode.ESTOP
    decreases k
  {
    hide IsRun, Delivered, CodeAt, NextMode, Armed;
    RunLength(cfg, states, inputs);
    if states[k - 1].mode == Mode.ESTOP {
      reset := k - 1;
      EstopLeftByReset(cfg, states, inputs, reset);
    } else {
      reset := FirstReset(cfg, states, inputs, i, k - 1);
    }
  }

  lemma EstopLeftByReset(cfg: Config, states: seq<State>, inputs: seq<Input>, k: nat)
    requires IsRun(cfg, states, inputs) && k < |inputs|
    requires states[k].mode == Mode.ESTOP && states[k + 1].mode != Mode.ESTOP
    ensures CodeAt(states, inputs, k) == Op.RESET_FAULT
  {
  }

  // ---------------------------------------------------------------------------
  // Time in ENABLING
  // ---------------------------------------------------------------------------

  /** An update that starts in ENABLING at or after the duration never ends in ENABLING, and
      without another command it ends in DAMPING. */
  lemma EnablingTimesOut(cfg: Config, states: seq<State>, inputs: seq<Input>, k: nat)
    requires IsRun(cfg, states, inputs) && k < |inputs| && states[k].mode == ENABLING
    requires inputs[k].now - states[k].since >= cfg.enableDuration
    ensures states[k + 1].mode != ENABLING
    ensures CodeAt(states, inputs, k) in {Op.NONE, Op.ENABLE, Op.RUN} ==> states[k + 1].mode == Mode.DAMPING
  {
  }

  /** A stretch of ENABLING entered at tick `i` and still going at tick `k` has lasted less than
      the duration, by the clock readings of the two ticks. */
  lemma {:induction false} EnablingIsBounded(cfg: Config, states: seq<State>, inputs: seq<Input>, i: nat, k: nat)
    requires IsRun(cfg, states, inputs) && i < k < |inputs| && states[i].mode != ENABLING
    requires forall m :: i < m <= k + 1 ==> states[m].mode == ENABLING
    ensures states[k].since == inputs[i].now && inputs[k].now - inputs[i].now < cfg.enableDuration
    decreases k
  {
    hide IsRun, Delivered;
    RunLength(cfg, states, inputs);
    TickUpdates(cfg, states, inputs, k - 1);
    TickUpdates(cfg, states, inputs, k);
    if i + 1 < k {
      EnablingIsBounded(cfg, states, inputs, i, k - 1);
    }
  }

  // ---------------------------------------------------------------------------
  // Levels become edges
  // ---------------------------------------------------------------------------

  /** `i` is the last read before `k` that asks for something. */
  ghost predicate LastAsking(inputs: seq<Input>, i: nat, k: nat)
    requires i < k <= |inputs|
  {
    inputs[i].op.Asks() && forall m :: i < m < k ==> !inputs[m].op.Asks()
  }

  ghost predicate NoneAsked(inputs: seq<Input>, k: nat)
    requires k <= |inputs|
  {
    forall m :: 0 <= m < k ==> !inputs[m].op.Asks()
  }

  lemma {:induction false} LastConsumedIsLastAsked(cfg: Config, states: seq<State>, inputs: seq<Input>, k: nat)
    requires IsRun(cfg, states, inputs) && k <= |inputs|
    ensures states[k].lastConsumed.None? ==> NoneAsked(inputs, k)
    ensures states[k].lastConsumed.Some? ==>
              exists i: nat :: i < k && LastAsking(inputs, i, k)
                            && inputs[i].op.timestamp == states[k].lastConsumed.value
  {
    hide IsRun;
    RunLength(cfg, states, inputs);
    if k > 0 {
      LastConsumedIsLastAsked(cfg, states, inputs, k - 1);
      TickUpdates(cfg, states, inputs, k - 1);
      if inputs[k - 1].op.Asks() {
        assert LastAsking(inputs, k - 1, k);
      } else if states[k].lastConsumed.Some? {
        var i: nat :| i < k - 1 && LastAsking(inputs, i, k - 1)
                      && inputs[i].op.timestamp == states[k].lastConsumed.value;
        assert LastAsking(inputs, i, k);
      }
    }
  }

  /** A command reaches the state machine exactly when its read asks for something and the last
      earlier read that did so, if any, carried another timestamp. Everything else is NONE. */
  lemma CommandsAreEdges(cfg: Config, states: seq<State>, inputs: seq<Input>, k: nat)
    requires IsRun(cfg, states, inputs) && k < |inputs|
    ensures var isNew := forall i: nat :: i < k && LastAsking(inputs, i, k) ==>
                           inputs[i].op.timestamp != inputs[k].op.timestamp;
            CodeAt(states, inputs, k) ==
            if inputs[k].op.Asks() && isNew then inputs[k].op.Code().value else Op.NONE
  {
    LastConsumedIsLastAsked(cfg, states, inputs, k);
    forall i: nat, j: nat | i < k && j < k && LastAsking(inputs, i, k) && LastAsking(inputs, j, k)
      ensures i == j
    {
    }
  }

  /** Outside ESTOP a ZERO_SET record that stays in place gives one tick of zero-set frames and
      then DISABLED with disable frames, for as long as it stays. */
  lemma {:induction false} HeldZeroSetActsOnce(cfg: Config, states: seq<State>, inputs: seq<Input>, i: nat, k: nat)
    requires IsRun(cfg, states, inputs) && i <= k < |inputs|
    requires states[i].mode != Mode.ESTOP && CodeAt(states, inputs, i) == Op.ZERO_SET
    requires forall m :: i <= m <= k ==> inputs[m].op == inputs[i].op
    ensures states[k + 1].mode == if k == i then ZERO_SETTING else DISABLED
    ensures OnlyFamily(cfg, FramesAt(cfg, states, inputs, k), if k == i then CMD_MIT_SET_ZERO else CMD_MIT_EXIT)
    ensures states[k + 1].lastConsumed == Some(inputs[i].op.timestamp)
    decreases k
  {
    if i < k {
      HeldZeroSetActsOnce(cfg, states, inputs, i, k - 1);
    }
    RunLength(cfg, states, inputs);
    TickUpdates(cfg, states, inputs, k);
    FamilyAt(cfg, states, inputs, k);
    hide IsRun, FramesAt, OnlyFamily;
  }

  // ---------------------------------------------------------------------------
  // Zero-setting
  // ---------------------------------------------------------------------------

  /** Zero-set frames go out exactly after a ZERO_SET consumed outside ESTOP, and after a RUN
      consumed while still zero-setting. */
  lemma ZeroSettingExactly(cfg: Config, states: seq<State>, inputs: seq<Input>, k: nat)
    requires IsRun(cfg, states, inputs) && k < |inputs|
    ensures states[k + 1].mode == ZERO_SETTING <==>
            || (states[k].mode != Mode.ESTOP && CodeAt(states, inputs, k) == Op.ZERO_SET)
            || (states[k].mode == ZERO_SETTING && CodeAt(states, inputs, k) == Op.RUN)
  {
    hide IsRun, CodeAt;
    RunLength(cfg, states, inputs);
    TickUpdates(cfg, states, inputs, k);
  }

  /** `offset` is the last one listed for `id`. */
  ghost predicate LastOffset(targets: seq<(int, int)>, id: int, offset: int) {
    exists i :: 0 <= i < |targets| && targets[i] == (id, offset)
             && forall j :: i < j < |targets| ==> targets[j].0 != id
  }

  ghost predicate Listed(targets: seq<(int, int)>, id: int) {
    id != 0 && exists i :: 0 <= i < |targets| && targets[i].0 == id
  }

  /** The ids a zero-set is for: the listed nonzero ones, or everybody. */
  ghost predicate Zeroed(targets: seq<(int, int)>, id: int) {
    Listed(targets, id) || forall other :: !Listed(targets, other)
  }

  /** One frame for each known id that is asked for, ascending, and an acknowledgement with the
      frame's bytes reports the last offset published for that id, or zero if it was not listed. */
  ghost predicate ZeroesExactly(cfg: Config, frames: seq<CanFrame>, targets: seq<(int, int)>) {
    && (forall i, j :: 0 <= i < j < |frames| ==> frames[i].canId < frames[j].canId)
    && (forall i :: 0 <= i < |frames| ==> frames[i].canId in cfg.ids && Zeroed(targets, frames[i].canId))
    && (forall id :: id in cfg.ids && Zeroed(targets, id) ==> exists i :: 0 <= i < |frames| && frames[i].canId == id)
    && (forall i :: 0 <= i < |frames| ==>
          && AckOffset(frames[i].data).Some?
          && var offset := AckOffset(frames[i].data).value;
             if Listed(targets, frames[i].canId) then LastOffset(targets, frames[i].canId, offset) else offset == 0)
  }

  /** The parsed dictionary of a published record. */
  lemma OffsetsOfPublished(op: Op.Record, code: Controller.Code, targets: seq<(int, int)>, timestamp: nat)
    requires Op.Carries(op, code, targets, timestamp) && Op.Acceptable(targets)
    ensures ZeroOffsets(op).Ok?
    ensures var offsets := ZeroOffsets(op).value;
            && (forall id :: id in offsets <==> Listed(targets, id))
            && (forall id :: id in offsets ==> LastOffset(targets, id, offsets[id]))
  {
    var n := |targets|;
    var listed := op.zeroTargets[..n];
    assert op.zeroTargets[..0] == [];
    assert ZeroOffsets(op) == Ok(OffsetsOf(listed));
    assert forall i :: 0 <= i < n ==> listed[i] == Op.Slot(targets[i]);
    forall id: int
      ensures id in OffsetsOf(listed) <==> Listed(targets, id)
      ensures id in OffsetsOf(listed) ==> LastOffset(targets, id, OffsetsOf(listed)[id])
    {
      OffsetsAreLastListed(listed, id);
      if id in OffsetsOf(listed) {
        var i :| 0 <= i < n && listed[i].canId == id && OffsetsOf(listed)[id] == listed[i].offset
                 && forall j :: i < j < n ==> listed[j].canId != id;
        assert targets[i] == (id, OffsetsOf(listed)[id]);
      }
      if Listed(targets, id) {
        var i :| 0 <= i < n && targets[i].0 == id;
        assert listed[i].canId == id;
      }
    }
  }

  lemma ZeroJobOk(cfg: Config, offsets: map<int, i16>, id: int)
    requires cfg.Sound() && id in cfg.ids
    ensures ZeroJob(offsets, id) == Job(id, Ok(ZeroBytes(OffsetOr0(offsets, id))))
    ensures ZeroJob(offsets, id).Fine()
  {
    hide ZeroPayload, ZeroBytes, AckOffset;
    ZeroOffsetRoundTrip(OffsetOr0(offsets, id));
  }

  /** A fresh ZERO_SET outside ESTOP, or RUN while zero-setting, makes this a zero-set tick. */
  lemma ZeroTick(cfg: Config, s: State, input: Input, code: Controller.Code, targets: seq<(int, int)>)
    requires s.lastConsumed != Some(input.op.timestamp) && Op.Carries(input.op, code, targets, input.op.timestamp)
    requires (s.mode != Mode.ESTOP && code == Op.ZERO_SET) || (s.mode == ZERO_SETTING && code == Op.RUN)
    requires ZeroOffsets(input.op).Ok?
    ensures var outcome := Step(cfg, s, input);
            var offsets := ZeroOffsets(input.op).value;
            var jobs := ZeroJobs(cfg, offsets, ZeroOrder(cfg, offsets));
            && outcome.state.mode == ZERO_SETTING
            && outcome.frames == SentBy(jobs, input.bus) && outcome.error == FirstError(jobs, input.bus)
  {
    hide ZeroJobs, ZeroOrder, ZeroOffsets, SentBy, FirstError;
    assert Updated(cfg, s, input).mode == ZERO_SETTING;
  }

  /** A fresh, untorn ZERO_SET outside ESTOP zeroes exactly what was published. */
  lemma ZeroSetDelivers(cfg: Config, s: State, input: Input, targets: seq<(int, int)>)
    requires cfg.Sound() && TakesAll(input.bus) && s.mode != Mode.ESTOP && s.lastConsumed != Some(input.op.timestamp)
    requires Op.Carries(input.op, Op.ZERO_SET, targets, input.op.timestamp) && Op.Acceptable(targets)
    ensures Step(cfg, s, input).error.None?
    ensures ZeroesExactly(cfg, Step(cfg, s, input).frames, targets)
  {
    hide Step, ZeroesExactly, ZeroOffsets, ZeroJobs, SentBy, FirstError, Listed;
    OffsetsOfPublished(input.op, Op.ZERO_SET, targets, input.op.timestamp);
    ZeroTick(cfg, s, input, Op.ZERO_SET, targets);
    ZeroTickSends(cfg, ZeroOffsets(input.op).value, targets, input.bus);
  }

  /** The order holds the known ids that the zero-set is for. */
  lemma ZeroOrderFor(cfg: Config, offsets: map<int, i16>, targets: seq<(int, int)>, id: int)
    requires forall id :: id in offsets <==> Listed(targets, id)
    requires id in cfg.ids
    ensures id in ZeroOrder(cfg, offsets) <==> Zeroed(targets, id)
  {
  }

  lemma ZeroFramesAre(cfg: Config, offsets: map<int, i16>, jobs: seq<Job>, bus: Bus)
    requires cfg.Sound() && TakesAll(bus)
    requires AreZeroJobs(cfg, offsets, jobs)
    ensures FirstError(jobs, bus).None? && |SentBy(jobs, bus)| == |jobs|
    ensures forall i :: 0 <= i < |jobs| ==>
              && SentBy(jobs, bus)[i].canId == jobs[i].canId
              && AckOffset(SentBy(jobs, bus)[i].data) == Some(OffsetOr0(offsets, jobs[i].canId))
  {
    AllSent(jobs, bus);
    hide FirstError, SentBy, ZeroPayload, ZeroBytes, AckOffset, ZeroJob;
    forall i | 0 <= i < |jobs|
      ensures jobs[i].Fine()
      ensures jobs[i].Frame().canId == jobs[i].canId
      ensures AckOffset(jobs[i].Frame().data) == Some(OffsetOr0(offsets, jobs[i].canId))
    {
      ZeroJobOk(cfg, offsets, jobs[i].canId);
      ZeroOffsetRoundTrip(OffsetOr0(offsets, jobs[i].canId));
    }
  }

  lemma ZeroTickSends(cfg: Config, offsets: map<int, i16>, targets: seq<(int, int)>, bus: Bus)
    requires cfg.Sound() && TakesAll(bus)
    requires forall id :: id in offsets <==> Listed(targets, id)
    requires forall id :: id in offsets ==> LastOffset(targets, id, offsets[id])
    ensures var jobs := ZeroJobs(cfg, offsets, ZeroOrder(cfg, offsets));
            FirstError(jobs, bus).None? && ZeroesExactly(cfg, SentBy(jobs, bus), targets)
  {
    var order := ZeroOrder(cfg, offsets);
    var jobs := ZeroJobs(cfg, offsets, order);
    ZeroJobsAre(cfg, offsets, order);
    ZeroFramesAre(cfg, offsets, jobs, bus);
    forall i | 0 <= i < |jobs|
      ensures jobs[i].canId in cfg.ids && jobs[i].canId in order
    {
      assert HasJob(jobs, jobs[i].canId);
    }
    forall id | id in cfg.ids
      ensures id in order <==> Zeroed(targets, id)
    {
      ZeroOrderFor(cfg, offsets, targets, id);
    }
    FramesZero(cfg, jobs, SentBy(jobs, bus), offsets, targets);
  }

  lemma FramesZero(
    cfg: Config, jobs: seq<Job>, frames: seq<CanFrame>, offsets: map<int, i16>, targets: seq<(int, int)>)
    requires AscendingJobs(jobs) && |frames| == |jobs|
    requires forall i :: 0 <= i < |jobs| ==>
               && jobs[i].canId in cfg.ids && Zeroed(targets, jobs[i].canId)
               && frames[i].canId == jobs[i].canId
               && AckOffset(frames[i].data) == Some(OffsetOr0(offsets, jobs[i].canId))
    requires forall id :: id in cfg.ids && Zeroed(targets, id) ==> HasJob(jobs, id)
    requires forall id :: id in offsets <==> Listed(targets, id)
    requires forall id :: id in offsets ==> LastOffset(targets, id, offsets[id])
    ensures ZeroesExactly(cfg, frames, targets)
  {
  }

  /** A RUN consumed while still zero-setting does not start the policy: it sends every
      actuator a zero-set with offset zero. */
  lemma RunWhileZeroSettingZeroesAll(cfg: Config, s: State, input: Input)
    requires cfg.Sound() && TakesAll(input.bus) && s.mode == ZERO_SETTING && s.lastConsumed != Some(input.op.timestamp)
    requires Op.Carries(input.op, Op.RUN, [], input.op.timestamp)
    ensures var outcome := Step(cfg, s, input);
            && outcome.state.mode == ZERO_SETTING && outcome.error.None?
            && ZeroesExactly(cfg, outcome.frames, []) && |outcome.frames| == |cfg.ids|
  {
    hide Step, ZeroOffsets, ZeroJobs, SentBy, FirstError;
    OffsetsOfPublished(input.op, Op.RUN, [], input.op.timestamp);
    ZeroTick(cfg, s, input, Op.RUN, []);
    ZeroTickSends(cfg, ZeroOffsets(input.op).value, [], input.bus);
    EveryoneZeroed(cfg, Step(cfg, s, input).frames);
  }

  lemma EveryoneZeroed(cfg: Config, frames: seq<CanFrame>)
    requires cfg.Constructible() && ZeroesExactly(cfg, frames, [])
    ensures |frames| == |cfg.ids|
  {
    hide LastOffset, AckOffset;
    assert forall id :: id in cfg.ids ==> Zeroed([], id);
    SameIdsSameLength(cfg.ids, frames);
  }

  lemma SameIdsSameLength(ids: seq<int>, frames: seq<CanFrame>)
    requires forall i, j :: 0 <= i < j < |ids| ==> ids[i] != ids[j]
    requires forall i, j :: 0 <= i < j < |frames| ==> frames[i].canId < frames[j].canId
    requires forall i :: 0 <= i < |frames| ==> frames[i].canId in ids
    requires forall id :: id in ids ==> exists i :: 0 <= i < |frames| && frames[i].canId == id
    ensures |frames| == |ids|
  {
    var sent := seq(|frames|, i requires 0 <= i < |frames| => frames[i].canId);
    assert forall i :: 0 <= i < |sent| ==> sent[i] == frames[i].canId;
    DistinctLength(ids);
    DistinctLength(sent);
    assert forall id :: id in ids ==> id in sent by {
      forall id | id in ids
        ensures id in sent
      {
        var i :| 0 <= i < |frames| && frames[i].canId == id;
        assert sent[i] == id;
      }
    }
    assert IdSet(ids) == IdSet(sent);
  }

  lemma {:induction false} DistinctLength(ids: seq<int>)
    requires forall i, j :: 0 <= i < j < |ids| ==> ids[i] != ids[j]
    ensures |IdSet(ids)| == |ids|
  {
    if ids != [] {
      var init, last := ids[..|ids| - 1], ids[|ids| - 1];
      DistinctLength(init);
      assert IdSet(ids) == IdSet(init) + {last};
    }
  }

  // ---------------------------------------------------------------------------
  // Torn policy records
  // ---------------------------------------------------------------------------

  /** Some list of targets within the packer's ranges was published as this record. */
  ghost predicate SoundRecord(cfg: Config, r: ControlCommand.Record) {
    exists targets :: ControlCommand.Carries(r, targets) && InRangeTargets(cfg, targets)
  }

  ghost predicate InRangeTargets(cfg: Config, targets: seq<ControlCommand.Target>) {
    forall i :: 0 <= i < |targets| ==> AsTarget(targets[i]).setpoint.InRange(cfg.mit)
  }

  lemma SoundSlots(cfg: Config, r: ControlCommand.Record, i: nat)
    requires cfg.Sound() && SoundRecord(cfg, r) && i < ControlCommand.CAPACITY
    ensures r.Valid() && AsTarget(r.targets[i]).setpoint.InRange(cfg.mit)
    ensures r.targets[i].canId == 0 || i < r.numTargets
  {
  }

  /** Some published record lists this id. */
  ghost predicate PublishedId(published: set<ControlCommand.Record>, id: int) {
    exists r, i :: r in published && 0 <= i < |r.targets| && i < r.numTargets && r.targets[i].canId == id
  }

  lemma MixtureSlot(cfg: Config, cmd: ControlCommand.Record, published: set<ControlCommand.Record>, i: nat)
    requires cfg.Sound() && ControlCommand.IsMixture(cmd, published) && i < ControlCommand.CAPACITY
    requires forall r :: r in published ==> SoundRecord(cfg, r)
    ensures AsTarget(cmd.targets[i]).setpoint.InRange(cfg.mit)
    ensures cmd.targets[i].canId == 0 || PublishedId(published, cmd.targets[i].canId)
  {
    var id, q, dq, kp, kd, tau := SlotParts(cmd, published, i);
    hide ControlCommand.IsMixture, SoundRecord;
    SoundSlots(cfg, id, i);
    assert id.targets[i].canId == 0 || PublishedId(published, id.targets[i].canId);
    hide PublishedId;
    SoundSlots(cfg, q, i);
    SoundSlots(cfg, dq, i);
    SoundSlots(cfg, kp, i);
    SoundSlots(cfg, kd, i);
    SoundSlots(cfg, tau, i);
  }

  /** The six records that a slot of a mixture is made of. */
  lemma SlotParts(cmd: ControlCommand.Record, published: set<ControlCommand.Record>, i: nat)
    returns (id: ControlCommand.Record, q: ControlCommand.Record, dq: ControlCommand.Record,
             kp: ControlCommand.Record, kd: ControlCommand.Record, tau: ControlCommand.Record)
    requires ControlCommand.IsMixture(cmd, published) && i < ControlCommand.CAPACITY
    ensures id in published && q in published && dq in published
    ensures kp in published && kd in published && tau in published
    ensures id.Valid() && q.Valid() && dq.Valid() && kp.Valid() && kd.Valid() && tau.Valid() && cmd.Valid()
    ensures cmd.targets[i] == ControlCommand.Target(
              id.targets[i].canId, q.targets[i].q, dq.targets[i].dq, kp.targets[i].kp,
              kd.targets[i].kd, tau.targets[i].tau)
  {
    assert cmd.Valid();
    hide ControlCommand.IsMixture;
    id := OfferedBy(cmd, published, ControlCommand.Slot(i, ControlCommand.CanId));
    q := OfferedBy(cmd, published, ControlCommand.Slot(i, ControlCommand.Q));
    dq := OfferedBy(cmd, published, ControlCommand.Slot(i, ControlCommand.Dq));
    kp := OfferedBy(cmd, published, ControlCommand.Slot(i, ControlCommand.Kp));
    kd := OfferedBy(cmd, published, ControlCommand.Slot(i, ControlCommand.Kd));
    tau := OfferedBy(cmd, published, ControlCommand.Slot(i, ControlCommand.Tau));
  }

  lemma OfferedBy(cmd: ControlCommand.Record, published: set<ControlCommand.Record>, p: ControlCommand.Place)
    returns (r: ControlCommand.Record)
    requires ControlCommand.IsMixture(cmd, published) && ControlCommand.InRecord(p)
    ensures r in published && r.Valid() && ControlCommand.WordAt(r, p) == ControlCommand.WordAt(cmd, p)
  {
    assert ControlCommand.Offered(published, p, ControlCommand.WordAt(cmd, p));
    r :| r in published && ControlCommand.WordAt(r, p) == ControlCommand.WordAt(cmd, p);
  }

  /** If every published record is sound and the daemon takes every frame, a NORMAL tick on any
      word-wise mixture of the records raises nothing, and every frame goes to a configured id that
      was published. Only a configured id 0, which an unwritten slot holds, can be an exception. */
  lemma TornPolicyRecordsAreSafe(
    cfg: Config, s: State, input: Input, published: set<ControlCommand.Record>)
    requires cfg.Sound() && TakesAll(input.bus) && Updated(cfg, s, input).mode == NORMAL
    requires ControlCommand.IsMixture(input.cmd, published)
    requires forall r :: r in published ==> SoundRecord(cfg, r)
    ensures Step(cfg, s, input).error.None?
    ensures forall f :: f in Step(cfg, s, input).frames ==>
              f.canId in cfg.ids && (f.canId == 0 || PublishedId(published, f.canId))
    ensures 0 !in cfg.ids ==> forall f :: f in Step(cfg, s, input).frames ==> PublishedId(published, f.canId)
  {
    var targets := PolicyTargets(cfg, input.cmd);
    var jobs := MitJobs(cfg, targets);
    KnownTargetsAre(cfg, input.cmd.targets, Min(input.cmd.numTargets, |input.cmd.targets|));
    hide KnownTargets, MitPayload, Updated, SoundRecord, PublishedId;
    forall i | 0 <= i < |jobs|
      ensures jobs[i].Fine() && jobs[i].canId in cfg.ids
      ensures jobs[i].canId == 0 || PublishedId(published, jobs[i].canId)
    {
      var j :| 0 <= j < |input.cmd.targets| && AsTarget(input.cmd.targets[j]) == targets[i];
      MixtureSlot(cfg, input.cmd, published, j);
      MitPayloadMeaning(HalfAway, cfg.mit, targets[i].setpoint);
    }
    AllSent(jobs, input.bus);
  }
}
