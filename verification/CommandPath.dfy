/** The whole command path of a policy: network output, clipped and scaled targets, the record
    in shared memory, a copy of it taken while it is being overwritten, and the frames of the
    controller's tick. */
module CommandPath {
  import opened Wrappers
  import opened Rounding
  import opened RealProducts
  import opened StateMachine
  import opened SpgProtocol
  import opened Controller
  import opened ControllerRuns
  import Shm = ControlCommand
  import Policy
  import Gravity

  /** What the task controller is configured with. `ids` in the order of the joints. */
  datatype Task = Task(
    ids: seq<nat>, defaults: seq<real>, output: seq<int>, limit: real, scale: real, kp: real, kd: real)
  {
    predicate WellFormed() {
      |output| <= |ids| <= |defaults| && Policy.IntoRange(output, |ids|)
    }

    /** The most a scaled action can be. */
    function Reach(): real {
      Mul(Abs(limit), Abs(scale))
    }

    /** The targets fit the shared record and, whatever the network says, the packer's ranges. */
    ghost predicate Fits(cfg: Config) {
      && WellFormed() && |ids| <= Shm.CAPACITY
      && 0.0 <= kp <= cfg.mit.kpMax && 0.0 <= kd <= cfg.mit.kdMax
      && forall j :: 0 <= j < |ids| ==> Reach() + Abs(defaults[j]) <= cfg.mit.pMax
    }

    /** What one word of joint `j`'s slot can be if the policy asked for it. */
    ghost predicate Suits(w: Shm.Word, f: Shm.Field, j: nat)
      requires j < |ids| <= |defaults|
    {
      match f
      case CanId => w == Shm.Whole(ids[j])
      case Q => w.Float? && Abs(w.x - defaults[j]) <= Reach()
      case Dq => w == Shm.Float(0.0)
      case Kp => w == Shm.Float(kp)
      case Kd => w == Shm.Float(kd)
      case Tau => w == Shm.Float(0.0)
    }

    /** A target as the policy could have asked it of joint `j`: within reach of the joint's
        default, at rest, with the policy's gains. */
    ghost predicate Asked(t: Shm.Target, j: nat)
      requires j < |ids| <= |defaults|
    {
      && t.canId == ids[j] && t.dq == 0.0 && t.tau == 0.0 && t.kp == kp && t.kd == kd
      && Abs(t.q - defaults[j]) <= Reach()
    }
  }

  /** What the task controller writes for a flat network output. `active`: the button that lets
      the policy add its action to the default pose is held. */
  function Targets(task: Task, raw: seq<real>, active: bool): seq<Shm.Target>
    requires task.WellFormed() && |raw| == |task.ids|
  {
    var action := Policy.ActionFor(raw, task.output, task.limit, task.scale);
    seq(|task.ids|, j requires 0 <= j < |task.ids| =>
      Shm.Target(task.ids[j], (if active then action[j] else 0.0) + task.defaults[j], 0.0, task.kp, task.kd, 0.0))
  }

  lemma TargetsAreAsked(task: Task, raw: seq<real>, active: bool)
    requires task.WellFormed() && |raw| == |task.ids|
    ensures forall j :: 0 <= j < |task.ids| ==> task.Asked(Targets(task, raw, active)[j], j)
  {
    hide Policy.ActionFor;
    Policy.ActionBounds(raw, task.output, task.limit, task.scale);
    AbsMul(task.limit, task.scale);
  }

  /** A record the task controller writes, for some output of the network. */
  ghost predicate FromPolicy(task: Task, r: Shm.Record)
    requires task.WellFormed()
  {
    exists raw, active :: |raw| == |task.ids| && Shm.Carries(r, Targets(task, raw, active))
  }

  /** What a turn publishes for joint `j`: the joint at rest with the policy's gains, at its default
      unless the button is held, and then off it by what the network drives the joint with. */
  ghost predicate Drives(task: Task, network: seq<real>, active: bool, t: Shm.Target, j: nat)
    requires task.WellFormed() && j < |task.ids| && (|network| >= |task.ids| || |network| == 1)
  {
    && t.canId == task.ids[j] && t.dq == 0.0 && t.kp == task.kp && t.kd == task.kd && t.tau == 0.0
    && (!active ==> t.q == task.defaults[j])
    && (active ==>
          Policy.DrivenBy(t.q - task.defaults[j], network, |task.ids|, task.output, task.limit, task.scale, j))
  }

  lemma TargetsDrive(task: Task, network: seq<real>, active: bool)
    requires task.WellFormed() && (|network| >= |task.ids| || |network| == 1)
    ensures Policy.Flat(network, |task.ids|).Some?
    ensures forall j :: 0 <= j < |task.ids| ==>
              Drives(task, network, active, Targets(task, Policy.Flat(network, |task.ids|).value, active)[j], j)
  {
    hide Policy.DrivenBy, Policy.ActionFor;
    Policy.ActionExactly(network, |task.ids|, task.output, task.limit, task.scale);
  }

  /** One turn of the task controller: take the sample over, run the network and build the
      record. Whatever the network puts out, a record that is built is one of the policy's. */
  method TaskTurn(
    policy: Policy.OnnxPolicy, task: Task, q: seq<real>, dq: seq<real>, quat: Gravity.Quat, angVel: Gravity.Vec,
    sqrt: real -> real, network: seq<real>, active: bool, timeNs: nat)
    returns (record: Option<Shm.Record>)
    requires policy.Valid() && task.WellFormed() && policy.numJoint == |task.ids| == |q| == |dq|
    requires policy.actionClip == task.limit && policy.actionScale == task.scale && policy.outputIndices == task.output
    requires Policy.IntoRange(policy.inputIndices, policy.numJoint)
    modifies policy, policy.dofPos, policy.dofVel, policy.deltaDofPos, policy.actions, policy.scaledActions,
             policy.lastActions, policy.lastLastActions, policy.lastLastLastActions
    ensures policy.Valid()
    ensures record.Some? <==>
            && sqrt(quat.NormSq()) != 0.0 && (|network| >= |task.ids| || |network| == 1)
            && |task.ids| <= Shm.CAPACITY
    ensures record.Some? ==>
            && record.value.Valid() && record.value.timestamp == timeNs && record.value.numTargets == |task.ids|
            && (forall j :: 0 <= j < |task.ids| ==> Drives(task, network, active, record.value.targets[j], j))
            && forall j :: |task.ids| <= j < Shm.CAPACITY ==> record.value.targets[j] == Shm.EMPTY_SLOT
    ensures record.Some? ==> FromPolicy(task, record.value)
    ensures forall i :: 0 <= i < |task.ids| ==>
              var at := policy.inputIndices[i];
              var joint := if at < 0 then at + |task.ids| else at;
              policy.dofPos[i] == q[joint] && policy.dofVel[i] == dq[joint]
    ensures sqrt(quat.NormSq()) != 0.0 ==>
              policy.baseAngVel == angVel && Gravity.RotationGravity(quat, sqrt) == Ok(policy.projectedGravity)
  {
    assert Gravity.RotationGravity(quat, sqrt).Ok? <==> sqrt(quat.NormSq()) != 0.0;
    hide Gravity.RotationGravity, Policy.DrivenBy, Policy.HeldAndScaled, Drives;
    var error := policy.SetState(q, dq, quat, angVel, sqrt);
    if error.Some? {
      return None;
    }
    assert policy.Valid();
    var action := policy.ComputeAction(network);
    if action == None {
      return None;
    }
    var targets := seq(|task.ids|, j requires 0 <= j < |task.ids| =>
      Shm.Target(
        task.ids[j], (if active then action.value[j] else 0.0) + task.defaults[j], 0.0, task.kp, task.kd, 0.0));
    assert targets == Targets(task, Policy.Flat(network, |task.ids|).value, active);
    hide Targets;
    TargetsDrive(task, network, active);
    record := Shm.BuildRecord(targets, timeNs);
  }

  /** Only the policy publishes. */
  ghost predicate PolicyWrites(task: Task, acts: seq<Shm.Action>)
    requires task.WellFormed()
  {
    forall k :: 0 <= k < |acts| && acts[k].Publish? ==> FromPolicy(task, acts[k].r)
  }

  lemma PolicyRecord(task: Task, r: Shm.Record, j: nat)
    requires task.WellFormed() && FromPolicy(task, r) && j < Shm.CAPACITY
    ensures r.Valid() && r.numTargets == |task.ids| <= Shm.CAPACITY
    ensures if j < |task.ids| then task.Asked(r.targets[j], j) else r.targets[j] == Shm.EMPTY_SLOT
  {
    var raw, active :| |raw| == |task.ids| && Shm.Carries(r, Targets(task, raw, active));
    TargetsAreAsked(task, raw, active);
    hide Targets;
    assert r.targets[j] == if j < |task.ids| then Targets(task, raw, active)[j] else Shm.EMPTY_SLOT;
  }

  // ---------------------------------------------------------------------------
  // Never a range error
  // ---------------------------------------------------------------------------

  lemma PolicyRecordIsSound(cfg: Config, task: Task, r: Shm.Record)
    requires cfg.Sound() && task.Fits(cfg) && FromPolicy(task, r)
    ensures SoundRecord(cfg, r)
  {
    var raw, active :| |raw| == |task.ids| && Shm.Carries(r, Targets(task, raw, active));
    TargetsAreAsked(task, raw, active);
    hide Targets;
    assert InRangeTargets(cfg, Targets(task, raw, active));
  }

  lemma ClearedRecordIsSound(cfg: Config, r: Shm.Record)
    requires cfg.Sound() && Shm.IsCleared(r)
    ensures SoundRecord(cfg, r)
  {
    assert Shm.Carries(r, []) && InRangeTargets(cfg, []);
  }

  lemma {:induction false} PublishedAreSound(
    cfg: Config, task: Task, states: seq<Shm.State>, acts: seq<Shm.Action>, k: nat)
    requires cfg.Sound() && task.Fits(cfg) && Shm.IsRun(states, acts) && PolicyWrites(task, acts) && k < |states|
    ensures forall r :: r in states[k].published ==> SoundRecord(cfg, r)
  {
    if k == 0 {
      ClearedRecordIsSound(cfg, states[0].buffer);
    } else {
      PublishedAreSound(cfg, task, states, acts, k - 1);
      assert Shm.IsStep(states[k - 1], acts[k - 1], states[k]);
      if acts[k - 1].Publish? {
        PolicyRecordIsSound(cfg, task, acts[k - 1].r);
      }
      hide SoundRecord;
    }
  }

  /** For any network and any interleaving of the writer's and the reader's word copies, a
      NORMAL tick raises nothing, if the daemon takes its frames. */
  lemma NormalTickNeverRaises(
    cfg: Config, task: Task, states: seq<Shm.State>, acts: seq<Shm.Action>, k: nat, s: Controller.State, input: Input)
    requires cfg.Sound() && task.Fits(cfg) && Shm.IsRun(states, acts) && PolicyWrites(task, acts) && k < |states|
    requires input.cmd == states[k].copy && TakesAll(input.bus) && Updated(cfg, s, input).mode == NORMAL
    ensures Step(cfg, s, input).error.None?
  {
    PublishedAreSound(cfg, task, states, acts, k);
    Shm.CopiesAreMixtures(states, acts, k);
    TornPolicyRecordsAreSafe(cfg, s, input, states[k].published);
  }

  // ---------------------------------------------------------------------------
  // What a torn copy holds
  // ---------------------------------------------------------------------------

  function Zero(p: Shm.Place): Shm.Word {
    if !p.Slot? || p.f.CanId? then Shm.Whole(0) else Shm.Float(0.0)
  }

  /** The policy has published a record with this word at this place before step `k`. */
  ghost predicate Written(acts: seq<Shm.Action>, k: nat, p: Shm.Place, w: Shm.Word)
    requires k <= |acts| && Shm.InRecord(p)
  {
    exists i :: 0 <= i < k && acts[i].Publish? && acts[i].r.Valid() && Shm.WordAt(acts[i].r, p) == w
  }

  /** Since some publication before step `k` this word has been stored... */
  ghost predicate Landed(acts: seq<Shm.Action>, k: nat, p: Shm.Place)
    requires k <= |acts|
  {
    exists first: nat, stored: nat :: first < stored < k && acts[first].Publish? && acts[stored] == Shm.Store(p)
  }

  /** ... and fetched after that. */
  ghost predicate Arrived(acts: seq<Shm.Action>, k: nat, p: Shm.Place)
    requires k <= |acts|
  {
    exists fetched: nat :: fetched < k && Landed(acts, fetched, p) && acts[fetched] == Shm.Fetch(p)
  }

  ghost predicate SomePublished(acts: seq<Shm.Action>, k: nat)
    requires k <= |acts|
  {
    exists first: nat :: first < k && acts[first].Publish?
  }

  /** A word that is where it is because the policy wrote it, or zero because it did not get there. */
  ghost predicate Expected(acts: seq<Shm.Action>, k: nat, p: Shm.Place, w: Shm.Word, there: bool)
    requires k <= |acts| && Shm.InRecord(p)
  {
    if there then Written(acts, k, p, w) else w == Zero(p)
  }

  lemma StoredWord(r: Shm.Record, p: Shm.Place, from: Shm.Record, at: Shm.Place)
    requires r.Valid() && from.Valid() && Shm.InRecord(p) && Shm.InRecord(at)
    ensures Shm.StoreWord(r, p, from).Valid()
    ensures Shm.WordAt(Shm.StoreWord(r, p, from), at) == Shm.WordAt(if at == p then from else r, at)
  {
  }

  lemma {:induction false} SourceIsExpected(states: seq<Shm.State>, acts: seq<Shm.Action>, k: nat, p: Shm.Place)
    requires Shm.IsRun(states, acts) && k <= |acts| && Shm.InRecord(p)
    ensures states[k].source.Valid()
    ensures Expected(acts, k, p, Shm.WordAt(states[k].source, p), SomePublished(acts, k))
  {
    if k > 0 {
      SourceIsExpected(states, acts, k - 1, p);
      assert Shm.IsStep(states[k - 1], acts[k - 1], states[k]);
      if acts[k - 1].Publish? {
        assert acts[k - 1].r == states[k].source;
      }
    }
  }

  lemma {:induction false} BufferIsExpected(states: seq<Shm.State>, acts: seq<Shm.Action>, k: nat, p: Shm.Place)
    requires Shm.IsRun(states, acts) && k <= |acts| && Shm.InRecord(p)
    ensures states[k].buffer.Valid()
    ensures Expected(acts, k, p, Shm.WordAt(states[k].buffer, p), Landed(acts, k, p))
  {
    if k > 0 {
      var s, a := states[k - 1], acts[k - 1];
      BufferIsExpected(states, acts, k - 1, p);
      SourceIsExpected(states, acts, k - 1, p);
      assert Shm.IsStep(s, a, states[k]);
      if a.Store? {
        StoredWord(s.buffer, a.p, s.source, p);
      }
      LandedNext(acts, k - 1, p);
      WrittenStays(acts, k - 1, p, Shm.WordAt(states[k].buffer, p));
      hide Shm.IsRun, Shm.WordAt, Landed, SomePublished, Written;
    }
  }

  /** Every word of every copy is one the policy wrote, if it has arrived, and zero otherwise. */
  lemma {:induction false} CopyIsExpected(states: seq<Shm.State>, acts: seq<Shm.Action>, k: nat, p: Shm.Place)
    requires Shm.IsRun(states, acts) && k <= |acts| && Shm.InRecord(p)
    ensures states[k].copy.Valid()
    ensures Expected(acts, k, p, Shm.WordAt(states[k].copy, p), Arrived(acts, k, p))
  {
    if k > 0 {
      var s, a := states[k - 1], acts[k - 1];
      CopyIsExpected(states, acts, k - 1, p);
      BufferIsExpected(states, acts, k - 1, p);
      assert Shm.IsStep(s, a, states[k]);
      if a.Fetch? {
        StoredWord(s.copy, a.p, s.buffer, p);
      }
      ArrivedNext(acts, k - 1, p);
      WrittenStays(acts, k - 1, p, Shm.WordAt(states[k].copy, p));
      hide Shm.IsRun, Shm.WordAt, Landed, Arrived, Written;
    }
  }

  lemma WrittenStays(acts: seq<Shm.Action>, k: nat, p: Shm.Place, w: Shm.Word)
    requires k < |acts| && Shm.InRecord(p)
    ensures Written(acts, k, p, w) ==> Written(acts, k + 1, p, w)
  {
  }

  lemma LandedNext(acts: seq<Shm.Action>, k: nat, p: Shm.Place)
    requires k < |acts|
    ensures Landed(acts, k + 1, p) <==> Landed(acts, k, p) || (SomePublished(acts, k) && acts[k] == Shm.Store(p))
  {
    if Landed(acts, k + 1, p) && !Landed(acts, k, p) {
      var first: nat, stored: nat :| first < stored < k + 1 && acts[first].Publish? && acts[stored] == Shm.Store(p);
      assert stored == k;
    }
  }

  /** What has landed stays landed, so a fetch of a landed word counts whenever it was. */
  lemma ArrivedNext(acts: seq<Shm.Action>, k: nat, p: Shm.Place)
    requires k < |acts|
    ensures Arrived(acts, k + 1, p) <==> Arrived(acts, k, p) || (Landed(acts, k, p) && acts[k] == Shm.Fetch(p))
  {
    hide Landed;
    if Arrived(acts, k + 1, p) && !Arrived(acts, k, p) {
      var fetched: nat :| fetched < k + 1 && Landed(acts, fetched, p) && acts[fetched] == Shm.Fetch(p);
      assert fetched == k;
    }
  }

  // ---------------------------------------------------------------------------
  // Exactly when a torn copy is what the policy asked for
  // ---------------------------------------------------------------------------

  /** The word has arrived, or zero, which is there instead, suits as well. */
  ghost predicate InOrder(task: Task, acts: seq<Shm.Action>, k: nat, j: nat, f: Shm.Field)
    requires j < |task.ids| <= |task.defaults| && k <= |acts|
  {
    Arrived(acts, k, Shm.Slot(j, f)) || task.Suits(Zero(Shm.Slot(j, f)), f, j)
  }

  lemma AskedByWord(task: Task, r: Shm.Record, j: nat)
    requires r.Valid() && j < |task.ids| <= |task.defaults| && j < Shm.CAPACITY
    ensures task.Asked(r.targets[j], j) <==> forall f :: task.Suits(Shm.WordAt(r, Shm.Slot(j, f)), f, j)
  {
    if forall f :: task.Suits(Shm.WordAt(r, Shm.Slot(j, f)), f, j) {
      assert task.Suits(Shm.WordAt(r, Shm.Slot(j, Shm.CanId)), Shm.CanId, j);
      assert task.Suits(Shm.WordAt(r, Shm.Slot(j, Shm.Q)), Shm.Q, j);
      assert task.Suits(Shm.WordAt(r, Shm.Slot(j, Shm.Dq)), Shm.Dq, j);
      assert task.Suits(Shm.WordAt(r, Shm.Slot(j, Shm.Kp)), Shm.Kp, j);
      assert task.Suits(Shm.WordAt(r, Shm.Slot(j, Shm.Kd)), Shm.Kd, j);
      assert task.Suits(Shm.WordAt(r, Shm.Slot(j, Shm.Tau)), Shm.Tau, j);
    }
  }

  lemma WordInOrder(
    task: Task, states: seq<Shm.State>, acts: seq<Shm.Action>, k: nat, j: nat, f: Shm.Field)
    requires task.WellFormed() && Shm.IsRun(states, acts) && PolicyWrites(task, acts)
    requires k <= |acts| && j < |task.ids| <= Shm.CAPACITY
    ensures states[k].copy.Valid()
    ensures task.Suits(Shm.WordAt(states[k].copy, Shm.Slot(j, f)), f, j) <==> InOrder(task, acts, k, j, f)
  {
    var p := Shm.Slot(j, f);
    CopyIsExpected(states, acts, k, p);
    var w := Shm.WordAt(states[k].copy, p);
    hide Shm.IsRun, Arrived;
    if Arrived(acts, k, p) {
      var i :| 0 <= i < k && acts[i].Publish? && acts[i].r.Valid() && Shm.WordAt(acts[i].r, p) == w;
      PolicyRecord(task, acts[i].r, j);
      AskedByWord(task, acts[i].r, j);
    }
  }

  /** Slot by slot and for every run: the copy holds a target the policy could have asked of that
      joint exactly if every word of the slot has arrived, or need not have because zero suits. */
  lemma SlotAskedExactly(task: Task, states: seq<Shm.State>, acts: seq<Shm.Action>, k: nat, j: nat)
    requires task.WellFormed() && Shm.IsRun(states, acts) && PolicyWrites(task, acts)
    requires k <= |acts| && j < |task.ids| <= Shm.CAPACITY
    ensures states[k].copy.Valid()
    ensures task.Asked(states[k].copy.targets[j], j) <==> forall f :: InOrder(task, acts, k, j, f)
  {
    RunLengths(states, acts);
    hide Shm.IsRun, PolicyWrites, InOrder, Task.Suits, Task.Asked;
    WordInOrder(task, states, acts, k, j, Shm.Q);
    forall f
      ensures task.Suits(Shm.WordAt(states[k].copy, Shm.Slot(j, f)), f, j) <==> InOrder(task, acts, k, j, f)
    {
      WordInOrder(task, states, acts, k, j, f);
    }
    AskedByWord(task, states[k].copy, j);
  }

  lemma RunLengths(states: seq<Shm.State>, acts: seq<Shm.Action>)
    requires Shm.IsRun(states, acts)
    ensures |states| == |acts| + 1
  {
  }

  lemma CountExactly(task: Task, states: seq<Shm.State>, acts: seq<Shm.Action>, k: nat)
    requires task.WellFormed() && Shm.IsRun(states, acts) && PolicyWrites(task, acts) && k <= |acts|
    ensures states[k].copy.numTargets == |task.ids| <==> Arrived(acts, k, Shm.Count) || task.ids == []
    ensures states[k].copy.numTargets in {0, |task.ids|}
  {
    CopyIsExpected(states, acts, k, Shm.Count);
    hide Shm.IsRun, Arrived;
    if Arrived(acts, k, Shm.Count) {
      var i :| 0 <= i < k && acts[i].Publish? && acts[i].r.Valid()
               && Shm.WordAt(acts[i].r, Shm.Count) == Shm.WordAt(states[k].copy, Shm.Count);
      PolicyRecord(task, acts[i].r, 0);
    }
  }

  /** The copy has all targets, and each is one the policy could have asked of its joint. */
  ghost predicate Whole(task: Task, copy: Shm.Record)
    requires |task.ids| <= |task.defaults|
  {
    && copy.Valid() && copy.numTargets == |task.ids| <= Shm.CAPACITY
    && forall j :: 0 <= j < |task.ids| ==> task.Asked(copy.targets[j], j)
  }

  /** The schedule that makes it so. */
  ghost predicate AllInOrder(task: Task, acts: seq<Shm.Action>, k: nat)
    requires |task.ids| <= |task.defaults| && k <= |acts|
  {
    && (Arrived(acts, k, Shm.Count) || task.ids == [])
    && forall j, f :: 0 <= j < |task.ids| ==> InOrder(task, acts, k, j, f)
  }

  lemma WholeExactly(task: Task, states: seq<Shm.State>, acts: seq<Shm.Action>, k: nat)
    requires task.WellFormed() && |task.ids| <= Shm.CAPACITY
    requires Shm.IsRun(states, acts) && PolicyWrites(task, acts) && k <= |acts|
    ensures Whole(task, states[k].copy) <==> AllInOrder(task, acts, k)
  {
    RunLengths(states, acts);
    CountExactly(task, states, acts, k);
    CopyIsExpected(states, acts, k, Shm.Count);
    hide Shm.IsRun, PolicyWrites, InOrder, Task.Asked, Arrived, Expected;
    forall j | 0 <= j < |task.ids|
      ensures task.Asked(states[k].copy.targets[j], j) <==> forall f :: InOrder(task, acts, k, j, f)
    {
      SlotAskedExactly(task, states, acts, k, j);
    }
    if Whole(task, states[k].copy) {
      forall j, f | 0 <= j < |task.ids|
        ensures InOrder(task, acts, k, j, f)
      {
        assert task.Asked(states[k].copy.targets[j], j);
      }
    }
  }

  /** Since some publication every word has been stored and then fetched. */
  ghost predicate Primed(acts: seq<Shm.Action>, k: nat)
    requires k <= |acts|
  {
    forall p :: Shm.InRecord(p) ==> Arrived(acts, k, p)
  }

  /** From then on tearing cannot be told from a slower policy. */
  lemma PrimedCopyIsAsked(task: Task, states: seq<Shm.State>, acts: seq<Shm.Action>, k: nat)
    requires task.WellFormed() && |task.ids| <= Shm.CAPACITY
    requires Shm.IsRun(states, acts) && PolicyWrites(task, acts) && k <= |acts| && Primed(acts, k)
    ensures Whole(task, states[k].copy)
  {
    WholeExactly(task, states, acts, k);
    hide Arrived, Shm.IsRun, PolicyWrites, Whole;
    forall j, f | 0 <= j < |task.ids|
      ensures InOrder(task, acts, k, j, f)
    {
      assert Arrived(acts, k, Shm.Slot(j, f));
    }
  }

  // ---------------------------------------------------------------------------
  // End to end
  // ---------------------------------------------------------------------------

  /** A frame moves joint `j` the way the policy could have asked. */
  ghost predicate MovesJoint(cfg: Config, task: Task, f: CanFrame, j: nat)
    requires j < |task.ids| <= |task.defaults|
  {
    exists t :: task.Asked(t, j) && f.canId == t.canId && |f.data| == 8
             && Stands(cfg.mit, DecodeFields(f.data), Setpoint(t.q, t.dq, t.kp, t.kd, t.tau))
  }

  lemma FrameOfTarget(cfg: Config, task: Task, f: CanFrame, t: Shm.Target, j: nat)
    requires j < |task.ids| <= |task.defaults| && task.Asked(t, j) && f.canId == t.canId && |f.data| == 8
    requires Stands(cfg.mit, DecodeFields(f.data), AsTarget(t).setpoint)
    ensures MovesJoint(cfg, task, f, j)
  {
  }

  /** Whatever the network computes and however the copies interleave, if every word is in order
      a NORMAL tick sends exactly one frame per joint, in the order of the joints, and each moves
      its joint the way the policy could have asked. */
  lemma PolicyReachesMotors(
    cfg: Config, task: Task, states: seq<Shm.State>, acts: seq<Shm.Action>, k: nat, s: Controller.State, input: Input)
    requires cfg.Sound() && task.Fits(cfg) && Shm.IsRun(states, acts) && PolicyWrites(task, acts)
    requires k <= |acts| && AllInOrder(task, acts, k) && forall j :: 0 <= j < |task.ids| ==> task.ids[j] in cfg.ids
    requires input.cmd == states[k].copy && TakesAll(input.bus) && Updated(cfg, s, input).mode == NORMAL
    ensures var outcome := Step(cfg, s, input);
            && outcome.error.None? && |outcome.frames| == |task.ids|
            && forall j :: 0 <= j < |task.ids| ==> MovesJoint(cfg, task, outcome.frames[j], j)
  {
    var cmd := states[k].copy;
    var outcome := Step(cfg, s, input);
    NormalTickNeverRaises(cfg, task, states, acts, k, s, input);
    NormalTickSends(cfg, s, input);
    WholeExactly(task, states, acts, k);
    hide Step, Updated, Shm.IsRun, PolicyWrites, AllInOrder, MovesJoint, Stands;
    AllKnown(cfg, cmd.targets, |task.ids|);
    forall j | 0 <= j < |task.ids|
      ensures MovesJoint(cfg, task, outcome.frames[j], j)
    {
      FrameOfTarget(cfg, task, outcome.frames[j], cmd.targets[j], j);
    }
  }

  lemma {:induction false} AllKnown(cfg: Config, slots: seq<Shm.Target>, n: nat)
    requires n <= |slots| && forall i :: 0 <= i < n ==> slots[i].canId in cfg.ids
    ensures |KnownTargets(cfg, slots, n)| == n
    ensures forall i :: 0 <= i < n ==> KnownTargets(cfg, slots, n)[i] == AsTarget(slots[i])
  {
    if n > 0 {
      AllKnown(cfg, slots, n - 1);
    }
  }

  lemma NormalTickSends(cfg: Config, s: Controller.State, input: Input)
    requires Updated(cfg, s, input).mode == NORMAL && Step(cfg, s, input).error.None?
    ensures FramesMatchTargets(cfg, Step(cfg, s, input).frames, PolicyTargets(cfg, input.cmd))
  {
    MitJobsMatchTargets(cfg, PolicyTargets(cfg, input.cmd), input.bus);
  }

  // ---------------------------------------------------------------------------
  // The very first record
  // ---------------------------------------------------------------------------

  lemma ExtendRun(states: seq<Shm.State>, acts: seq<Shm.Action>, a: Shm.Action)
    returns (states': seq<Shm.State>, acts': seq<Shm.Action>)
    requires Shm.IsRun(states, acts) && Shm.Enabled(states[|acts|], a)
    ensures Shm.IsRun(states', acts') && acts' == acts + [a]
    ensures states'[|acts'|] == Shm.Apply(states[|acts|], a)
  {
    states', acts' := states + [Shm.Apply(states[|acts|], a)], acts + [a];
    forall k | 0 <= k < |acts'|
      ensures Shm.IsStep(states'[k], acts'[k], states'[k + 1])
    {
      if k < |acts| {
        assert Shm.IsStep(states[k], acts[k], states[k + 1]);
      }
    }
  }

  const SAMPLE_TASK := Task([1], [0.7], [0], 0.5, 0.5, 20.0, 0.5)

  /** What a copy holds of the first record when only its id, gain and count have arrived. */
  const TORN_TARGET := Shm.Target(1, 0.0, 0.0, 20.0, 0.0, 0.0)

  /** A copy of the very first record that has the policy's id, stiffness and count, and the
      zero position of the cleared segment. */
  lemma TornFirstCopy() returns (states: seq<Shm.State>, acts: seq<Shm.Action>)
    ensures SAMPLE_TASK.WellFormed() && Shm.IsRun(states, acts) && PolicyWrites(SAMPLE_TASK, acts)
    ensures var copy := states[|acts|].copy; copy.Valid() && copy.numTargets == 1 && copy.targets[0] == TORN_TARGET
  {
    var target := Shm.Target(1, 0.7, 0.0, 20.0, 0.5, 0.0);
    assert Targets(SAMPLE_TASK, [0.0], false) == [target];
    var cleared := Shm.Record(0, 0, seq(Shm.CAPACITY, _ => Shm.EMPTY_SLOT));
    var r := Shm.Record(1, 1, [target] + seq(Shm.CAPACITY - 1, _ => Shm.EMPTY_SLOT));
    assert Shm.Carries(r, Targets(SAMPLE_TASK, [0.0], false));
    assert FromPolicy(SAMPLE_TASK, r);
    hide FromPolicy, Targets;
    states, acts := [Shm.State(cleared, cleared, cleared, {cleared})], [];
    assert Shm.Initial(states[0]);
    states, acts := ExtendRun(states, acts, Shm.Publish(r));
    states, acts := ExtendRun(states, acts, Shm.Store(Shm.Slot(0, Shm.CanId)));
    states, acts := ExtendRun(states, acts, Shm.Store(Shm.Slot(0, Shm.Kp)));
    states, acts := ExtendRun(states, acts, Shm.Store(Shm.Count));
    states, acts := ExtendRun(states, acts, Shm.Fetch(Shm.Slot(0, Shm.CanId)));
    states, acts := ExtendRun(states, acts, Shm.Fetch(Shm.Slot(0, Shm.Kp)));
    states, acts := ExtendRun(states, acts, Shm.Fetch(Shm.Count));
  }

  /** Out of order it goes wrong: two ticks from start-up, with a sound configuration, a policy
      that fits and a willing daemon, the first NORMAL tick sends exactly one frame, with a
      position and stiffness that the policy could not have asked for. */
  lemma FirstRecordCanTear()
    returns (cfg: Config, shm: seq<Shm.State>, acts: seq<Shm.Action>, states: seq<Controller.State>, inputs: seq<Input>)
    ensures cfg.Sound() && SAMPLE_TASK.Fits(cfg) && Shm.IsRun(shm, acts) && PolicyWrites(SAMPLE_TASK, acts)
    ensures Controller.IsRun(cfg, states, inputs) && |inputs| == 2
    ensures inputs[1].cmd == shm[|acts|].copy && TakesAll(inputs[1].bus)
    ensures var outcome := Step(cfg, states[1], inputs[1]);
            && outcome.state.mode == NORMAL && |outcome.frames| == 1 && |outcome.frames[0].data| == 8
            && Stands(cfg.mit, DecodeFields(outcome.frames[0].data), Setpoint(0.0, 0.0, 20.0, 0.0, 0.0))
            && !MovesJoint(cfg, SAMPLE_TASK, outcome.frames[0], 0)
  {
    cfg := Config(SHIPPED_RANGES, 1.0, 0.0, [1]);
    SampleFits(cfg);
    hide Config.Sound, Task.Fits, Stands;
    shm, acts := TornFirstCopy();
    var copy := shm[|acts|].copy;
    var willing: Bus := _ => true;
    inputs := [Input(0.0, Op.Plain(Op.DAMPING, 1), copy, willing), Input(0.0, Op.Plain(Op.RUN, 2), copy, willing)];
    var s0 := State(DISABLED, 0.0, None, NO_OUTPUT, []);
    FirstDamping(cfg, s0, inputs[0], 1);
    var s1 := Step(cfg, s0, inputs[0]).state;
    TwoTicks(cfg, s0, inputs[0], inputs[1]);
    states := [s0, s1, Step(cfg, s1, inputs[1]).state];
    RunTick(cfg, s1, inputs[1]);
    hide Step, Controller.IsRun, Shm.IsRun, PolicyWrites;
    TornTick(cfg, s1, inputs[1]);
  }

  lemma SampleFits(cfg: Config)
    requires cfg == Config(SHIPPED_RANGES, 1.0, 0.0, [1])
    ensures cfg.Sound() && SAMPLE_TASK.Fits(cfg) && AsTarget(TORN_TARGET).setpoint.InRange(cfg.mit)
  {
    assert SAMPLE_TASK.Reach() == 0.25;
  }

  lemma RunTick(cfg: Config, s: Controller.State, input: Input)
    requires s.mode == Mode.DAMPING && s.lastConsumed == Some(1) && input.op == Op.Plain(Op.RUN, 2)
    ensures Updated(cfg, s, input).mode == NORMAL
  {
  }

  lemma TornTick(cfg: Config, s: Controller.State, input: Input)
    requires cfg == Config(SHIPPED_RANGES, 1.0, 0.0, [1]) && Updated(cfg, s, input).mode == NORMAL
    requires input.cmd.Valid() && input.cmd.numTargets == 1 && input.cmd.targets[0] == TORN_TARGET
    requires TakesAll(input.bus)
    ensures var outcome := Step(cfg, s, input);
            && outcome.state.mode == NORMAL && |outcome.frames| == 1 && |outcome.frames[0].data| == 8
            && Stands(cfg.mit, DecodeFields(outcome.frames[0].data), Setpoint(0.0, 0.0, 20.0, 0.0, 0.0))
            && !MovesJoint(cfg, SAMPLE_TASK, outcome.frames[0], 0)
  {
    SampleFits(cfg);
    assert forall i :: 0 <= i < 1 ==> input.cmd.targets[i].canId in cfg.ids;
    PolicyTickRaisesNothing(cfg, s, input);
    NormalTickSends(cfg, s, input);
    AllKnown(cfg, input.cmd.targets, 1);
    var outcome := Step(cfg, s, input);
    assert outcome.state.mode == NORMAL;
    hide Step, Updated, Stands;
    assert Stands(cfg.mit, DecodeFields(outcome.frames[0].data), Setpoint(0.0, 0.0, 20.0, 0.0, 0.0));
    FarFromDefault(cfg, outcome.frames[0]);
  }

  /** Bytes that stand for position zero stand for nothing within reach of the default. */
  lemma FarFromDefault(cfg: Config, f: CanFrame)
    requires cfg.mit == SHIPPED_RANGES && |f.data| == 8
    requires Stands(cfg.mit, DecodeFields(f.data), Setpoint(0.0, 0.0, 20.0, 0.0, 0.0))
    ensures !MovesJoint(cfg, SAMPLE_TASK, f, 0)
  {
    assert StandsFor(DecodeFields(f.data).p, 0.0, -cfg.mit.pMax, cfg.mit.pMax, MAX_16_BIT);
    hide Stands;
    forall t | SAMPLE_TASK.Asked(t, 0)
      ensures !Stands(cfg.mit, DecodeFields(f.data), Setpoint(t.q, t.dq, t.kp, t.kd, t.tau))
    {
      assert SAMPLE_TASK.Reach() == 0.25;
      StandsOnce(cfg.mit, DecodeFields(f.data), t, 0.0);
    }
  }

  lemma StandsOnce(mit: MitConfig, fields: Fields, t: Shm.Target, q: real)
    requires mit.Positive() && Abs(t.q - q) > 2.0 * mit.pMax / 65535.0
    requires StandsFor(fields.p, q, -mit.pMax, mit.pMax, MAX_16_BIT)
    ensures !Stands(mit, fields, Setpoint(t.q, t.dq, t.kp, t.kd, t.tau))
  {
    hide Dequantise;
    assert (mit.pMax - -mit.pMax) / MAX_16_BIT as real == 2.0 * mit.pMax / 65535.0;
  }
}
