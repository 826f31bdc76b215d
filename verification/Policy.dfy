/** The policy runner: the action history that feeds back into the observation, the bound on
    what leaves it, and the index maps between joints and policy slots. The network is an
    arbitrary list of reals. */
module Policy {
  import opened Wrappers
  import opened Rounding
  import opened RealProducts
  import Gravity

  // ---------------------------------------------------------------------------
  // Clipping
  // ---------------------------------------------------------------------------

  function Min(a: real, b: real): real {
    if a < b then a else b
  }

  function Max(a: real, b: real): real {
    if a < b then b else a
  }

  /** numpy's `clip(x, -limit, limit)`: the upper limit is applied last. */
  function Clip(x: real, limit: real): real {
    Min(Max(x, -limit), limit)
  }

  /** The bound holds for every limit, even a negative one, and a value within it stays. */
  lemma ClipBounds(x: real, limit: real)
    ensures Abs(Clip(x, limit)) <= Abs(limit)
    ensures Abs(x) <= limit ==> Clip(x, limit) == x
  {
  }

  function ScaledClip(x: real, limit: real, scale: real): real {
    Mul(Clip(x, limit), scale)
  }

  /** `y` is `x` held between `-limit` and `limit` and scaled; a limit below zero leaves only itself. */
  ghost predicate HeldAndScaled(y: real, x: real, limit: real, scale: real) {
    && (limit < 0.0 || x > limit ==> y == limit * scale)
    && (x < -limit <= 0.0 ==> y == -limit * scale)
    && (-limit <= x <= limit ==> y == x * scale)
  }

  lemma ScaledClipExactly(x: real, limit: real, scale: real, y: real)
    ensures HeldAndScaled(y, x, limit, scale) <==> y == ScaledClip(x, limit, scale)
  {
  }

  lemma ScaledClipBounds(x: real, limit: real, scale: real)
    ensures Abs(ScaledClip(x, limit, scale)) <= Mul(Abs(limit), Abs(scale))
  {
  }

  // ---------------------------------------------------------------------------
  // Index maps
  // ---------------------------------------------------------------------------

  /** Every entry is an index into a list of `n`; as in Python, negative ones count from the end. */
  predicate IntoRange(indices: seq<int>, n: nat) {
    forall i :: 0 <= i < |indices| ==> 0 <= indices[i] + n && indices[i] < n
  }

  function Resolve(index: int, n: nat): int {
    if index < 0 then index + n else index
  }

  /** Slot `i` takes its value from place `indices[i]`. */
  function Permuted(values: seq<real>, indices: seq<int>): seq<real>
    requires IntoRange(indices, |values|)
  {
    seq(|indices|, i requires 0 <= i < |indices| => values[Resolve(indices[i], |values|)])
  }

  /** The place entry `i` of a map stands for: of the input map the joint that slot `i` observes,
      of the output map the slot that drives joint `i`. */
  function At(indices: seq<int>, n: nat, i: nat): (place: nat)
    requires i < |indices| && IntoRange(indices, n)
    ensures place < n
  {
    Resolve(indices[i], n)
  }

  ghost predicate Maps(input: seq<int>, output: seq<int>, n: nat) {
    |input| == |output| == n && IntoRange(input, n) && IntoRange(output, n)
  }

  /** The slot that drives joint `j` is the slot that observes joint `j`. */
  ghost predicate DrivesWhatItSees(input: seq<int>, output: seq<int>, n: nat) {
    && Maps(input, output, n)
    && forall j :: 0 <= j < n ==> At(input, n, At(output, n, j)) == j
  }

  /** Observing all joints and driving them straight back is the identity exactly for such maps. */
  lemma RoundTripExactly(input: seq<int>, output: seq<int>, n: nat)
    requires Maps(input, output, n)
    ensures DrivesWhatItSees(input, output, n) <==>
            forall q: seq<real> | |q| == n :: Permuted(Permuted(q, input), output) == q
  {
    if DrivesWhatItSees(input, output, n) {
      forall q: seq<real> | |q| == n
        ensures Permuted(Permuted(q, input), output) == q
      {
        RoundTrips(input, output, q);
      }
    } else {
      var q := LosesAJoint(input, output, n);
      hide Permuted;
    }
  }

  lemma RoundTrips(input: seq<int>, output: seq<int>, q: seq<real>)
    requires DrivesWhatItSees(input, output, |q|)
    ensures Permuted(Permuted(q, input), output) == q
  {
    var n := |q|;
    forall j | 0 <= j < n
      ensures Permuted(Permuted(q, input), output)[j] == q[j]
    {
      assert At(input, n, At(output, n, j)) == j;
    }
  }

  lemma LosesAJoint(input: seq<int>, output: seq<int>, n: nat) returns (q: seq<real>)
    requires Maps(input, output, n) && !DrivesWhatItSees(input, output, n)
    ensures |q| == n && Permuted(Permuted(q, input), output) != q
  {
    var j :| 0 <= j < n && At(input, n, At(output, n, j)) != j;
    q := seq(n, i => i as real);
    assert Permuted(Permuted(q, input), output)[j] == At(input, n, At(output, n, j)) as real;
    assert q[j] == j as real;
  }

  /** Then the maps are inverse in the other order too: every slot drives the joint it observes,
      so no slot is idle and no joint is driven twice. */
  lemma NoSlotIsIdle(input: seq<int>, output: seq<int>, n: nat, slot: nat)
    requires DrivesWhatItSees(input, output, n) && slot < n
    ensures At(output, n, At(input, n, slot)) == slot
    ensures forall j :: 0 <= j < n && At(output, n, j) == slot ==> j == At(input, n, slot)
  {
    var drivers: seq<nat> := seq(n, j requires 0 <= j < n => At(output, n, j));
    forall i, j | 0 <= i < j < n
      ensures drivers[i] != drivers[j]
    {
      assert At(input, n, drivers[i]) == i && At(input, n, drivers[j]) == j;
    }
    var j := Pigeonhole(drivers, n, slot);
    assert At(input, n, drivers[j]) == j;
  }

  /** `n` distinct numbers below `n` include every number below `n`. */
  lemma {:induction false} Pigeonhole(s: seq<nat>, n: nat, x: nat) returns (j: nat)
    requires |s| == n && (forall i :: 0 <= i < n ==> s[i] < n) && x < n
    requires forall i, j :: 0 <= i < j < n ==> s[i] != s[j]
    ensures j < n && s[j] == x
    decreases n
  {
    var last := s[n - 1];
    if last == x {
      j := n - 1;
    } else {
      // Give the place of the greatest number to the last one and leave the last one out.
      var t := seq(n - 1, i requires 0 <= i < n - 1 => if s[i] == n - 1 then last else s[i]);
      var y := if x == n - 1 then last else x;
      j := Pigeonhole(t, n - 1, y);
    }
  }

  /** The maps of the shipped configuration. */
  const SHIPPED_INPUT: seq<int> := [0, 3, 6, 9, 1, 4, 7, 10, 2, 5, 8, 11]

  const SHIPPED_OUTPUT: seq<int> := [0, 4, 8, 1, 5, 9, 2, 6, 10, 3, 7, 11]

  lemma ShippedMapsAreInverse()
    ensures DrivesWhatItSees(SHIPPED_INPUT, SHIPPED_OUTPUT, 12)
  {
    assert forall i :: 0 <= i < 12 ==> 0 <= SHIPPED_INPUT[i] < 12 && 0 <= SHIPPED_OUTPUT[i] < 12;
    assert forall j :: 0 <= j < 12 ==> SHIPPED_INPUT[SHIPPED_OUTPUT[j]] == j;
  }

  // ---------------------------------------------------------------------------
  // What one call computes
  // ---------------------------------------------------------------------------

  function ClippedAll(raw: seq<real>, limit: real): seq<real> {
    seq(|raw|, i requires 0 <= i < |raw| => Clip(raw[i], limit))
  }

  lemma ClippedExactly(raw: seq<real>, limit: real)
    ensures forall i :: 0 <= i < |raw| ==> HeldAndScaled(ClippedAll(raw, limit)[i], raw[i], limit, 1.0)
  {
  }

  /** What numpy makes of the network's output: the first `n` numbers, or a single one for all;
      anything else does not fit. */
  function Flat(network: seq<real>, n: nat): Option<seq<real>> {
    if |network| >= n then Some(network[..n])
    else if |network| == 1 then Some(seq(n, _ => network[0]))
    else None
  }

  /** The joints' actions for a flat output; joints beyond the output map get none. */
  function ActionFor(raw: seq<real>, output: seq<int>, limit: real, scale: real): (action: seq<real>)
    requires IntoRange(output, |raw|)
    ensures |action| == |raw|
  {
    seq(|raw|, j requires 0 <= j < |raw| =>
      if j < |output| then ScaledClip(raw[At(output, |raw|, j)], limit, scale) else 0.0)
  }

  lemma ActionBounds(raw: seq<real>, output: seq<int>, limit: real, scale: real)
    requires IntoRange(output, |raw|)
    ensures forall j :: 0 <= j < |raw| ==> Abs(ActionFor(raw, output, limit, scale)[j]) <= Mul(Abs(limit), Abs(scale))
  {
    hide ScaledClip;
    AbsMul(limit, scale);
    forall x: real
      ensures Abs(ScaledClip(x, limit, scale)) <= Mul(Abs(limit), Abs(scale))
    {
      ScaledClipBounds(x, limit, scale);
    }
  }

  /** Joint `j` is driven by its entry of the output map, counted from the end if negative: by the
      network's number there, or by the one number there is. A joint without an entry stays. */
  ghost predicate DrivenBy(y: real, network: seq<real>, n: nat, output: seq<int>, limit: real, scale: real, j: nat)
    requires IntoRange(output, n) && j < n && (|network| >= n || |network| == 1)
  {
    if j >= |output| then y == 0.0
    else HeldAndScaled(
      y, if |network| < n then network[0] else if output[j] < 0 then network[output[j] + n] else network[output[j]],
      limit, scale)
  }

  /** An output is usable exactly if it has enough numbers or a single one, and then drives every
      joint through the output map, the clip and the scale. */
  lemma ActionExactly(network: seq<real>, n: nat, output: seq<int>, limit: real, scale: real)
    requires IntoRange(output, n)
    ensures Flat(network, n).Some? <==> |network| >= n || |network| == 1
    ensures Flat(network, n).Some? ==>
              var action := ActionFor(Flat(network, n).value, output, limit, scale);
              forall j :: 0 <= j < n ==> DrivenBy(action[j], network, n, output, limit, scale, j)
  {
    hide HeldAndScaled, ScaledClip;
    forall x, y
      ensures HeldAndScaled(y, x, limit, scale) <==> y == ScaledClip(x, limit, scale)
    {
      ScaledClipExactly(x, limit, scale, y);
    }
  }

  /** Output `k` calls ago, or zeros before the first call. */
  function Ago(history: seq<seq<real>>, k: nat, n: nat): seq<real> {
    if k < |history| then history[|history| - 1 - k] else seq(n, _ => 0.0)
  }

  /** A network that treats every slot alike, whatever it computes, makes every joint's target
      a function of that joint's own deviation. */
  lemma JointsKeepToThemselves(
    input: seq<int>, output: seq<int>, q: seq<real>, defaults: seq<real>, f: real -> real, limit: real, scale: real)
    requires |q| == |defaults| && DrivesWhatItSees(input, output, |q|)
    ensures var observed, offsets := Permuted(q, input), Permuted(defaults, input);
            var raw := seq(|q|, i requires 0 <= i < |q| => f(observed[i] - offsets[i]));
            forall j :: 0 <= j < |q| ==>
              ActionFor(raw, output, limit, scale)[j] == ScaledClip(f(q[j] - defaults[j]), limit, scale)
  {
    hide ScaledClip;
    RoundTrips(input, output, q);
    RoundTrips(input, output, defaults);
    var observed, offsets := Permuted(q, input), Permuted(defaults, input);
    forall j | 0 <= j < |q|
      ensures observed[At(output, |q|, j)] == q[j] && offsets[At(output, |q|, j)] == defaults[j]
    {
      assert Permuted(observed, output)[j] == q[j] && Permuted(offsets, output)[j] == defaults[j];
    }
  }

  // ---------------------------------------------------------------------------
  // The object
  // ---------------------------------------------------------------------------

  class OnnxPolicy {
    const numJoint: nat
    const actionScale: real
    const actionClip: real
    const rawObservation: bool
    const inputIndices: seq<int>
    const outputIndices: seq<int>
    /** The configured defaults in slot order. */
    const defaultJointAngle: seq<real>
    const dofPos: array<real>
    const dofVel: array<real>
    const deltaDofPos: array<real>
    var projectedGravity: Gravity.Vec
    var baseAngVel: Gravity.Vec
    const actions: array<real>
    const scaledActions: array<real>
    const lastActions: array<real>
    const lastLastActions: array<real>
    const lastLastLastActions: array<real>
    /** The clipped network outputs, oldest first. */
    ghost var history: seq<seq<real>>

    ghost predicate Shapes() {
      && |inputIndices| == |defaultJointAngle| == numJoint
      && |outputIndices| <= numJoint && IntoRange(outputIndices, numJoint)
      && dofPos.Length == dofVel.Length == deltaDofPos.Length == actions.Length == scaledActions.Length == numJoint
      && lastActions.Length == lastLastActions.Length == lastLastLastActions.Length == numJoint
      && dofPos != deltaDofPos && dofVel !in {dofPos, deltaDofPos}
      && {dofPos, dofVel, deltaDofPos} !! {actions, scaledActions, lastActions, lastLastActions, lastLastLastActions}
      && actions !in {scaledActions, lastActions, lastLastActions, lastLastLastActions}
      && scaledActions !in {lastActions, lastLastActions, lastLastLastActions}
      && lastActions !in {lastLastActions, lastLastLastActions} && lastLastActions != lastLastLastActions
    }

    ghost predicate Valid()
      reads this, actions, scaledActions, lastActions, lastLastActions, lastLastLastActions
    {
      && Shapes()
      && (forall k :: 0 <= k < |history| ==> |history[k]| == numJoint)
      && actions[..] == lastActions[..] == Ago(history, 0, numJoint)
      && lastLastActions[..] == Ago(history, 1, numJoint)
      && lastLastLastActions[..] == Ago(history, 2, numJoint)
      && forall j :: |outputIndices| <= j < numJoint ==> scaledActions[j] == 0.0
    }

    /** Shapes and indices that do not fit make numpy or the index maps raise. */
    constructor (numJoint: nat, scale: real, clip: real, rawObservation: bool,
                 input: seq<int>, output: seq<int>, defaults: seq<real>)
      requires |input| == numJoint && IntoRange(input, |defaults|)
      requires |output| <= numJoint && IntoRange(output, numJoint)
      ensures Valid() && history == []
      ensures this.numJoint == numJoint && actionScale == scale && actionClip == clip
      ensures this.rawObservation == rawObservation && inputIndices == input && outputIndices == output
      ensures forall i :: 0 <= i < numJoint ==>
                var k, n := input[i], |defaults|;
                defaultJointAngle[i] == if k < 0 then defaults[k + n] else defaults[k]
      ensures fresh(dofPos) && fresh(dofVel) && fresh(deltaDofPos) && fresh(actions) && fresh(scaledActions)
      ensures fresh(lastActions) && fresh(lastLastActions) && fresh(lastLastLastActions)
    {
      this.numJoint := numJoint;
      actionScale := scale;
      actionClip := clip;
      this.rawObservation := rawObservation;
      inputIndices := input;
      outputIndices := output;
      defaultJointAngle := Permuted(defaults, input);
      dofPos := new real[numJoint](_ => 0.0);
      dofVel := new real[numJoint](_ => 0.0);
      deltaDofPos := new real[numJoint](_ => 0.0);
      projectedGravity := Gravity.Vec(0.0, 0.0, -1.0);
      baseAngVel := Gravity.Vec(0.0, 0.0, 0.0);
      actions := new real[numJoint](_ => 0.0);
      scaledActions := new real[numJoint](_ => 0.0);
      lastActions := new real[numJoint](_ => 0.0);
      lastLastActions := new real[numJoint](_ => 0.0);
      lastLastLastActions := new real[numJoint](_ => 0.0);
      history := [];
    }

    /** One sample of joints and attitude, the joints in slot order. A zero quaternion raises
        after the joints have been taken over. */
    method SetState(q: seq<real>, dq: seq<real>, quat: Gravity.Quat, angVel: Gravity.Vec, sqrt: real -> real)
      returns (error: Option<Gravity.Error>)
      requires Shapes() && IntoRange(inputIndices, |q|) && IntoRange(inputIndices, |dq|)
      modifies dofPos, dofVel, deltaDofPos, this`projectedGravity, this`baseAngVel
      ensures forall i :: 0 <= i < numJoint ==>
                var k, n, m := inputIndices[i], |q|, |dq|;
                && dofPos[i] == (if k < 0 then q[k + n] else q[k]) && dofVel[i] == if k < 0 then dq[k + m] else dq[k]
      ensures forall i :: 0 <= i < numJoint ==>
                deltaDofPos[i] == dofPos[i] - if rawObservation then 0.0 else defaultJointAngle[i]
      ensures match Gravity.RotationGravity(quat, sqrt)
              case Ok(g) => error == None && projectedGravity == g && baseAngVel == angVel
              case Err(e) =>
                error == Some(e) && projectedGravity == old(projectedGravity) && baseAngVel == old(baseAngVel)
    {
      Copy(dofPos, Permuted(q, inputIndices));
      Copy(dofVel, Permuted(dq, inputIndices));
      for i := 0 to numJoint
        invariant projectedGravity == old(projectedGravity) && baseAngVel == old(baseAngVel)
        invariant dofPos[..] == Permuted(q, inputIndices) && dofVel[..] == Permuted(dq, inputIndices)
        invariant forall k :: 0 <= k < i ==>
                    deltaDofPos[k] == dofPos[k] - if rawObservation then 0.0 else defaultJointAngle[k]
      {
        deltaDofPos[i] := if rawObservation then dofPos[i] else dofPos[i] - defaultJointAngle[i];
      }
      var gravity := Gravity.RotationGravity(quat, sqrt);
      if gravity.Err? {
        return Some(gravity.error);
      }
      projectedGravity := gravity.value;
      baseAngVel := angVel;
      return None;
    }

    /** One inference: clip, scale, permute, and shift the history by one. An output that does not
        fit raises before anything changes. */
    method ComputeAction(network: seq<real>) returns (targets: Option<seq<real>>)
      requires Valid()
      modifies this`history, actions, scaledActions, lastActions, lastLastActions, lastLastLastActions
      ensures Valid()
      ensures targets == None ==> history == old(history) && scaledActions[..] == old(scaledActions[..])
      ensures targets.Some? <==> |network| >= numJoint || |network| == 1
      ensures targets.Some? ==>
                && |targets.value| == numJoint && scaledActions[..] == targets.value
                && forall j :: 0 <= j < numJoint ==>
                     DrivenBy(targets.value[j], network, numJoint, outputIndices, actionClip, actionScale, j)
      ensures targets.Some? ==>
                && lastActions[..] == actions[..] && lastLastActions[..] == old(lastActions[..])
                && lastLastLastActions[..] == old(lastLastActions[..])
                && forall i :: 0 <= i < numJoint ==>
                     var x := if |network| < numJoint then network[0] else network[i];
                     HeldAndScaled(lastActions[i], x, actionClip, 1.0)
      ensures targets.Some? ==>
                && history == old(history) + [ClippedAll(Flat(network, numJoint).value, actionClip)]
                && targets.value == ActionFor(Flat(network, numJoint).value, outputIndices, actionClip, actionScale)
    {
      var flat := Flat(network, numJoint);
      if flat == None {
        return None;
      }
      ActionExactly(network, numJoint, outputIndices, actionClip, actionScale);
      ClippedExactly(flat.value, actionClip);
      hide HeldAndScaled, ActionFor, DrivenBy;
      Act(flat.value);
      ShiftHistory();
      history := history + [ClippedAll(flat.value, actionClip)];
      hide ClippedAll, Ago;
      NewestFirst(old(history), ClippedAll(flat.value, actionClip), numJoint);
      return Some(scaledActions[..]);
    }

    /** Clip, scale and permute. */
    method Act(raw: seq<real>)
      requires Shapes() && |raw| == numJoint
      requires forall j :: |outputIndices| <= j < numJoint ==> scaledActions[j] == 0.0
      modifies actions, scaledActions
      ensures actions[..] == ClippedAll(raw, actionClip)
      ensures scaledActions[..] == ActionFor(raw, outputIndices, actionClip, actionScale)
    {
      hide Mul, Clip;
      Copy(actions, ClippedAll(raw, actionClip));
      var clipped := actions[..];
      var scaled := seq(numJoint, i requires 0 <= i < numJoint => Mul(clipped[i], actionScale));
      assert forall i :: 0 <= i < numJoint ==> scaled[i] == ScaledClip(raw[i], actionClip, actionScale);
      for outIndex := 0 to |outputIndices|
        invariant forall j :: 0 <= j < outIndex ==> scaledActions[j] == scaled[At(outputIndices, numJoint, j)]
        invariant actions[..] == clipped
        invariant forall j :: |outputIndices| <= j < numJoint ==> scaledActions[j] == 0.0
      {
        scaledActions[outIndex] := scaled[At(outputIndices, numJoint, outIndex)];
      }
    }

    method ShiftHistory()
      requires Shapes()
      modifies lastActions, lastLastActions, lastLastLastActions
      ensures lastLastLastActions[..] == old(lastLastActions[..])
      ensures lastLastActions[..] == old(lastActions[..])
      ensures lastActions[..] == actions[..]
    {
      Copy(lastLastLastActions, lastLastActions[..]);
      Copy(lastLastActions, lastActions[..]);
      Copy(lastActions, actions[..]);
    }
  }

  lemma NewestFirst(history: seq<seq<real>>, newest: seq<real>, n: nat)
    ensures Ago(history + [newest], 0, n) == newest
    ensures forall k: nat :: Ago(history + [newest], k + 1, n) == Ago(history, k, n)
  {
  }

  method Copy(dst: array<real>, src: seq<real>)
    requires dst.Length == |src|
    modifies dst
    ensures dst[..] == src
  {
    for i := 0 to |src|
      invariant dst[..i] == src[..i]
    {
      dst[i] := src[i];
    }
  }
}
