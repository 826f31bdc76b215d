/** The operator's record on its way to the controller, word by word. Like the policy's record it
    is copied without a counter, and the timestamp that tells a new command from a held one can
    arrive before or after the command itself. */
module OperatorPath {
  import opened Wrappers
  import opened Controller
  import Op = OperatorCommand

  datatype Place = Stamp | Command | Mask | Count | Magic | Id(i: nat) | Offset(i: nat)

  predicate InRecord(p: Place) {
    p.Id? || p.Offset? ==> p.i < Op.CAPACITY
  }

  function StoreWord(r: Op.Record, p: Place, from: Op.Record): Op.Record
    requires r.Valid() && from.Valid() && InRecord(p)
  {
    match p
    case Stamp => r.(timestamp := from.timestamp)
    case Command => r.(command := from.command)
    case Mask => r.(targetMask := from.targetMask)
    case Count => r.(zeroCount := from.zeroCount)
    case Magic => r.(zeroMagic := from.zeroMagic)
    case Id(i) => r.(zeroTargets := r.zeroTargets[i := r.zeroTargets[i].(canId := from.zeroTargets[i].canId)])
    case Offset(i) => r.(zeroTargets := r.zeroTargets[i := r.zeroTargets[i].(offset := from.zeroTargets[i].offset)])
  }

  function WordAt(r: Op.Record, p: Place): int
    requires r.Valid() && InRecord(p)
  {
    match p
    case Stamp => r.timestamp
    case Command => r.command
    case Mask => r.targetMask
    case Count => r.zeroCount
    case Magic => r.zeroMagic
    case Id(i) => r.zeroTargets[i].canId
    case Offset(i) => r.zeroTargets[i].offset
  }

  lemma StoredWord(r: Op.Record, p: Place, from: Op.Record, at: Place)
    requires r.Valid() && from.Valid() && InRecord(p) && InRecord(at)
    ensures StoreWord(r, p, from).Valid()
    ensures WordAt(StoreWord(r, p, from), at) == WordAt(if at == p then from else r, at)
  {
  }

  /** The segment, the record being stored, the copy being taken, and what the controller keeps.
      Either side may move any word at any time; `Consume` is a tick that looks at the copy. */
  datatype State = State(buffer: Op.Record, source: Op.Record, copy: Op.Record, lastConsumed: Option<nat>)

  datatype Action = Publish(r: Op.Record) | Store(p: Place) | Fetch(p: Place) | Consume

  ghost predicate Initial(s: State) {
    s.buffer == s.source == s.copy == Op.Plain(Op.NONE, 0) && s.lastConsumed == None
  }

  predicate Enabled(s: State, a: Action) {
    && s.buffer.Valid() && s.source.Valid() && s.copy.Valid()
    && match a
       case Publish(r) => r.Valid()
       case Store(p) => InRecord(p)
       case Fetch(p) => InRecord(p)
       case Consume => true
  }

  function Apply(s: State, a: Action): State
    requires Enabled(s, a)
  {
    match a
    case Publish(r) => s.(source := r)
    case Store(p) => s.(buffer := StoreWord(s.buffer, p, s.source))
    case Fetch(p) => s.(copy := StoreWord(s.copy, p, s.buffer))
    case Consume =>
      var code := Delivered(s.lastConsumed, s.copy);
      s.(lastConsumed := if code == Op.NONE then s.lastConsumed else Some(s.copy.timestamp))
  }

  ghost predicate IsStep(s: State, a: Action, s': State) {
    Enabled(s, a) && s' == Apply(s, a)
  }

  ghost predicate IsRun(states: seq<State>, acts: seq<Action>) {
    && |states| == |acts| + 1 && Initial(states[0])
    && forall k :: 0 <= k < |acts| ==> IsStep(states[k], acts[k], states[k + 1])
  }

  // ---------------------------------------------------------------------------
  // What a tick sees of one publication
  // ---------------------------------------------------------------------------

  /** Since step `pub` this word has been stored... */
  ghost predicate Stored(acts: seq<Action>, pub: nat, k: nat, p: Place)
    requires k <= |acts|
  {
    exists stored: nat :: pub < stored < k && acts[stored] == Store(p)
  }

  /** ... and fetched after that. */
  ghost predicate Seen(acts: seq<Action>, pub: nat, k: nat, p: Place)
    requires k <= |acts|
  {
    exists fetched: nat :: fetched < k && Stored(acts, pub, fetched, p) && acts[fetched] == Fetch(p)
  }

  /** Publication `pub` is the only one up to step `n`. */
  ghost predicate Lone(states: seq<State>, acts: seq<Action>, pub: nat, n: nat) {
    && IsRun(states, acts) && pub < n <= |acts| && acts[pub].Publish?
    && forall k :: pub < k < n ==> !acts[k].Publish?
  }

  /** Segment and copy hold this word of `before` when `pub` comes. */
  ghost predicate Held(states: seq<State>, pub: nat, before: Op.Record, p: Place)
    requires pub < |states| && InRecord(p)
  {
    && before.Valid() && states[pub].buffer.Valid() && states[pub].copy.Valid()
    && WordAt(states[pub].buffer, p) == WordAt(states[pub].copy, p) == WordAt(before, p)
  }

  /** It replaces `before`, of which segment and copy hold timestamp and command. */
  ghost predicate Replaces(states: seq<State>, acts: seq<Action>, pub: nat, n: nat, before: Op.Record) {
    Lone(states, acts, pub, n) && Held(states, pub, before, Stamp) && Held(states, pub, before, Command)
  }

  lemma SeenNext(acts: seq<Action>, pub: nat, k: nat, p: Place)
    requires k < |acts|
    ensures Stored(acts, pub, k + 1, p) <==> Stored(acts, pub, k, p) || (pub < k && acts[k] == Store(p))
    ensures Seen(acts, pub, k + 1, p) <==> Seen(acts, pub, k, p) || (Stored(acts, pub, k, p) && acts[k] == Fetch(p))
  {
    if Stored(acts, pub, k + 1, p) && !Stored(acts, pub, k, p) {
      var stored: nat :| pub < stored < k + 1 && acts[stored] == Store(p);
      assert stored == k;
    }
    if Seen(acts, pub, k + 1, p) && !Seen(acts, pub, k, p) {
      var fetched: nat :| fetched < k + 1 && Stored(acts, pub, fetched, p) && acts[fetched] == Fetch(p);
      assert fetched == k;
    }
  }

  lemma {:induction false} SourceHolds(states: seq<State>, acts: seq<Action>, pub: nat, n: nat, k: nat)
    requires Lone(states, acts, pub, n) && pub < k <= n
    ensures states[k].source == acts[pub].r && states[k].source.Valid()
    ensures states[k].buffer.Valid() && states[k].copy.Valid()
    decreases k
  {
    assert IsStep(states[k - 1], acts[k - 1], states[k]);
    if k > pub + 1 {
      SourceHolds(states, acts, pub, n, k - 1);
    }
  }

  /** Word by word, the schedule alone decides what segment and copy show: the published word if
      it was let through, and the word held before otherwise. */
  lemma {:induction false} CopyShows(
    states: seq<State>, acts: seq<Action>, pub: nat, n: nat, before: Op.Record, p: Place, k: nat)
    requires Lone(states, acts, pub, n) && InRecord(p) && Held(states, pub, before, p) && pub < k <= n
    ensures acts[pub].r.Valid() && states[k].buffer.Valid() && states[k].copy.Valid()
    ensures WordAt(states[k].buffer, p) == WordAt(if Stored(acts, pub, k, p) then acts[pub].r else before, p)
    ensures WordAt(states[k].copy, p) == WordAt(if Seen(acts, pub, k, p) then acts[pub].r else before, p)
    decreases k
  {
    var s, a := states[k - 1], acts[k - 1];
    assert IsStep(s, a, states[k]);
    SourceHolds(states, acts, pub, n, k);
    StepMoves(s, a, p);
    if k == pub + 1 {
      NothingYet(acts, pub, p);
    } else {
      CopyShows(states, acts, pub, n, before, p, k - 1);
      SourceHolds(states, acts, pub, n, k - 1);
      assert !a.Publish?;
      SeenNext(acts, pub, k - 1, p);
    }
    hide IsRun, Apply, Enabled, Lone, Stored, Seen, WordAt;
  }

  lemma NothingYet(acts: seq<Action>, pub: nat, p: Place)
    requires pub < |acts|
    ensures !Stored(acts, pub, pub + 1, p) && !Seen(acts, pub, pub + 1, p)
  {
  }

  /** A step moves at most the word it names. */
  lemma StepMoves(s: State, a: Action, p: Place)
    requires Enabled(s, a) && InRecord(p)
    ensures Apply(s, a).buffer.Valid() && Apply(s, a).copy.Valid()
    ensures WordAt(Apply(s, a).buffer, p) == WordAt(if a == Store(p) then s.source else s.buffer, p)
    ensures WordAt(Apply(s, a).copy, p) == WordAt(if a == Fetch(p) then s.buffer else s.copy, p)
  {
    if a.Store? {
      StoredWord(s.buffer, a.p, s.source, p);
    } else if a.Fetch? {
      StoredWord(s.copy, a.p, s.buffer, p);
    }
    hide StoreWord, WordAt;
  }

  /** `r` shows timestamp and command of `after` where they have been let through. */
  predicate Shows(r: Op.Record, before: Op.Record, after: Op.Record, stamp: bool, command: bool) {
    && r.timestamp == (if stamp then after.timestamp else before.timestamp)
    && r.command == if command then after.command else before.command
  }

  lemma CommandShows(states: seq<State>, acts: seq<Action>, pub: nat, n: nat, before: Op.Record, k: nat)
    requires Replaces(states, acts, pub, n, before) && pub < k <= n
    ensures Shows(states[k].copy, before, acts[pub].r, Seen(acts, pub, k, Stamp), Seen(acts, pub, k, Command))
  {
    CopyShows(states, acts, pub, n, before, Stamp, k);
    CopyShows(states, acts, pub, n, before, Command, k);
    hide Lone, Held, Seen, Stored;
  }

  // ---------------------------------------------------------------------------
  // How often a published command is delivered
  // ---------------------------------------------------------------------------

  /** How many ticks between steps `pub` and `k` hand this code to the state machine. */
  function Deliveries(states: seq<State>, acts: seq<Action>, pub: nat, k: nat, code: Controller.Code): nat
    requires k <= |acts| < |states|
  {
    if k <= pub then 0
    else
      Deliveries(states, acts, pub, k - 1, code)
      + if acts[k - 1].Consume? && Delivered(states[k - 1].lastConsumed, states[k - 1].copy) == code then 1 else 0
  }

  /** Some tick sees the new timestamp and not the new command, or the other way round, or both. */
  ghost predicate TickSees(acts: seq<Action>, pub: nat, k: nat, stamp: bool, command: bool)
    requires k <= |acts|
  {
    exists m: nat :: pub < m < k && TickAt(acts, pub, m, stamp, command)
  }

  ghost predicate TickAt(acts: seq<Action>, pub: nat, m: nat, stamp: bool, command: bool)
    requires m < |acts|
  {
    acts[m].Consume? && Seen(acts, pub, m, Stamp) == stamp && Seen(acts, pub, m, Command) == command
  }

  lemma TickSeesNext(acts: seq<Action>, pub: nat, k: nat, stamp: bool, command: bool)
    requires k < |acts|
    ensures TickSees(acts, pub, k + 1, stamp, command)
       <==> TickSees(acts, pub, k, stamp, command) || (pub < k && TickAt(acts, pub, k, stamp, command))
  {
    hide TickAt;
    if TickSees(acts, pub, k + 1, stamp, command) && !TickSees(acts, pub, k, stamp, command) {
      var m: nat :| pub < m < k + 1 && TickAt(acts, pub, m, stamp, command);
      assert m == k;
    }
  }

  lemma SeenStays(acts: seq<Action>, pub: nat, m: nat, k: nat, p: Place)
    requires m <= k <= |acts| && Seen(acts, pub, m, p)
    ensures Seen(acts, pub, k, p)
  {
  }

  /** What earlier ticks have seen, this one sees. */
  lemma SightingsGrow(acts: seq<Action>, pub: nat, k: nat, stamp: bool, command: bool)
    requires k <= |acts| && TickSees(acts, pub, k, stamp, command)
    ensures stamp ==> Seen(acts, pub, k, Stamp)
    ensures command ==> Seen(acts, pub, k, Command)
  {
    var m: nat :| pub < m < k && TickAt(acts, pub, m, stamp, command);
    if stamp {
      SeenStays(acts, pub, m, k, Stamp);
    }
    if command {
      SeenStays(acts, pub, m, k, Command);
    }
  }

  /** A fresh command of another kind, published over one that has been dealt with. */
  ghost predicate Fresh(last: Option<nat>, before: Op.Record, after: Op.Record) {
    && after.Asks() && after.command != before.command && after.timestamp != before.timestamp
    && last != Some(after.timestamp) && (before.Asks() ==> last == Some(before.timestamp))
  }

  /** The bookkeeping after the ticks so far. `early`: a tick saw only the timestamp; `late`: one
      saw only the command; `whole`: one saw both. */
  function Remembered(
    last: Option<nat>, before: Op.Record, after: Op.Record, early: bool, late: bool, whole: bool): Option<nat>
  {
    if whole || (early && before.Asks()) then Some(after.timestamp)
    else if late then Some(before.timestamp)
    else last
  }

  function Times(last: Option<nat>, before: Op.Record, early: bool, late: bool, whole: bool): nat {
    (if late && last != Some(before.timestamp) then 1 else 0)
    + if whole && !(early && before.Asks()) then 1 else 0
  }

  lemma {:induction false} DeliveriesSoFar(
    states: seq<State>, acts: seq<Action>, pub: nat, n: nat, before: Op.Record, k: nat)
    requires Replaces(states, acts, pub, n, before) && pub < k <= n
    requires Fresh(states[pub].lastConsumed, before, acts[pub].r)
    ensures var early, late := TickSees(acts, pub, k, true, false), TickSees(acts, pub, k, false, true);
            var whole, last := TickSees(acts, pub, k, true, true), states[pub].lastConsumed;
            && states[k].lastConsumed == Remembered(last, before, acts[pub].r, early, late, whole)
            && Deliveries(states, acts, pub, k, acts[pub].r.Code().value) == Times(last, before, early, late, whole)
    decreases k
  {
    var m := k - 1;
    assert IsStep(states[m], acts[m], states[k]);
    if m == pub {
      assert Deliveries(states, acts, pub, m, acts[pub].r.Code().value) == 0;
    } else {
      DeliveriesSoFar(states, acts, pub, n, before, m);
      CommandShows(states, acts, pub, n, before, m);
      ExclusiveSightings(acts, pub, m);
      TickSeesNext(acts, pub, m, true, false);
      TickSeesNext(acts, pub, m, false, true);
      TickSeesNext(acts, pub, m, true, true);
      OneTick(states[m], acts[m], states[pub].lastConsumed, before, acts[pub].r,
              TickSees(acts, pub, m, true, false), TickSees(acts, pub, m, false, true),
              TickSees(acts, pub, m, true, true),
              Seen(acts, pub, m, Stamp), Seen(acts, pub, m, Command));
      hide IsRun, Lone, Replaces, Seen, TickSees, Remembered, Times, Delivered, Shows;
    }
  }

  /** The three sightings so far bound what the next tick can see. */
  lemma ExclusiveSightings(acts: seq<Action>, pub: nat, k: nat)
    requires k <= |acts|
    ensures TickSees(acts, pub, k, true, false) ==> Seen(acts, pub, k, Stamp)
    ensures TickSees(acts, pub, k, false, true) ==> Seen(acts, pub, k, Command)
    ensures TickSees(acts, pub, k, true, true) ==> Seen(acts, pub, k, Stamp) && Seen(acts, pub, k, Command)
  {
    hide TickSees, Seen;
    if TickSees(acts, pub, k, true, false) {
      SightingsGrow(acts, pub, k, true, false);
    }
    if TickSees(acts, pub, k, false, true) {
      SightingsGrow(acts, pub, k, false, true);
    }
    if TickSees(acts, pub, k, true, true) {
      SightingsGrow(acts, pub, k, true, true);
    }
  }

  /** One action, given what the ticks before it have seen. */
  lemma OneTick(
    s: State, a: Action, last: Option<nat>, before: Op.Record, after: Op.Record,
    early: bool, late: bool, whole: bool, stamp: bool, command: bool)
    requires Enabled(s, a) && Fresh(last, before, after) && Shows(s.copy, before, after, stamp, command)
    requires s.lastConsumed == Remembered(last, before, after, early, late, whole)
    requires (early ==> stamp) && (late ==> command) && (whole ==> stamp && command)
    ensures var early' := early || (a.Consume? && stamp && !command);
            var late' := late || (a.Consume? && !stamp && command);
            var whole' := whole || (a.Consume? && stamp && command);
            && Apply(s, a).lastConsumed == Remembered(last, before, after, early', late', whole')
            && Times(last, before, early', late', whole') == Times(last, before, early, late, whole)
                 + if a.Consume? && Delivered(s.lastConsumed, s.copy) == after.Code().value then 1 else 0
  {
    CodesDiffer(before, after);
  }

  lemma CodesDiffer(before: Op.Record, after: Op.Record)
    requires after.Asks() && after.command != before.command
    ensures before.Code() != after.Code()
  {
  }

  /** Exactly how often a fresh command is delivered once some tick has seen all of it. A tick that
      sees its timestamp before it loses it, if the command it replaces asks for something: that
      one is consumed again under the new timestamp, and the new command is dropped as a repeat. A
      tick that sees it before its timestamp delivers it twice, unless the old timestamp is the one
      last consumed. Otherwise it is delivered once. */
  lemma DeliveredExactly(states: seq<State>, acts: seq<Action>, pub: nat, n: nat, before: Op.Record)
    requires Replaces(states, acts, pub, n, before) && Fresh(states[pub].lastConsumed, before, acts[pub].r)
    requires TickSees(acts, pub, n, true, true)
    ensures Deliveries(states, acts, pub, n, acts[pub].r.Code().value)
         == if TickSees(acts, pub, n, true, false) && before.Asks() then 0
            else if TickSees(acts, pub, n, false, true) && states[pub].lastConsumed != Some(before.timestamp) then 2
            else 1
  {
    DeliveriesSoFar(states, acts, pub, n, before, n);
    NeverBoth(acts, pub, n);
  }

  /** A command published over one with the same code that has been dealt with is delivered once
      by every schedule, as soon as some tick sees its timestamp. */
  lemma {:induction false} RepeatedCommand(
    states: seq<State>, acts: seq<Action>, pub: nat, n: nat, before: Op.Record, k: nat)
    requires Replaces(states, acts, pub, n, before) && pub < k <= n
    requires var after := acts[pub].r;
             after.Asks() && after.command == before.command && after.timestamp != before.timestamp
    requires states[pub].lastConsumed == Some(before.timestamp)
    ensures var seen := exists m: nat :: pub < m < k && TickStamped(acts, pub, m);
            && states[k].lastConsumed == Some(if seen then acts[pub].r.timestamp else before.timestamp)
            && Deliveries(states, acts, pub, k, acts[pub].r.Code().value) == if seen then 1 else 0
    decreases k
  {
    var m := k - 1;
    assert IsStep(states[m], acts[m], states[k]);
    if m == pub {
      assert Deliveries(states, acts, pub, m, acts[pub].r.Code().value) == 0;
    } else {
      RepeatedCommand(states, acts, pub, n, before, m);
      CommandShows(states, acts, pub, n, before, m);
      SameCode(states[m].copy, acts[pub].r);
      if exists e: nat :: pub < e < m && TickStamped(acts, pub, e) {
        var e: nat :| pub < e < m && TickStamped(acts, pub, e);
        SeenStays(acts, pub, e, m, Stamp);
      }
      assert TickStamped(acts, pub, m) <==> acts[m].Consume? && Seen(acts, pub, m, Stamp);
      hide IsRun, Lone, Replaces, Seen, TickStamped;
    }
  }

  ghost predicate TickStamped(acts: seq<Action>, pub: nat, m: nat)
    requires m < |acts|
  {
    acts[m].Consume? && Seen(acts, pub, m, Stamp)
  }

  lemma SameCode(r: Op.Record, other: Op.Record)
    ensures r.command == other.command ==> r.Code() == other.Code()
  {
  }

  /** Timestamp before command and command before timestamp cannot both be seen. */
  lemma NeverBoth(acts: seq<Action>, pub: nat, k: nat)
    requires k <= |acts|
    ensures !(TickSees(acts, pub, k, true, false) && TickSees(acts, pub, k, false, true))
  {
    if TickSees(acts, pub, k, true, false) {
      var a: nat :| pub < a < k && TickAt(acts, pub, a, true, false);
      forall b: nat | pub < b < k
        ensures !TickAt(acts, pub, b, false, true)
      {
        if a <= b {
          SeenStays(acts, pub, a, b, Stamp);
        } else {
          UnseenBefore(acts, pub, b, a, Command);
        }
      }
    }
  }

  lemma UnseenBefore(acts: seq<Action>, pub: nat, m: nat, k: nat, p: Place)
    requires m <= k <= |acts| && !Seen(acts, pub, k, p)
    ensures !Seen(acts, pub, m, p)
  {
  }

  // ---------------------------------------------------------------------------
  // A lost command
  // ---------------------------------------------------------------------------

  lemma Extend(states: seq<State>, acts: seq<Action>, a: Action) returns (states': seq<State>, acts': seq<Action>)
    requires IsRun(states, acts) && Enabled(states[|acts|], a)
    ensures IsRun(states', acts') && acts' == acts + [a] && states <= states'
    ensures states'[|acts'|] == Apply(states[|acts|], a)
    ensures forall pub: nat, code :: pub <= |acts| ==>
              Deliveries(states', acts', pub, |acts'|, code) == Deliveries(states, acts, pub, |acts|, code)
                + if a.Consume? && Delivered(states[|acts|].lastConsumed, states[|acts|].copy) == code then 1 else 0
  {
    states', acts' := states + [Apply(states[|acts|], a)], acts + [a];
    forall k | 0 <= k < |acts'|
      ensures IsStep(states'[k], acts'[k], states'[k + 1])
    {
      if k < |acts| {
        assert IsStep(states[k], acts[k], states[k + 1]);
      }
    }
    forall pub: nat, code | pub <= |acts|
      ensures Deliveries(states', acts', pub, |acts|, code) == Deliveries(states, acts, pub, |acts|, code)
    {
      DeliveriesPrefix(states, acts, states', acts', pub, |acts|, code);
    }
  }

  /** One word is stored and fetched. */
  lemma LetThrough(states: seq<State>, acts: seq<Action>, p: Place)
    returns (states': seq<State>, acts': seq<Action>)
    requires IsRun(states, acts) && InRecord(p)
    requires var s := states[|acts|]; s.buffer.Valid() && s.source.Valid() && s.copy.Valid()
    ensures IsRun(states', acts') && acts' == acts + [Store(p), Fetch(p)] && states <= states'
    ensures |states'| == |acts'| + 1
    ensures var s := states'[|acts'|]; s.buffer.Valid() && s.source.Valid() && s.copy.Valid()
  {
    hide Deliveries;
    StepMoves(states[|acts|], Store(p), p);
    states', acts' := Extend(states, acts, Store(p));
    StepMoves(states'[|acts'|], Fetch(p), p);
    states', acts' := Extend(states', acts', Fetch(p));
  }

  lemma {:induction false} DeliveriesPrefix(
    states: seq<State>, acts: seq<Action>, states': seq<State>, acts': seq<Action>,
    pub: nat, k: nat, code: Controller.Code)
    requires k <= |acts| < |states| && |acts'| < |states'| && states <= states' && acts <= acts'
    ensures Deliveries(states', acts', pub, k, code) == Deliveries(states, acts, pub, k, code)
    decreases k
  {
    if k > pub {
      DeliveriesPrefix(states, acts, states', acts', pub, k - 1, code);
    }
  }

  /** An untorn command: published, stored, fetched and consumed. */
  lemma RunDelivered() returns (states: seq<State>, acts: seq<Action>)
    ensures IsRun(states, acts)
    ensures states[|acts|] == State.State(Op.Plain(Op.RUN, 1), Op.Plain(Op.RUN, 1), Op.Plain(Op.RUN, 1), Some(1))
  {
    var none, run := Op.Plain(Op.NONE, 0), Op.Plain(Op.RUN, 1);
    states, acts := [State.State(none, none, none, None)], [];
    hide Deliveries;
    states, acts := Extend(states, acts, Publish(run));
    hide IsRun;
    states, acts := Extend(states, acts, Store(Stamp));
    states, acts := Extend(states, acts, Store(Command));
    assert states[|acts|] == State.State(run, run, none, None);
    states, acts := Extend(states, acts, Fetch(Stamp));
    states, acts := Extend(states, acts, Fetch(Command));
    assert states[|acts|] == State.State(run, run, run, None);
    states, acts := Extend(states, acts, Consume);
  }

  /** A RUN is published and consumed, and then an ESTOP whose timestamp overtakes it: the RUN is
      delivered again and the ESTOP never, although the copy holds all of it. */
  lemma EstopCanBeLost() returns (states: seq<State>, acts: seq<Action>, pub: nat)
    ensures IsRun(states, acts) && pub < |acts| && acts[pub] == Publish(Op.Plain(Op.ESTOP, 2))
    ensures states[|acts|].copy == Op.Plain(Op.ESTOP, 2) && states[|acts|].lastConsumed == Some(2)
    ensures Deliveries(states, acts, pub, |acts|, Op.ESTOP) == 0
    ensures Deliveries(states, acts, pub, |acts|, Op.RUN) == 1
  {
    states, acts := RunDelivered();
    pub := |acts|;
    assert forall code :: Deliveries(states, acts, pub, pub, code) == 0;
    hide IsRun, Deliveries, Op.Plain;
    states, acts := StampOvertakes(states, acts);
    states, acts := CommandFollows(states, acts, pub);
  }

  /** The timestamp of an ESTOP arrives before its code: the tick consumes the old RUN under it. */
  lemma StampOvertakes(states: seq<State>, acts: seq<Action>) returns (states': seq<State>, acts': seq<Action>)
    requires IsRun(states, acts)
    requires states[|acts|] == State.State(Op.Plain(Op.RUN, 1), Op.Plain(Op.RUN, 1), Op.Plain(Op.RUN, 1), Some(1))
    ensures IsRun(states', acts') && acts <= acts' && |acts'| > |acts|
    ensures acts'[|acts|] == Publish(Op.Plain(Op.ESTOP, 2))
    ensures var mixed := Op.Plain(Op.RUN, 1).(timestamp := 2);
            states'[|acts'|] == State.State(mixed, Op.Plain(Op.ESTOP, 2), mixed, Some(2))
    ensures forall code :: Deliveries(states', acts', |acts|, |acts'|, code)
                        == Deliveries(states, acts, |acts|, |acts|, code) + if code == Op.RUN then 1 else 0
  {
    hide Deliveries;
    states', acts' := Extend(states, acts, Publish(Op.Plain(Op.ESTOP, 2)));
    hide IsRun;
    states', acts' := Extend(states', acts', Store(Stamp));
    states', acts' := Extend(states', acts', Fetch(Stamp));
    states', acts' := Extend(states', acts', Consume);
  }

  /** The code arrives, and the next tick takes it for a repeat. */
  lemma CommandFollows(states: seq<State>, acts: seq<Action>, pub: nat)
    returns (states': seq<State>, acts': seq<Action>)
    requires IsRun(states, acts) && pub <= |acts|
    requires var mixed := Op.Plain(Op.RUN, 1).(timestamp := 2);
             states[|acts|] == State.State(mixed, Op.Plain(Op.ESTOP, 2), mixed, Some(2))
    ensures IsRun(states', acts') && acts <= acts'
    ensures states'[|acts'|].copy == Op.Plain(Op.ESTOP, 2) && states'[|acts'|].lastConsumed == Some(2)
    ensures forall code :: code != Op.NONE ==>
              Deliveries(states', acts', pub, |acts'|, code) == Deliveries(states, acts, pub, |acts|, code)
  {
    hide Deliveries;
    states', acts' := Extend(states, acts, Store(Command));
    hide IsRun;
    states', acts' := Extend(states', acts', Fetch(Command));
    states', acts' := Extend(states', acts', Consume);
  }
}
