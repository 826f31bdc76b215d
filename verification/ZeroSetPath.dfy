/** A ZERO_SET on its way to the controller: what a tick zeroes when some words of the list have
    not arrived. */
module ZeroSetPath {
  import opened Wrappers
  import opened Bytes
  import opened StateMachine
  import opened SpgProtocol
  import opened Controller
  import opened ControllerRuns
  import opened OperatorPath

  /** Segment and copy held no zero targets, as after any other command. */
  ghost predicate HeldNoTargets(states: seq<OperatorPath.State>, pub: nat, before: Op.Record)
    requires pub < |states|
  {
    && before == Op.Plain(Op.NONE, before.timestamp).(command := before.command, targetMask := before.targetMask)
    && forall p :: InRecord(p) ==> Held(states, pub, before, p)
  }

  /** `pub` publishes this list, and up to step `n` nothing else is published. */
  ghost predicate PublishesZeroSet(
    states: seq<OperatorPath.State>, acts: seq<Action>, pub: nat, n: nat, before: Op.Record, targets: seq<(int, int)>)
  {
    && Lone(states, acts, pub, n) && HeldNoTargets(states, pub, before)
    && targets != [] && Op.Acceptable(targets)
    && Op.Carries(acts[pub].r, Op.ZERO_SET, targets, acts[pub].r.timestamp)
  }

  /** The list as far as it has arrived: a missing id or offset reads as zero. */
  ghost function Arrived(acts: seq<Action>, pub: nat, k: nat, targets: seq<(int, int)>): seq<(int, int)>
    requires k <= |acts|
  {
    seq(|targets|, i requires 0 <= i < |targets| =>
      (if Seen(acts, pub, k, Id(i)) then targets[i].0 else 0,
       if Seen(acts, pub, k, Offset(i)) then targets[i].1 else 0))
  }

  lemma SlotShows(
    states: seq<OperatorPath.State>, acts: seq<Action>, pub: nat, n: nat, before: Op.Record,
    targets: seq<(int, int)>, k: nat, i: nat)
    requires PublishesZeroSet(states, acts, pub, n, before, targets) && pub < k <= n && i < Op.CAPACITY
    ensures states[k].copy.Valid()
    ensures states[k].copy.zeroTargets[i]
         == if i < |targets| && Op.TargetError(Arrived(acts, pub, k, targets)[i]).None?
            then Op.Slot(Arrived(acts, pub, k, targets)[i]) else Op.EMPTY_SLOT
    ensures i < |targets| ==> Op.TargetError(Arrived(acts, pub, k, targets)[i]).None?
  {
    assert Held(states, pub, before, Id(i)) && Held(states, pub, before, Offset(i));
    CopyShows(states, acts, pub, n, before, Id(i), k);
    CopyShows(states, acts, pub, n, before, Offset(i), k);
    hide Lone, Seen, Stored, Held;
  }

  lemma HeaderShows(
    states: seq<OperatorPath.State>, acts: seq<Action>, pub: nat, n: nat, before: Op.Record,
    targets: seq<(int, int)>, k: nat)
    requires PublishesZeroSet(states, acts, pub, n, before, targets) && pub < k <= n
    requires Seen(acts, pub, k, Stamp) && Seen(acts, pub, k, Command)
    ensures var copy := states[k].copy;
            && copy.timestamp == acts[pub].r.timestamp && copy.Code() == Some(Op.ZERO_SET)
            && copy.zeroCount == (if Seen(acts, pub, k, Count) then |targets| else 0)
            && copy.zeroMagic == if Seen(acts, pub, k, Magic) then Op.ZERO_TARGET_MAGIC else 0
  {
    assert Held(states, pub, before, Stamp) && Held(states, pub, before, Command);
    assert Held(states, pub, before, Count) && Held(states, pub, before, Magic);
    CopyShows(states, acts, pub, n, before, Stamp, k);
    CopyShows(states, acts, pub, n, before, Command, k);
    CopyShows(states, acts, pub, n, before, Count, k);
    CopyShows(states, acts, pub, n, before, Magic, k);
    hide Lone, Seen, Stored, Held;
  }

  /** With count and magic the copy is the record of the list as far as it has arrived. */
  lemma CopyCarriesArrived(
    states: seq<OperatorPath.State>, acts: seq<Action>, pub: nat, n: nat, before: Op.Record,
    targets: seq<(int, int)>, k: nat)
    requires PublishesZeroSet(states, acts, pub, n, before, targets) && pub < k <= n
    requires Seen(acts, pub, k, Stamp) && Seen(acts, pub, k, Command)
    requires Seen(acts, pub, k, Count) && Seen(acts, pub, k, Magic)
    ensures Op.Carries(states[k].copy, Op.ZERO_SET, Arrived(acts, pub, k, targets), states[k].copy.timestamp)
    ensures Op.Acceptable(Arrived(acts, pub, k, targets))
  {
    HeaderShows(states, acts, pub, n, before, targets, k);
    SlotShows(states, acts, pub, n, before, targets, k, 0);
    hide Seen;
    forall i | 0 <= i < Op.CAPACITY
      ensures states[k].copy.zeroTargets[i]
           == if i < |targets| && Op.TargetError(Arrived(acts, pub, k, targets)[i]).None?
              then Op.Slot(Arrived(acts, pub, k, targets)[i]) else Op.EMPTY_SLOT
      ensures i < |targets| ==> Op.TargetError(Arrived(acts, pub, k, targets)[i]).None?
    {
      SlotShows(states, acts, pub, n, before, targets, k, i);
    }
    hide PublishesZeroSet, Arrived;
  }

  // ---------------------------------------------------------------------------
  // The tick that the command is delivered at
  // ---------------------------------------------------------------------------

  /** A tick, outside ESTOP, that reads the copy of step `k`, sees the new command whole and has
      not consumed it before; configuration and daemon are in order. */
  ghost predicate DeliveringTick(
    cfg: Config, s: Controller.State, input: Input, states: seq<OperatorPath.State>, acts: seq<Action>,
    pub: nat, k: nat)
  {
    && cfg.Sound() && TakesAll(input.bus) && s.mode != Mode.ESTOP
    && pub < k <= |acts| && |states| == |acts| + 1 && input.op == states[k].copy
    && Seen(acts, pub, k, Stamp) && Seen(acts, pub, k, Command)
    && s.lastConsumed != Some(input.op.timestamp)
  }

  /** What it does, for every schedule: without the count it zeroes everybody, with the count but
      without the magic it raises, and otherwise it zeroes the list as far as it has arrived. */
  lemma TornZeroSet(
    cfg: Config, s: Controller.State, input: Input, states: seq<OperatorPath.State>, acts: seq<Action>,
    pub: nat, n: nat, before: Op.Record, targets: seq<(int, int)>, k: nat)
    requires PublishesZeroSet(states, acts, pub, n, before, targets) && pub < k <= n
    requires DeliveringTick(cfg, s, input, states, acts, pub, k)
    ensures var outcome := Step(cfg, s, input);
            && outcome.state.mode == ZERO_SETTING
            && if !Seen(acts, pub, k, Count) then
                 outcome.error.None? && ZeroesExactly(cfg, outcome.frames, [])
               else if !Seen(acts, pub, k, Magic) then
                 outcome.error == Some(BadZeroMagic) && outcome.frames == []
               else
                 outcome.error.None? && ZeroesExactly(cfg, outcome.frames, Arrived(acts, pub, k, targets))
  {
    HeaderShows(states, acts, pub, n, before, targets, k);
    if Seen(acts, pub, k, Count) && Seen(acts, pub, k, Magic) {
      CopyCarriesArrived(states, acts, pub, n, before, targets, k);
      hide Seen, PublishesZeroSet, Arrived, ZeroesExactly;
      ZeroSetDelivers(cfg, s, input, Arrived(acts, pub, k, targets));
      ZeroSetMode(cfg, s, input);
    } else {
      hide Seen, PublishesZeroSet, Arrived, ZeroesExactly;
      ZeroSetMode(cfg, s, input);
      if input.op.zeroCount == 0 {
        ZeroTickSends(cfg, map[], [], input.bus);
      }
      hide ZeroJobs, ZeroOrder, SentBy, FirstError, Updated;
    }
  }

  lemma ZeroSetMode(cfg: Config, s: Controller.State, input: Input)
    requires s.mode != Mode.ESTOP && s.lastConsumed != Some(input.op.timestamp) && input.op.Code() == Some(Op.ZERO_SET)
    ensures Updated(cfg, s, input).mode == ZERO_SETTING && Step(cfg, s, input).state.mode == ZERO_SETTING
  {
    hide ZeroJobs, ZeroOrder, SentBy, FirstError, ZeroOffsets;
    assert Updated(cfg, s, input).mode == ZERO_SETTING;
  }

  // ---------------------------------------------------------------------------
  // Exactly when it zeroes what was published
  // ---------------------------------------------------------------------------

  /** What a zeroed motor's frame says under this list. */
  ghost predicate Means(targets: seq<(int, int)>, id: int, offset: int) {
    if Listed(targets, id) then LastOffset(targets, id, offset) else offset == 0
  }

  /** Both lists do the same to this motor. */
  ghost predicate Alike(a: seq<(int, int)>, b: seq<(int, int)>, id: int) {
    && (Zeroed(a, id) <==> Zeroed(b, id))
    && (Zeroed(a, id) ==> forall offset :: Means(a, id, offset) <==> Means(b, id, offset))
  }

  lemma MeansOne(targets: seq<(int, int)>, id: int, x: int, y: int)
    requires Means(targets, id, x) && Means(targets, id, y)
    ensures x == y
  {
  }

  /** Frames that zero exactly one list zero exactly another if and only if the two do the same to
      every motor. */
  lemma SameZeroing(cfg: Config, frames: seq<CanFrame>, a: seq<(int, int)>, b: seq<(int, int)>)
    requires ZeroesExactly(cfg, frames, a)
    ensures ZeroesExactly(cfg, frames, b) <==> forall id :: id in cfg.ids ==> Alike(a, b, id)
  {
    hide Zeroed, Listed, LastOffset, AckOffset;
    if ZeroesExactly(cfg, frames, b) {
      forall id | id in cfg.ids
        ensures Alike(a, b, id)
      {
        AlikeAt(cfg, frames, a, b, id);
      }
    }
    if forall id :: id in cfg.ids ==> Alike(a, b, id) {
      CarriesOver(cfg, frames, a, b);
    }
  }

  lemma AlikeAt(cfg: Config, frames: seq<CanFrame>, a: seq<(int, int)>, b: seq<(int, int)>, id: int)
    requires ZeroesExactly(cfg, frames, a) && ZeroesExactly(cfg, frames, b) && id in cfg.ids
    ensures Alike(a, b, id)
  {
    ZeroedHasFrame(cfg, frames, a, id);
    ZeroedHasFrame(cfg, frames, b, id);
    hide Zeroed, Listed, LastOffset, AckOffset;
    if Zeroed(a, id) {
      var i :| 0 <= i < |frames| && frames[i].canId == id;
      var offset := AckOffset(frames[i].data).value;
      assert Means(a, id, offset) && Means(b, id, offset);
      forall other
        ensures Means(a, id, other) <==> Means(b, id, other)
      {
        if Means(a, id, other) {
          MeansOne(a, id, offset, other);
        }
        if Means(b, id, other) {
          MeansOne(b, id, offset, other);
        }
      }
    }
  }

  lemma ZeroedHasFrame(cfg: Config, frames: seq<CanFrame>, targets: seq<(int, int)>, id: int)
    requires ZeroesExactly(cfg, frames, targets) && id in cfg.ids
    ensures Zeroed(targets, id) <==> exists i :: 0 <= i < |frames| && frames[i].canId == id
  {
    hide Zeroed, Listed, LastOffset, AckOffset;
  }

  lemma CarriesOver(cfg: Config, frames: seq<CanFrame>, a: seq<(int, int)>, b: seq<(int, int)>)
    requires ZeroesExactly(cfg, frames, a) && forall id :: id in cfg.ids ==> Alike(a, b, id)
    ensures ZeroesExactly(cfg, frames, b)
  {
    hide Zeroed, Listed, LastOffset, AckOffset;
    forall i | 0 <= i < |frames|
      ensures frames[i].canId in cfg.ids && Zeroed(b, frames[i].canId)
      ensures AckOffset(frames[i].data).Some? && Means(b, frames[i].canId, AckOffset(frames[i].data).value)
    {
      assert Alike(a, b, frames[i].canId);
      assert Means(a, frames[i].canId, AckOffset(frames[i].data).value);
    }
    forall id | id in cfg.ids && Zeroed(b, id)
      ensures exists i :: 0 <= i < |frames| && frames[i].canId == id
    {
      assert Alike(a, b, id);
    }
  }

  /** Each motor at most once, and only configured ones. */
  ghost predicate Plainly(cfg: Config, targets: seq<(int, int)>) {
    && (forall i :: 0 <= i < |targets| ==> targets[i].0 != 0 && targets[i].0 in cfg.ids)
    && forall i, j :: 0 <= i < j < |targets| ==> targets[i].0 != targets[j].0
  }

  /** The words that must be there for the list to be zeroed as published. If the count or every id
      is missing everybody is zeroed, which is right only for a list of everybody with no offset. */
  ghost predicate WordsInOrder(cfg: Config, acts: seq<Action>, pub: nat, k: nat, targets: seq<(int, int)>)
    requires k <= |acts|
  {
    if !Seen(acts, pub, k, Count) then Everybody(cfg, targets)
    else if !Seen(acts, pub, k, Magic) then false
    else if forall i :: 0 <= i < |targets| ==> !Seen(acts, pub, k, Id(i)) then Everybody(cfg, targets)
    else
      forall i :: 0 <= i < |targets| ==>
        Seen(acts, pub, k, Id(i)) && (Seen(acts, pub, k, Offset(i)) || targets[i].1 == 0)
  }

  ghost predicate Everybody(cfg: Config, targets: seq<(int, int)>) {
    forall id :: id in cfg.ids ==> (id, 0) in targets
  }

  lemma ListedPlainly(cfg: Config, targets: seq<(int, int)>, i: nat)
    requires Plainly(cfg, targets) && i < |targets|
    ensures Listed(targets, targets[i].0)
    ensures forall offset :: Means(targets, targets[i].0, offset) <==> offset == targets[i].1
  {
    assert targets[i] == (targets[i].0, targets[i].1);
    assert LastOffset(targets, targets[i].0, targets[i].1);
    forall offset | LastOffset(targets, targets[i].0, offset)
      ensures offset == targets[i].1
    {
      MeansOne(targets, targets[i].0, offset, targets[i].1);
    }
  }

  /** Zeroing everybody is right exactly for a list of everybody with no offset. */
  lemma EverybodyExactly(cfg: Config, nobody: seq<(int, int)>, targets: seq<(int, int)>)
    requires Plainly(cfg, targets) && targets != [] && forall id :: !Listed(nobody, id)
    ensures (forall id :: id in cfg.ids ==> Alike(nobody, targets, id)) <==> Everybody(cfg, targets)
  {
    ListedPlainly(cfg, targets, 0);
    forall id | id in cfg.ids
      ensures Alike(nobody, targets, id) <==> (id, 0) in targets
    {
      assert Zeroed(nobody, id);
      if i :| 0 <= i < |targets| && targets[i].0 == id {
        ListedPlainly(cfg, targets, i);
        assert Means(nobody, id, 0);
        hide LastOffset, Listed, Means;
        OnlyEntry(cfg, targets, i, 0);
      } else {
        assert !Listed(targets, id);
      }
    }
    hide Alike;
  }

  lemma OnlyEntry(cfg: Config, targets: seq<(int, int)>, i: nat, offset: int)
    requires Plainly(cfg, targets) && i < |targets|
    ensures (targets[i].0, offset) in targets <==> targets[i].1 == offset
  {
  }

  lemma ArrivedEntry(cfg: Config, acts: seq<Action>, pub: nat, k: nat, targets: seq<(int, int)>, i: nat)
    requires k <= |acts| && Plainly(cfg, targets) && i < |targets|
    ensures var arrived := Arrived(acts, pub, k, targets);
            && (Listed(arrived, targets[i].0) <==> Seen(acts, pub, k, Id(i)))
            && (Seen(acts, pub, k, Id(i)) ==> forall offset ::
                  Means(arrived, targets[i].0, offset) <==> offset == arrived[i].1)
  {
    var arrived := Arrived(acts, pub, k, targets);
    hide Seen;
    assert forall j :: 0 <= j < |targets| && j != i ==> arrived[j].0 != targets[i].0;
    if Seen(acts, pub, k, Id(i)) {
      assert arrived[i] == (targets[i].0, arrived[i].1);
      assert LastOffset(arrived, targets[i].0, arrived[i].1);
      forall offset | LastOffset(arrived, targets[i].0, offset)
        ensures offset == arrived[i].1
      {
        MeansOne(arrived, targets[i].0, offset, arrived[i].1);
      }
    }
  }

  lemma ArrivedExactly(cfg: Config, acts: seq<Action>, pub: nat, k: nat, targets: seq<(int, int)>, some: nat)
    requires k <= |acts| && Plainly(cfg, targets) && some < |targets| && Seen(acts, pub, k, Id(some))
    ensures (forall id :: id in cfg.ids ==> Alike(Arrived(acts, pub, k, targets), targets, id)) <==>
            forall i :: 0 <= i < |targets| ==>
              Seen(acts, pub, k, Id(i)) && (Seen(acts, pub, k, Offset(i)) || targets[i].1 == 0)
  {
    var arrived := Arrived(acts, pub, k, targets);
    ArrivedEntry(cfg, acts, pub, k, targets, some);
    ListedPlainly(cfg, targets, some);
    hide Seen, LastOffset;
    forall i | 0 <= i < |targets|
      ensures Alike(arrived, targets, targets[i].0) <==>
              Seen(acts, pub, k, Id(i)) && (Seen(acts, pub, k, Offset(i)) || targets[i].1 == 0)
    {
      ArrivedEntry(cfg, acts, pub, k, targets, i);
      ListedPlainly(cfg, targets, i);
      EntryAlike(arrived, targets, targets[i].0, arrived[i].1, targets[i].1, Seen(acts, pub, k, Id(i)));
    }
    forall id | id in cfg.ids && forall i :: 0 <= i < |targets| ==> targets[i].0 != id
      ensures Alike(arrived, targets, id)
    {
      Unlisted(arrived, targets, id);
    }
    hide Alike, Listed, Arrived;
  }

  lemma Unlisted(arrived: seq<(int, int)>, targets: seq<(int, int)>, id: int)
    requires |arrived| == |targets|
    requires forall i :: 0 <= i < |targets| ==>
               targets[i].0 != id && (arrived[i].0 == targets[i].0 || arrived[i].0 == 0)
    requires exists other :: Listed(arrived, other)
    requires exists other :: Listed(targets, other)
    ensures Alike(arrived, targets, id)
  {
    assert !Listed(arrived, id) && !Listed(targets, id);
  }

  lemma EntryAlike(a: seq<(int, int)>, b: seq<(int, int)>, id: int, x: int, y: int, listed: bool)
    requires (exists other :: Listed(a, other)) && Listed(b, id)
    requires Listed(a, id) <==> listed
    requires listed ==> forall offset :: Means(a, id, offset) <==> offset == x
    requires forall offset :: Means(b, id, offset) <==> offset == y
    ensures Alike(a, b, id) <==> listed && x == y
  {
    hide Listed, Means;
    assert Means(b, id, y);
  }

  /** For a list that names configured motors, each once: the delivering tick raises nothing and
      zeroes exactly what was published if and only if the words are in order. */
  lemma ZeroSetExactly(
    cfg: Config, s: Controller.State, input: Input, states: seq<OperatorPath.State>, acts: seq<Action>,
    pub: nat, n: nat, before: Op.Record, targets: seq<(int, int)>, k: nat)
    requires PublishesZeroSet(states, acts, pub, n, before, targets) && pub < k <= n && Plainly(cfg, targets)
    requires DeliveringTick(cfg, s, input, states, acts, pub, k)
    ensures var outcome := Step(cfg, s, input);
            outcome.error.None? && ZeroesExactly(cfg, outcome.frames, targets) <==>
            WordsInOrder(cfg, acts, pub, k, targets)
  {
    TornZeroSet(cfg, s, input, states, acts, pub, n, before, targets, k);
    var frames := Step(cfg, s, input).frames;
    hide Step, DeliveringTick, Seen, ZeroesExactly, Alike, Everybody;
    if !Seen(acts, pub, k, Count) {
      EverybodyExactly(cfg, [], targets);
      SameZeroing(cfg, frames, [], targets);
    } else if Seen(acts, pub, k, Magic) {
      var arrived := Arrived(acts, pub, k, targets);
      SameZeroing(cfg, frames, arrived, targets);
      if some :| 0 <= some < |targets| && Seen(acts, pub, k, Id(some)) {
        ArrivedExactly(cfg, acts, pub, k, targets, some);
      } else {
        EverybodyExactly(cfg, arrived, targets);
      }
    }
  }

  // ---------------------------------------------------------------------------
  // Two torn lists
  // ---------------------------------------------------------------------------

  const ONE_MOTOR: seq<(int, int)> := [(1, 100)]

  /** A zero-set for motor 1 is published and stored and fetched in part. */
  lemma PartOfZeroSet(withCount: bool)
    returns (states: seq<OperatorPath.State>, acts: seq<Action>, before: Op.Record)
    ensures PublishesZeroSet(states, acts, 0, |acts|, before, ONE_MOTOR) && |acts| > 0
    ensures Seen(acts, 0, |acts|, Stamp) && Seen(acts, 0, |acts|, Command) && !Seen(acts, 0, |acts|, Magic)
    ensures Seen(acts, 0, |acts|, Count) <==> withCount
    ensures |states| == |acts| + 1
  {
    before := Op.Plain(Op.NONE, 0);
    var r := SampleRecord();
    states, acts := FirstPublication(before, r);
    hide OperatorPath.IsRun, Seen, Op.Carries, Op.Acceptable;
    states, acts := LetThrough(states, acts, Stamp);
    states, acts := LetThrough(states, acts, Command);
    if withCount {
      states, acts := LetThrough(states, acts, Count);
    }
    assert acts == PartActs(r, withCount);
    PartSeen(r, withCount);
    hide Held, PartActs, Op.Plain;
  }

  lemma SampleRecord() returns (r: Op.Record)
    ensures r.Valid() && r.timestamp == 1 && Op.Carries(r, Op.ZERO_SET, ONE_MOTOR, 1) && Op.Acceptable(ONE_MOTOR)
  {
    var slots := [Op.ZeroTarget(1, 100)] + seq(Op.CAPACITY - 1, _ => Op.EMPTY_SLOT);
    r := Op.Record(1, 4, 0, 1, Op.ZERO_TARGET_MAGIC, slots);
  }

  lemma FirstPublication(before: Op.Record, r: Op.Record)
    returns (states: seq<OperatorPath.State>, acts: seq<Action>)
    requires before == Op.Plain(Op.NONE, 0) && r.Valid()
    ensures OperatorPath.IsRun(states, acts) && acts == [Publish(r)] && |states| == 2
    ensures forall p :: InRecord(p) ==> Held(states, 0, before, p)
    ensures var s := states[1]; s.buffer.Valid() && s.source.Valid() && s.copy.Valid()
  {
    states, acts := [OperatorPath.State.State(before, before, before, None)], [];
    hide Deliveries;
    states, acts := Extend(states, acts, Publish(r));
  }

  function PartActs(r: Op.Record, withCount: bool): seq<Action> {
    [Publish(r), Store(Stamp), Fetch(Stamp), Store(Command), Fetch(Command)]
    + if withCount then [Store(Count), Fetch(Count)] else []
  }

  lemma PartSeen(r: Op.Record, withCount: bool)
    ensures var acts := PartActs(r, withCount);
            && Seen(acts, 0, |acts|, Stamp) && Seen(acts, 0, |acts|, Command) && !Seen(acts, 0, |acts|, Magic)
            && (Seen(acts, 0, |acts|, Count) <==> withCount)
            && |acts| > 0 && acts[0] == Publish(r) && forall k :: 0 < k < |acts| ==> !acts[k].Publish?
  {
    var acts := PartActs(r, withCount);
    assert Stored(acts, 0, 2, Stamp) && Stored(acts, 0, 4, Command) by {
      assert acts[1] == Store(Stamp) && acts[3] == Store(Command);
    }
    assert acts[2] == Fetch(Stamp) && acts[4] == Fetch(Command);
    if withCount {
      assert Stored(acts, 0, 6, Count) by {
        assert acts[5] == Store(Count);
      }
      assert acts[6] == Fetch(Count);
    }
  }

  const TWO_MOTORS := Config(SHIPPED_RANGES, 1.0, 0.0, [1, 2])

  /** The very first tick can read such a copy: a zero-set published for motor 1 zeroes both motors
      if the count has not arrived, and raises if the count has and the magic has not. */
  lemma PartialZeroSetMisfires(withCount: bool)
    returns (states: seq<OperatorPath.State>, acts: seq<Action>, s: Controller.State, input: Input)
    ensures OperatorPath.IsRun(states, acts) && input.op == states[|acts|].copy
    ensures acts != [] && acts[0].Publish?
    ensures Op.Carries(acts[0].r, Op.ZERO_SET, ONE_MOTOR, acts[0].r.timestamp)
    ensures TWO_MOTORS.Sound() && Controller.Initial(s) && TakesAll(input.bus)
    ensures var outcome := Step(TWO_MOTORS, s, input);
            && outcome.state.mode == ZERO_SETTING && !ZeroesExactly(TWO_MOTORS, outcome.frames, ONE_MOTOR)
            && if withCount then outcome.error == Some(BadZeroMagic) && outcome.frames == []
               else outcome.error.None? && |outcome.frames| == 2 && ZeroesExactly(TWO_MOTORS, outcome.frames, [])
  {
    var before;
    states, acts, before := PartOfZeroSet(withCount);
    s := Controller.State(DISABLED, 0.0, None, NO_OUTPUT, []);
    assert |states| == |acts| + 1;
    var cmd := ControlCommand.Record(0, 0, seq(ControlCommand.CAPACITY, _ => ControlCommand.EMPTY_SLOT));
    input := Input(0.0, states[|acts|].copy, cmd, _ => true);
    SampleConfig();
    hide Config.Sound, Config.Constructible, Seen, Plainly, Everybody, ZeroesExactly, Step, PublishesZeroSet;
    MisfiringTick(s, input, states, acts, before, withCount);
    PublishedList(states, acts, before);
  }

  lemma SampleConfig()
    ensures TWO_MOTORS.Sound() && TWO_MOTORS.Constructible()
    ensures Plainly(TWO_MOTORS, ONE_MOTOR) && !Everybody(TWO_MOTORS, ONE_MOTOR)
  {
    assert 2 in TWO_MOTORS.ids && (2, 0) !in ONE_MOTOR;
  }

  lemma PublishedList(states: seq<OperatorPath.State>, acts: seq<Action>, before: Op.Record)
    requires PublishesZeroSet(states, acts, 0, |acts|, before, ONE_MOTOR)
    ensures OperatorPath.IsRun(states, acts) && acts != [] && acts[0].Publish?
    ensures Op.Carries(acts[0].r, Op.ZERO_SET, ONE_MOTOR, acts[0].r.timestamp)
  {
  }

  lemma MisfiringTick(
    s: Controller.State, input: Input, states: seq<OperatorPath.State>, acts: seq<Action>,
    before: Op.Record, withCount: bool)
    requires PublishesZeroSet(states, acts, 0, |acts|, before, ONE_MOTOR) && |states| == |acts| + 1
    requires Seen(acts, 0, |acts|, Stamp) && Seen(acts, 0, |acts|, Command) && !Seen(acts, 0, |acts|, Magic)
    requires Seen(acts, 0, |acts|, Count) <==> withCount
    requires Controller.Initial(s) && input.op == states[|acts|].copy && TakesAll(input.bus)
    ensures var outcome := Step(TWO_MOTORS, s, input);
            && outcome.state.mode == ZERO_SETTING && !ZeroesExactly(TWO_MOTORS, outcome.frames, ONE_MOTOR)
            && if withCount then outcome.error == Some(BadZeroMagic) && outcome.frames == []
               else outcome.error.None? && |outcome.frames| == 2 && ZeroesExactly(TWO_MOTORS, outcome.frames, [])
  {
    SampleConfig();
    PublishedList(states, acts, before);
    hide Config.Sound, Config.Constructible, Seen, Plainly, Everybody, ZeroesExactly, Step, PublishesZeroSet;
    var k := |acts|;
    assert DeliveringTick(TWO_MOTORS, s, input, states, acts, 0, k);
    TornZeroSet(TWO_MOTORS, s, input, states, acts, 0, k, before, ONE_MOTOR, k);
    var frames := Step(TWO_MOTORS, s, input).frames;
    if withCount {
      NoFramesZeroNothing(frames);
    } else {
      ZeroSetExactly(TWO_MOTORS, s, input, states, acts, 0, k, before, ONE_MOTOR, k);
      EveryoneZeroed(TWO_MOTORS, frames);
    }
  }

  lemma NoFramesZeroNothing(frames: seq<CanFrame>)
    requires frames == []
    ensures !ZeroesExactly(TWO_MOTORS, frames, ONE_MOTOR)
  {
    assert ONE_MOTOR[0].0 == 1 && Listed(ONE_MOTOR, 1) && 1 in TWO_MOTORS.ids;
  }
}
