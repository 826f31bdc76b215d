/** The policy's shared record of joint targets. Tearing is deliberate: there is no counter,
    and a reader may see any interleaving of the words of successive records. Words are four
    bytes and are not split. */
module ControlCommand {
  import opened Wrappers

  const CAPACITY: nat := 12

  datatype Target = Target(canId: nat, q: real, dq: real, kp: real, kd: real, tau: real)

  const EMPTY_SLOT := Target(0, 0.0, 0.0, 0.0, 0.0, 0.0)

  datatype Record = Record(timestamp: nat, numTargets: nat, targets: seq<Target>) {
    predicate Valid() {
      |targets| == CAPACITY
    }
  }

  /** The all-zero record `clear` leaves. */
  ghost predicate IsCleared(r: Record) {
    r.Valid() && r.timestamp == 0 && r.numTargets == 0 && forall i :: 0 <= i < CAPACITY ==> r.targets[i] == EMPTY_SLOT
  }

  /** `r` carries exactly these targets; the other slots are zero. */
  ghost predicate Carries(r: Record, targets: seq<Target>) {
    && r.Valid() && r.numTargets == |targets| <= CAPACITY
    && forall i :: 0 <= i < CAPACITY ==> r.targets[i] == if i < |targets| then targets[i] else EMPTY_SLOT
  }

  method BuildRecord(targets: seq<Target>, timeNs: nat) returns (r: Option<Record>)
    ensures r.Some? <==> |targets| <= CAPACITY
    ensures r.Some? ==> Carries(r.value, targets) && r.value.timestamp == timeNs
  {
    if |targets| > CAPACITY {
      return None;
    }
    var slots := new Target[CAPACITY](_ => EMPTY_SLOT);
    for i := 0 to |targets|
      invariant forall j :: 0 <= j < CAPACITY ==> slots[j] == if j < i then targets[j] else EMPTY_SLOT
    {
      slots[i] := targets[i];
    }
    return Some(Record(timeNs, |targets|, slots[..]));
  }

  // ---------------------------------------------------------------------------
  // Word by word
  // ---------------------------------------------------------------------------

  /** Where a word lies: the timestamp, the count, or one of the six fields of a slot. */
  datatype Field = CanId | Q | Dq | Kp | Kd | Tau

  datatype Place = Timestamp | Count | Slot(i: nat, f: Field)

  datatype Word = Whole(n: nat) | Float(x: real)

  predicate InRecord(p: Place) {
    p.Slot? ==> p.i < CAPACITY
  }

  function WordAt(r: Record, p: Place): Word
    requires r.Valid() && InRecord(p)
  {
    match p
    case Timestamp => Whole(r.timestamp)
    case Count => Whole(r.numTargets)
    case Slot(i, CanId) => Whole(r.targets[i].canId)
    case Slot(i, Q) => Float(r.targets[i].q)
    case Slot(i, Dq) => Float(r.targets[i].dq)
    case Slot(i, Kp) => Float(r.targets[i].kp)
    case Slot(i, Kd) => Float(r.targets[i].kd)
    case Slot(i, Tau) => Float(r.targets[i].tau)
  }

  function StoreField(t: Target, f: Field, from: Target): Target {
    match f
    case CanId => t.(canId := from.canId)
    case Q => t.(q := from.q)
    case Dq => t.(dq := from.dq)
    case Kp => t.(kp := from.kp)
    case Kd => t.(kd := from.kd)
    case Tau => t.(tau := from.tau)
  }

  function StoreWord(r: Record, p: Place, from: Record): Record
    requires r.Valid() && from.Valid() && InRecord(p)
  {
    match p
    case Timestamp => r.(timestamp := from.timestamp)
    case Count => r.(numTargets := from.numTargets)
    case Slot(i, f) => r.(targets := r.targets[i := StoreField(r.targets[i], f, from.targets[i])])
  }

  /** The segment, the record its writer is in the middle of storing, and the copy its reader
      is in the middle of taking. Either side may move any word at any time, in any order and
      any number of times, which covers every interleaving of block copies. */
  datatype State = State(buffer: Record, source: Record, copy: Record, published: set<Record>)

  datatype Action = Publish(r: Record) | Store(p: Place) | Fetch(p: Place)

  ghost predicate Initial(s: State) {
    IsCleared(s.buffer) && s.source == s.buffer == s.copy && s.published == {s.buffer}
  }

  predicate Enabled(s: State, a: Action) {
    && s.buffer.Valid() && s.source.Valid() && s.copy.Valid()
    && match a
       case Publish(r) => r.Valid()
       case Store(p) => InRecord(p)
       case Fetch(p) => InRecord(p)
  }

  function Apply(s: State, a: Action): State
    requires Enabled(s, a)
  {
    match a
    case Publish(r) => s.(source := r, published := s.published + {r})
    case Store(p) => s.(buffer := StoreWord(s.buffer, p, s.source))
    case Fetch(p) => s.(copy := StoreWord(s.copy, p, s.buffer))
  }

  ghost predicate IsRun(states: seq<State>, acts: seq<Action>) {
    && |states| == |acts| + 1 && Initial(states[0])
    && forall k :: 0 <= k < |acts| ==> IsStep(states[k], acts[k], states[k + 1])
  }

  ghost predicate IsStep(s: State, a: Action, s': State) {
    Enabled(s, a) && s' == Apply(s, a)
  }

  /** Some record of the set has this word at this place. */
  ghost predicate Offered(published: set<Record>, p: Place, w: Word)
    requires InRecord(p) && forall r :: r in published ==> r.Valid()
  {
    exists r :: r in published && WordAt(r, p) == w
  }

  /** Every word of `r` is the word that some published record has in the same place. */
  ghost predicate IsMixture(r: Record, published: set<Record>) {
    && r.Valid() && (forall r' :: r' in published ==> r'.Valid())
    && forall p :: InRecord(p) ==> Offered(published, p, WordAt(r, p))
  }

  lemma StoreWordMixes(r: Record, p: Place, from: Record, published: set<Record>)
    requires IsMixture(r, published) && IsMixture(from, published) && InRecord(p)
    ensures IsMixture(StoreWord(r, p, from), published)
  {
    var r' := StoreWord(r, p, from);
    forall p' | InRecord(p')
      ensures Offered(published, p', WordAt(r', p'))
    {
      assert WordAt(r', p') == WordAt(if p' == p then from else r, p');
      assert Offered(published, p', WordAt(from, p')) && Offered(published, p', WordAt(r, p'));
    }
  }

  lemma MixtureGrows(r: Record, published: set<Record>, more: set<Record>)
    requires IsMixture(r, published) && published <= more && forall r' :: r' in more ==> r'.Valid()
    ensures IsMixture(r, more)
  {
  }

  /** A published record is a mixture of the published records. */
  lemma MemberIsMixture(r: Record, published: set<Record>)
    requires r in published && forall r' :: r' in published ==> r'.Valid()
    ensures IsMixture(r, published)
  {
  }

  /** Whatever the interleaving, the segment and every copy taken from it stay word-wise
      mixtures of the records published so far and the all-zero initial one. */
  lemma {:induction false} CopiesAreMixtures(states: seq<State>, acts: seq<Action>, k: nat)
    requires IsRun(states, acts) && k < |states|
    ensures var s := states[k];
            IsMixture(s.buffer, s.published) && IsMixture(s.source, s.published) && IsMixture(s.copy, s.published)
  {
    if k == 0 {
      MemberIsMixture(states[0].buffer, states[0].published);
    } else {
      CopiesAreMixtures(states, acts, k - 1);
      var s, s' := states[k - 1], states[k];
      assert IsStep(s, acts[k - 1], s');
      match acts[k - 1]
      case Publish(r) =>
        MixtureGrows(s.buffer, s.published, s'.published);
        MixtureGrows(s.copy, s.published, s'.published);
        MemberIsMixture(r, s'.published);
      case Store(p) => StoreWordMixes(s.buffer, p, s.source, s.published);
      case Fetch(p) => StoreWordMixes(s.copy, p, s.buffer, s.published);
    }
  }
}
