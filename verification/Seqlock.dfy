/** The seqlock protocol of the shared control and feedback blocks: one writer and any
    number of readers, interleaved one counter access or one copied word at a time.

    A block holds a 32-bit counter and an array of words. `memcpy` promises no order, so
    both sides may copy their words in any order. Memory is sequentially consistent. The
    only auxiliary part of a state is `published`, the snapshots written so far. */
module Seqlock {

  const COUNTER_MODULUS: nat := 0x1_0000_0000

  /** A completed write adds two to the counter, so this many writes bring it back. */
  const WRITES_PER_WRAP: nat := 0x8000_0000

  datatype Writer<Word> = Resting | Writing(src: seq<Word>, left: set<nat>)

  /** `Outside(ok)`: not inside a read; `ok` is what the last read returned. */
  datatype ReaderPc = Outside(ok: bool) | Copying(s1: nat, left: set<nat>)

  datatype Reader<Word> = Reader(pc: ReaderPc, dst: seq<Word>)

  datatype State<Word> = State(
    counter: nat,
    data: seq<Word>,
    writer: Writer<Word>,
    readers: seq<Reader<Word>>,
    published: seq<seq<Word>>)
  {
    /** The snapshot most recently completed. */
    function Current(): seq<Word>
      requires published != []
    {
      published[|published| - 1]
    }
  }

  datatype Action<Word> =
    | WriteBegin(src: seq<Word>)
    | WriteWord(i: nat)
    | WriteEnd
    | ReadBegin(r: nat)
    | ReadWord(r: nat, i: nat)
    | ReadEnd(r: nat)
  {
    predicate OfWriter() {
      WriteBegin? || WriteWord? || WriteEnd?
    }

    predicate BumpsCounter() {
      WriteBegin? || WriteEnd?
    }
  }

  function Indices(n: nat): (s: set<nat>)
    ensures forall i: nat :: i in s <==> i < n
  {
    if n == 0 then {} else Indices(n - 1) + {n - 1}
  }

  function Bump(counter: nat): nat {
    (counter + 1) % COUNTER_MODULUS
  }

  ghost predicate Initial<Word>(s: State<Word>) {
    && s.counter == 0
    && s.writer == Resting
    && s.published == [s.data]
    && forall r :: 0 <= r < |s.readers| ==>
         s.readers[r].pc == Outside(false) && |s.readers[r].dst| == |s.data|
  }

  predicate Enabled<Word>(s: State<Word>, a: Action<Word>) {
    match a
    case WriteBegin(src) => s.writer.Resting? && |src| == |s.data|
    case WriteWord(i) => s.writer.Writing? && i in s.writer.left && i < |s.data| == |s.writer.src|
    case WriteEnd => s.writer.Writing? && s.writer.left == {}
    case ReadBegin(r) => r < |s.readers| && s.readers[r].pc.Outside?
    case ReadWord(r, i) =>
      && r < |s.readers| && s.readers[r].pc.Copying?
      && i in s.readers[r].pc.left && i < |s.data| == |s.readers[r].dst|
    case ReadEnd(r) =>
      r < |s.readers| && s.readers[r].pc.Copying? && s.readers[r].pc.left == {}
  }

  function Apply<Word>(s: State<Word>, a: Action<Word>): State<Word>
    requires Enabled(s, a)
  {
    match a
    case WriteBegin(src) =>
      s.(counter := Bump(s.counter), writer := Writing(src, Indices(|s.data|)))
    case WriteWord(i) =>
      s.(data := s.data[i := s.writer.src[i]], writer := s.writer.(left := s.writer.left - {i}))
    case WriteEnd =>
      s.(counter := Bump(s.counter), writer := Resting, published := s.published + [s.writer.src])
    case ReadBegin(r) =>
      // An odd counter means a write is in progress: give up at once.
      var pc := if s.counter % 2 == 1 then Outside(false)
                else Copying(s.counter, Indices(|s.data|));
      s.(readers := s.readers[r := s.readers[r].(pc := pc)])
    case ReadWord(r, i) =>
      var rd := s.readers[r];
      s.(readers := s.readers[r := Reader(rd.pc.(left := rd.pc.left - {i}), rd.dst[i := s.data[i]])])
    case ReadEnd(r) =>
      var rd := s.readers[r];
      s.(readers := s.readers[r := rd.(pc := Outside(s.counter == rd.pc.s1))])
  }

  /** Any interleaving, from any initial contents. */
  ghost predicate IsRun<Word>(states: seq<State<Word>>, acts: seq<Action<Word>>) {
    && |states| == |acts| + 1
    && Initial(states[0])
    && forall k :: 0 <= k < |acts| ==> IsStep(states[k], acts[k], states[k + 1])
  }

  ghost predicate IsStep<Word>(s: State<Word>, a: Action<Word>, s': State<Word>) {
    Enabled(s, a) && s' == Apply(s, a)
  }

  /** How often the counter has really been incremented. */
  function Bumps<Word>(s: State<Word>): int {
    2 * (|s.published| - 1) + if s.writer.Writing? then 1 else 0
  }

  // ---------------------------------------------------------------------------
  // The invariant
  // ---------------------------------------------------------------------------

  ghost predicate DataInv<Word>(s: State<Word>) {
    && s.published != []
    && |s.Current()| == |s.data|
    && match s.writer
       case Resting => s.data == s.Current()
       case Writing(src, left) =>
         && |src| == |s.data|
         && forall i :: 0 <= i < |s.data| ==> s.data[i] == if i in left then s.Current()[i] else src[i]
  }

  ghost predicate Inv<Word>(s: State<Word>) {
    && DataInv(s)
    && s.counter == Bumps(s) % COUNTER_MODULUS
    && forall r :: 0 <= r < |s.readers| ==> |s.readers[r].dst| == |s.data|
  }

  lemma StepKeepsInv<Word>(s: State<Word>, a: Action<Word>, s': State<Word>)
    requires Inv(s) && IsStep(s, a, s')
    ensures Inv(s')
    ensures |s'.data| == |s.data| && |s'.readers| == |s.readers|
    ensures s.published <= s'.published
    ensures Bumps(s') == Bumps(s) + if a.BumpsCounter() then 1 else 0
  {
    StepKeepsData(s, a, s');
    hide DataInv;
  }

  lemma StepKeepsData<Word>(s: State<Word>, a: Action<Word>, s': State<Word>)
    requires DataInv(s) && IsStep(s, a, s')
    ensures DataInv(s')
  {
    if a.WriteEnd? {
      assert s'.Current() == s.writer.src;
      assert s.data == s.writer.src;
    }
  }

  /** The invariant holds throughout, sizes are fixed and the published list only grows. */
  lemma RunInv<Word>(states: seq<State<Word>>, acts: seq<Action<Word>>, i: nat, k: nat)
    requires IsRun(states, acts) && i <= k < |states|
    ensures Inv(states[i]) && Inv(states[k])
    ensures |states[k].data| == |states[i].data| && |states[k].readers| == |states[i].readers|
    ensures states[i].published <= states[k].published
    ensures Bumps(states[i]) <= Bumps(states[k])
    decreases k
  {
    if k > 0 {
      if i == k {
        RunInv(states, acts, k - 1, k - 1);
      } else {
        RunInv(states, acts, i, k - 1);
      }
      assert IsStep(states[k - 1], acts[k - 1], states[k]);
      hide IsRun, IsStep, Inv, Bumps;
      StepKeepsInv(states[k - 1], acts[k - 1], states[k]);
    }
  }

  // ---------------------------------------------------------------------------
  // Read attempts
  // ---------------------------------------------------------------------------

  /** Action `i` is reader `r`'s first counter load, action `j` its second one. */
  ghost predicate Attempt<Word>(states: seq<State<Word>>, acts: seq<Action<Word>>, r: nat, i: nat, j: nat) {
    && IsRun(states, acts)
    && i < j < |acts|
    && acts[i] == ReadBegin(r)
    && acts[j] == ReadEnd(r)
    && forall k :: i < k < j ==> acts[k] != ReadBegin(r) && acts[k] != ReadEnd(r)
  }

  /** Fewer than 2^31 writes are completed between the two loads. */
  predicate NoWrap<Word>(states: seq<State<Word>>, i: nat, j: nat)
    requires i < |states| && j < |states|
  {
    |states[j].published| - |states[i].published| < WRITES_PER_WRAP
  }

  ghost predicate Succeeds<Word>(states: seq<State<Word>>, r: nat, j: nat)
    requires j + 1 < |states|
  {
    r < |states[j + 1].readers| && states[j + 1].readers[r].pc == Outside(true)
  }

  /** Reader `r` is copying after having loaded the counter in state `s0`; as long as the
      counter has not moved since, each copied word is a word of the snapshot current then. */
  ghost predicate CopyInv<Word>(s0: State<Word>, r: nat, s: State<Word>) {
    && Inv(s0) && Inv(s) && |s.data| == |s0.data|
    && r < |s.readers| && s.readers[r].pc.Copying? && s.readers[r].pc.s1 == s0.counter
    && (Bumps(s) == Bumps(s0) ==>
          && s.data == s0.Current()
          && forall w :: 0 <= w < |s.data| && w !in s.readers[r].pc.left ==>
               s.readers[r].dst[w] == s0.Current()[w])
  }

  lemma StepKeepsCopyInv<Word>(s0: State<Word>, r: nat, s: State<Word>, a: Action<Word>, s': State<Word>)
    requires CopyInv(s0, r, s) && IsStep(s, a, s') && Inv(s')
    requires Bumps(s0) <= Bumps(s) && s0.counter % 2 == 0
    requires a != ReadBegin(r) && a != ReadEnd(r)
    ensures CopyInv(s0, r, s')
  {
  }

  /** At the first load of an attempt the counter is even, and `CopyInv` holds up to its end. */
  lemma CopiedWords<Word>(
    states: seq<State<Word>>, acts: seq<Action<Word>>, r: nat, i: nat, j: nat, k: nat)
    requires Attempt(states, acts, r, i, j) && i < k <= j
    ensures states[i].counter % 2 == 0
    ensures CopyInv(states[i], r, states[k])
    decreases k
  {
    LoadWasEven(states, acts, r, i, j);
    RunInv(states, acts, i, k);
    assert IsStep(states[k - 1], acts[k - 1], states[k]);
    if k == i + 1 {
      EvenMeansResting(states[i]);
      LoadStartsCopy(states[i], r, states[k]);
    } else {
      CopiedWords(states, acts, r, i, j, k - 1);
      RunInv(states, acts, i, k - 1);
      assert acts[k - 1] != ReadBegin(r) && acts[k - 1] != ReadEnd(r);
      hide IsRun, IsStep, Inv, CopyInv, Attempt, Bumps;
      StepKeepsCopyInv(states[i], r, states[k - 1], acts[k - 1], states[k]);
    }
  }

  lemma LoadStartsCopy<Word>(s: State<Word>, r: nat, s': State<Word>)
    requires Inv(s) && Inv(s') && IsStep(s, ReadBegin(r), s') && s.counter % 2 == 0 && s.writer.Resting?
    ensures CopyInv(s, r, s')
  {
  }

  /** A reader that finds an odd counter gives up, so it does not get to a second load. */
  lemma LoadWasEven<Word>(states: seq<State<Word>>, acts: seq<Action<Word>>, r: nat, i: nat, j: nat)
    requires Attempt(states, acts, r, i, j)
    ensures states[i].counter % 2 == 0
  {
    assert IsStep(states[i], acts[i], states[i + 1]);
    assert IsStep(states[j], acts[j], states[j + 1]);
    if states[i].counter % 2 == 1 {
      StaysOutside(states, acts, r, i, j, j);
    }
  }

  lemma StaysOutside<Word>(states: seq<State<Word>>, acts: seq<Action<Word>>, r: nat, i: nat, j: nat, k: nat)
    requires Attempt(states, acts, r, i, j) && i < k <= j
    requires r < |states[i + 1].readers| && states[i + 1].readers[r].pc.Outside?
    ensures r < |states[k].readers| && states[k].readers[r].pc.Outside?
    decreases k
  {
    if k > i + 1 {
      StaysOutside(states, acts, r, i, j, k - 1);
      assert IsStep(states[k - 1], acts[k - 1], states[k]);
    }
  }

  /** While the counter has not moved since an even load, the data are the current snapshot. */
  lemma SameBumpsSameData<Word>(states: seq<State<Word>>, acts: seq<Action<Word>>, i: nat, k: nat)
    requires IsRun(states, acts) && i <= k < |states|
    requires Inv(states[i]) && states[i].counter % 2 == 0
    requires Bumps(states[k]) == Bumps(states[i])
    ensures states[k].writer.Resting? && states[k].published == states[i].published
    ensures states[k].data == states[i].Current()
  {
    RunInv(states, acts, i, k);
    EvenMeansResting(states[i]);
  }

  lemma EvenMeansResting<Word>(s: State<Word>)
    requires Inv(s)
    ensures s.counter % 2 == 0 <==> s.writer.Resting?
  {
  }

  /** With fewer than a wrap of writes in between, equal loads mean that nothing happened. */
  lemma EqualLoadsMeanNoBump<Word>(s: State<Word>, s': State<Word>)
    requires Inv(s) && Inv(s') && Bumps(s) <= Bumps(s')
    requires s.counter % 2 == 0
    requires |s'.published| - |s.published| < WRITES_PER_WRAP
    ensures s.counter == s'.counter <==> Bumps(s) == Bumps(s')
  {
  }

  // ---------------------------------------------------------------------------
  // Main results
  // ---------------------------------------------------------------------------

  /** A read that returns true delivers exactly one published snapshot, and that snapshot is
      the current one, with no write in progress, at every moment between the two loads. */
  lemma NoTornRead<Word>(states: seq<State<Word>>, acts: seq<Action<Word>>, r: nat, i: nat, j: nat)
    requires Attempt(states, acts, r, i, j) && Succeeds(states, r, j) && NoWrap(states, i, j)
    ensures forall k :: i <= k <= j + 1 ==>
      && states[k].published != [] && states[k].writer.Resting?
      && states[k].Current() == states[j + 1].readers[r].dst
      && |states[k].published| == |states[i].published|
  {
    CopiedWords(states, acts, r, i, j, j);
    RunInv(states, acts, i, j);
    assert IsStep(states[j], acts[j], states[j + 1]);
    EqualLoadsMeanNoBump(states[i], states[j]);
    var dst := states[j].readers[r].dst;
    assert dst == states[i].Current();
    forall k | i <= k <= j + 1
      ensures states[k].published == states[i].published && states[k].writer.Resting?
    {
      if k <= j {
        RunInv(states, acts, i, k);
        RunInv(states, acts, k, j);
        SameBumpsSameData(states, acts, i, k);
      } else {
        SameBumpsSameData(states, acts, i, j);
      }
    }
  }

  /** Without any proviso: a read past its first load returns true exactly if the number of
      counter increments since then is a multiple of the counter's range. */
  lemma SucceedsExactlyModuloWrap<Word>(
    states: seq<State<Word>>, acts: seq<Action<Word>>, r: nat, i: nat, j: nat)
    requires Attempt(states, acts, r, i, j)
    ensures Bumps(states[i]) <= Bumps(states[j])
    ensures Succeeds(states, r, j) <==> (Bumps(states[j]) - Bumps(states[i])) % COUNTER_MODULUS == 0
  {
    CopiedWords(states, acts, r, i, j, j);
    RunInv(states, acts, i, j);
    assert IsStep(states[j], acts[j], states[j + 1]);
    EqualResidues(Bumps(states[i]), Bumps(states[j]));
  }

  lemma EqualResidues(a: int, b: int)
    ensures a % COUNTER_MODULUS == b % COUNTER_MODULUS <==> (b - a) % COUNTER_MODULUS == 0
  {
  }

  /** Under the same proviso a read succeeds exactly when no write is in progress at the first
      load and none starts before the second: the retry loop repeats only because of a write. */
  lemma SucceedsExactlyWhenQuiet<Word>(
    states: seq<State<Word>>, acts: seq<Action<Word>>, r: nat, i: nat, j: nat)
    requires Attempt(states, acts, r, i, j) && NoWrap(states, i, j)
    ensures states[i].writer.Resting?
    ensures Succeeds(states, r, j) <==> forall k :: i < k < j ==> !acts[k].OfWriter()
  {
    CopiedWords(states, acts, r, i, j, j);
    EvenMeansResting(states[i]);
    RunInv(states, acts, i, j);
    assert IsStep(states[j], acts[j], states[j + 1]);
    EqualLoadsMeanNoBump(states[i], states[j]);
    if Succeeds(states, r, j) {
      forall k | i < k < j
        ensures !acts[k].OfWriter()
      {
        RunInv(states, acts, i, k);
        RunInv(states, acts, k, k + 1);
        RunInv(states, acts, k + 1, j);
        SameBumpsSameData(states, acts, i, k);
        assert IsStep(states[k], acts[k], states[k + 1]);
      }
    }
    if forall k :: i < k < j ==> !acts[k].OfWriter() {
      var k := i;
      while k < j
        invariant i <= k <= j && Bumps(states[k]) == Bumps(states[i])
      {
        assert IsStep(states[k], acts[k], states[k + 1]);
        k := k + 1;
      }
    }
  }

  /** A read that gives up at its first load does so exactly because a write is in progress. */
  lemma GivesUpExactlyDuringWrite<Word>(states: seq<State<Word>>, acts: seq<Action<Word>>, r: nat, i: nat)
    requires IsRun(states, acts) && i < |acts| && acts[i] == ReadBegin(r)
    ensures r < |states[i + 1].readers|
    ensures states[i + 1].readers[r].pc.Outside? <==> states[i].writer.Writing?
    ensures states[i + 1].readers[r].pc.Outside? ==> !states[i + 1].readers[r].pc.ok
  {
    RunInv(states, acts, i, i);
    assert IsStep(states[i], acts[i], states[i + 1]);
    EvenMeansResting(states[i]);
  }

  /** Of two successful reads, by the same reader or by different ones, the one that starts
      after the other has ended never delivers an older version. */
  lemma ReadsNeverGoBack<Word>(
    states: seq<State<Word>>, acts: seq<Action<Word>>,
    r1: nat, i1: nat, j1: nat, r2: nat, i2: nat, j2: nat)
    returns (v1: nat, v2: nat)
    requires Attempt(states, acts, r1, i1, j1) && Succeeds(states, r1, j1) && NoWrap(states, i1, j1)
    requires Attempt(states, acts, r2, i2, j2) && Succeeds(states, r2, j2) && NoWrap(states, i2, j2)
    requires j1 < i2
    ensures v1 <= v2 < |states[j2].published|
    ensures states[j2].published[v1] == states[j1 + 1].readers[r1].dst
    ensures states[j2].published[v2] == states[j2 + 1].readers[r2].dst
    ensures v1 == |states[j1].published| - 1 && v2 == |states[j2].published| - 1
  {
    NoTornRead(states, acts, r1, i1, j1);
    NoTornRead(states, acts, r2, i2, j2);
    RunInv(states, acts, j1, j2);
    assert j1 <= j1 <= j1 + 1 && j2 <= j2 <= j2 + 1;
    v1, v2 := |states[j1].published| - 1, |states[j2].published| - 1;
    assert states[j1].Current() == states[j1 + 1].readers[r1].dst;
    assert states[j2].Current() == states[j2 + 1].readers[r2].dst;
  }

  // ---------------------------------------------------------------------------
  // Undisturbed calls, and why the proviso is needed
  // ---------------------------------------------------------------------------

  /** What one undisturbed write leaves behind. */
  function AfterWrite<Word>(s: State<Word>, src: seq<Word>): State<Word> {
    s.(counter := Bump(Bump(s.counter)), data := src, published := s.published + [src])
  }

  ghost predicate Extends<Word>(
    states: seq<State<Word>>, acts: seq<Action<Word>>, states': seq<State<Word>>, acts': seq<Action<Word>>)
  {
    && IsRun(states', acts') && states <= states' && acts <= acts'
    && forall k :: |acts| <= k < |acts'| ==> acts'[k].OfWriter()
  }

  lemma ExtendRun<Word>(states: seq<State<Word>>, acts: seq<Action<Word>>, a: Action<Word>)
    requires IsRun(states, acts) && Enabled(states[|acts|], a)
    ensures IsRun(states + [Apply(states[|acts|], a)], acts + [a])
  {
  }

  /** One more step of the writer. */
  lemma ExtendWriter<Word>(
    states: seq<State<Word>>, acts: seq<Action<Word>>, states': seq<State<Word>>, acts': seq<Action<Word>>,
    a: Action<Word>) returns (states'': seq<State<Word>>, acts'': seq<Action<Word>>)
    requires Extends(states, acts, states', acts') && Enabled(states'[|acts'|], a) && a.OfWriter()
    ensures Extends(states, acts, states'', acts'') && |acts''| < |states''|
    ensures states''[|acts''|] == Apply(states'[|acts'|], a)
  {
    ExtendRun(states', acts', a);
    states'', acts'' := states' + [Apply(states'[|acts'|], a)], acts' + [a];
    hide Apply, Enabled;
    assert |states'| == |acts'| + 1;
    hide IsRun;
  }

  /** Half way through an undisturbed write: the first `i` words are stored. */
  function DuringWrite<Word>(s: State<Word>, src: seq<Word>, i: nat): State<Word>
    requires i <= |src| == |s.data|
  {
    s.(counter := Bump(s.counter), data := src[..i] + s.data[i..],
       writer := Writing(src, Indices(|src|) - Indices(i)))
  }

  lemma NextWordWritten<Word>(s: State<Word>, src: seq<Word>, i: nat)
    requires i < |src| == |s.data|
    ensures Enabled(DuringWrite(s, src, i), WriteWord(i))
    ensures Apply(DuringWrite(s, src, i), WriteWord(i)) == DuringWrite(s, src, i + 1)
  {
    assert Indices(|src|) - Indices(i) - {i} == Indices(|src|) - Indices(i + 1);
    assert (src[..i] + s.data[i..])[i := src[i]] == src[..i + 1] + s.data[i + 1..];
  }

  lemma WriteEnds<Word>(s: State<Word>, src: seq<Word>)
    requires |src| == |s.data| && s.writer.Resting?
    ensures Apply(s, WriteBegin(src)) == DuringWrite(s, src, 0)
    ensures var t := DuringWrite(s, src, |src|);
            Enabled(t, WriteEnd) && Apply(t, WriteEnd) == AfterWrite(s, src)
  {
    assert Indices(|src|) - Indices(0) == Indices(|src|) && src[..0] + s.data[0..] == s.data;
  }

  /** A write that nothing interrupts is a run, and it ends in `AfterWrite`. */
  lemma WriteUndisturbed<Word>(states: seq<State<Word>>, acts: seq<Action<Word>>, src: seq<Word>)
    returns (states': seq<State<Word>>, acts': seq<Action<Word>>)
    requires IsRun(states, acts) && states[|acts|].writer.Resting? && |src| == |states[|acts|].data|
    ensures Extends(states, acts, states', acts')
    ensures states'[|acts'|] == AfterWrite(states[|acts|], src)
  {
    var s := states[|acts|];
    var n := |src|;
    WriteEnds(s, src);
    assert Enabled(s, WriteBegin(src)) && Extends(states, acts, states, acts);
    hide Apply, Enabled, DuringWrite, AfterWrite, Extends, IsRun;
    states', acts' := ExtendWriter(states, acts, states, acts, WriteBegin(src));
    var i := 0;
    while i < n
      invariant 0 <= i <= n
      invariant Extends(states, acts, states', acts') && |acts'| < |states'|
      invariant states'[|acts'|] == DuringWrite(s, src, i)
    {
      NextWordWritten(s, src, i);
      states', acts' := ExtendWriter(states, acts, states', acts', WriteWord(i));
      i := i + 1;
    }
    states', acts' := ExtendWriter(states, acts, states', acts', WriteEnd);
  }

  /** What one undisturbed read leaves its reader with. */
  function AfterRead<Word>(s: State<Word>, rd: Reader<Word>): Reader<Word> {
    if s.counter % 2 == 1 then rd.(pc := Outside(false)) else Reader(Outside(true), s.data)
  }

  /** Half way through an undisturbed read: the first `i` words are copied. */
  function DuringRead<Word>(s: State<Word>, r: nat, i: nat): State<Word>
    requires r < |s.readers| && i <= |s.data| == |s.readers[r].dst|
  {
    var pc := Copying(s.counter, Indices(|s.data|) - Indices(i));
    s.(readers := s.readers[r := Reader(pc, s.data[..i] + s.readers[r].dst[i..])])
  }

  lemma NextWordRead<Word>(s: State<Word>, r: nat, i: nat)
    requires r < |s.readers| && i < |s.data| == |s.readers[r].dst|
    ensures Enabled(DuringRead(s, r, i), ReadWord(r, i))
    ensures Apply(DuringRead(s, r, i), ReadWord(r, i)) == DuringRead(s, r, i + 1)
  {
    assert Indices(|s.data|) - Indices(i) - {i} == Indices(|s.data|) - Indices(i + 1);
    assert (s.data[..i] + s.readers[r].dst[i..])[i := s.data[i]] == s.data[..i + 1] + s.readers[r].dst[i + 1..];
  }

  lemma ReadEnds<Word>(s: State<Word>, r: nat)
    requires r < |s.readers| && |s.data| == |s.readers[r].dst| && s.counter % 2 == 0 && s.readers[r].pc.Outside?
    ensures Apply(s, ReadBegin(r)) == DuringRead(s, r, 0)
    ensures var t := DuringRead(s, r, |s.data|);
            Enabled(t, ReadEnd(r)) && Apply(t, ReadEnd(r)) == s.(readers := s.readers[r := AfterRead(s, s.readers[r])])
  {
    var n := |s.data|;
    assert Indices(n) - Indices(0) == Indices(n) && s.data[..0] + s.readers[r].dst[0..] == s.readers[r].dst;
    assert s.data[..n] + s.readers[r].dst[n..] == s.data;
  }

  /** A read that nothing interrupts is a run, and it ends in `AfterRead`. */
  lemma ReadUndisturbed<Word>(states: seq<State<Word>>, acts: seq<Action<Word>>, r: nat)
    returns (states': seq<State<Word>>, acts': seq<Action<Word>>)
    requires IsRun(states, acts) && r < |states[|acts|].readers| && states[|acts|].readers[r].pc.Outside?
    requires |states[|acts|].readers[r].dst| == |states[|acts|].data|
    ensures IsRun(states', acts') && states <= states' && acts <= acts'
    ensures var s := states[|acts|];
            states'[|acts'|] == s.(readers := s.readers[r := AfterRead(s, s.readers[r])])
  {
    var s := states[|acts|];
    var n := |s.data|;
    ExtendRun(states, acts, ReadBegin(r));
    states', acts' := states + [Apply(s, ReadBegin(r))], acts + [ReadBegin(r)];
    if s.counter % 2 == 1 {
      return;
    }
    ReadEnds(s, r);
    hide Apply, Enabled, DuringRead, AfterRead;
    var i := 0;
    while i < n
      invariant 0 <= i <= n
      invariant IsRun(states', acts') && states <= states' && acts <= acts'
      invariant states'[|acts'|] == DuringRead(s, r, i)
    {
      NextWordRead(s, r, i);
      ExtendRun(states', acts', ReadWord(r, i));
      states', acts' := states' + [DuringRead(s, r, i + 1)], acts' + [ReadWord(r, i)];
      i := i + 1;
    }
    ExtendRun(states', acts', ReadEnd(r));
    states', acts' := states' + [Apply(states'[|acts'|], ReadEnd(r))], acts' + [ReadEnd(r)];
  }

  lemma BumpTwice(c: nat)
    ensures Bump(Bump(c % COUNTER_MODULUS)) == (c + 2) % COUNTER_MODULUS
  {
  }

  lemma WriteManyTimes<Word>(states: seq<State<Word>>, acts: seq<Action<Word>>, src: seq<Word>, n: nat)
    returns (states': seq<State<Word>>, acts': seq<Action<Word>>)
    requires IsRun(states, acts) && states[|acts|].writer.Resting? && |src| == |states[|acts|].data|
    requires states[|acts|].counter % 2 == 0 && states[|acts|].counter < COUNTER_MODULUS
    ensures Extends(states, acts, states', acts')
    ensures var s, s' := states[|acts|], states'[|acts'|];
            && s'.writer.Resting? && s'.readers == s.readers && s'.data == (if n > 0 then src else s.data)
            && s'.counter == (s.counter + 2 * n) % COUNTER_MODULUS
            && s'.published == s.published + seq(n, _ => src)
    decreases n
  {
    var s := states[|acts|];
    if n == 0 {
      states', acts' := states, acts;
    } else {
      var mid, midActs := WriteManyTimes(states, acts, src, n - 1);
      states', acts' := WriteUndisturbed(mid, midActs, src);
      assert seq(n, _ => src) == seq(n - 1, _ => src) + [src];
      BumpTwice(s.counter + 2 * (n - 1));
      hide IsRun, Bump;
    }
  }

  /** The bound of 2^31 writes cannot be raised: a reader that sleeps between its two words
      while exactly 2^31 writes complete returns true with a block that was never published. */
  lemma TornReadAfterFullWrap() returns (states: seq<State<int>>, acts: seq<Action<int>>, j: nat)
    ensures Attempt(states, acts, 0, 0, j) && Succeeds(states, 0, j)
    ensures |states[j].published| - |states[0].published| == WRITES_PER_WRAP
    ensures states[j + 1].readers[0].dst !in states[j + 1].published
  {
    var s0 := State(0, [0, 0], Resting, [Reader(Outside(false), [0, 0])], [[0, 0]]);
    states, acts := [s0], [];
    ExtendRun(states, acts, ReadBegin(0));
    states, acts := states + [Apply(states[0], ReadBegin(0))], acts + [ReadBegin(0)];
    ExtendRun(states, acts, ReadWord(0, 0));
    states, acts := states + [Apply(states[1], ReadWord(0, 0))], acts + [ReadWord(0, 0)];
    var early := acts;
    states, acts := WriteManyTimes(states, acts, [1, 1], WRITES_PER_WRAP);
    assert acts[..2] == early;
    var t := states[|acts|];
    assert Indices(2) - {0} == {1};
    assert t.counter == 0 && t.readers[0] == Reader(Copying(0, {1}), [0, 0]);
    ExtendRun(states, acts, ReadWord(0, 1));
    states, acts := states + [Apply(t, ReadWord(0, 1))], acts + [ReadWord(0, 1)];
    t := states[|acts|];
    assert t.readers[0].pc.left == {} && t.readers[0].dst == [0, 1];
    ExtendRun(states, acts, ReadEnd(0));
    states, acts := states + [Apply(t, ReadEnd(0))], acts + [ReadEnd(0)];
    j := |acts| - 1;
    assert acts[0] == early[0] && acts[1] == early[1];
  }

  /** What the read delivered was published at some time. */
  ghost predicate DeliversSnapshot<Word>(states: seq<State<Word>>, r: nat, j: nat)
    requires j + 1 < |states|
  {
    r < |states[j + 1].readers| && states[j + 1].readers[r].dst in states[j + 1].published
  }

  ghost predicate AtMostWrites<Word>(states: seq<State<Word>>, i: nat, j: nat, bound: nat)
    requires i < |states| && j < |states|
  {
    |states[j].published| - |states[i].published| <= bound
  }

  /** A bound on the writes between the two loads rules out torn reads if and only if it is
      below 2^31. */
  lemma BoundRulesOutTearing(bound: nat)
    ensures bound < WRITES_PER_WRAP <==>
            forall states: seq<State<int>>, acts: seq<Action<int>>, r: nat, i: nat, j: nat ::
              Attempt(states, acts, r, i, j) && Succeeds(states, r, j) && AtMostWrites(states, i, j, bound)
              ==> DeliversSnapshot(states, r, j)
  {
    if bound < WRITES_PER_WRAP {
      forall states: seq<State<int>>, acts: seq<Action<int>>, r: nat, i: nat, j: nat
        | Attempt(states, acts, r, i, j) && Succeeds(states, r, j) && AtMostWrites(states, i, j, bound)
        ensures DeliversSnapshot(states, r, j)
      {
        NoTornRead(states, acts, r, i, j);
        assert i <= j + 1 <= j + 1;
        assert states[j + 1].Current() == states[j + 1].readers[r].dst;
      }
    } else {
      var states, acts, j := TornReadAfterFullWrap();
      assert Attempt(states, acts, 0, 0, j) && Succeeds(states, 0, j) && AtMostWrites(states, 0, j, bound);
      assert !DeliversSnapshot(states, 0, j);
    }
  }
}
