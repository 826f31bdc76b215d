/** Arithmetic on the SPG actuators' 14-bit single-turn encoder. */
module Encoder {
  import opened Wrappers
  import opened Rounding
  import opened Bytes

  const ENC_MOD: int := 16384
  const ENC_HALF: int := 8192

  /** The double `math.pi` stands for. */
  const PI: real := 3.141592653589793
  const TURN: real := 2.0 * PI

  const CMD_WRITE_ENCODER_OFFSET: byte := 0x91

  /** `x & 0x3FFF`, also for negative `x`. */
  function WrapU14(x: int): int {
    x % ENC_MOD
  }

  function ShortestDelta(curr: int, prev: int): int {
    var delta := WrapU14(curr) - WrapU14(prev);
    if delta > ENC_HALF then delta - ENC_MOD
    else if delta < -ENC_HALF then delta + ENC_MOD
    else delta
  }

  /** Python's `x % m` for a positive float `m`. */
  function FloorMod(x: real, m: real): real
    requires m > 0.0
  {
    x - (x / m).Floor as real * m
  }

  /** The angle of `n` counts. */
  function CountAngle(n: int): real {
    n as real * (TURN / ENC_MOD as real)
  }

  function U14CountToRad(cnt: int): real {
    CountAngle(WrapU14(cnt))
  }

  function SignedU14CountToRad(cnt: int): real {
    var value := WrapU14(cnt);
    CountAngle(if value >= ENC_HALF then value - ENC_MOD else value)
  }

  function RadToU14Count(rad: real): (n: int)
    ensures 0 <= n < ENC_MOD
  {
    RoundHalfAway(FloorMod(rad, TURN) / TURN * ENC_MOD as real) % ENC_MOD
  }

  // ---------------------------------------------------------------------------
  // Counts and radians
  // ---------------------------------------------------------------------------

  /** An angle of exactly `n` counts, of any sign and any number of turns, converts to `n`
      modulo one turn. */
  lemma ExactCounts(n: int)
    ensures RadToU14Count(CountAngle(n)) == WrapU14(n)
  {
    var rad := CountAngle(n);
    var turns := n / ENC_MOD;
    assert n == turns * ENC_MOD + WrapU14(n);
    var part := WrapU14(n) as real / ENC_MOD as real;
    assert rad / TURN == turns as real + part;
    assert (rad / TURN).Floor == turns;
    assert FloorMod(rad, TURN) == part * TURN;
    RoundHalfAwayUnique(WrapU14(n) as real, WrapU14(n));
  }

  /** Both ways of reading a count as an angle convert back to the same count. */
  lemma CountRadCount(cnt: int)
    ensures RadToU14Count(U14CountToRad(cnt)) == WrapU14(cnt)
    ensures RadToU14Count(SignedU14CountToRad(cnt)) == WrapU14(cnt)
    ensures 0.0 <= U14CountToRad(cnt) < TURN && -PI <= SignedU14CountToRad(cnt) < PI
  {
    var value := WrapU14(cnt);
    assert WrapU14(value) == value == WrapU14(value - ENC_MOD);
    ExactCounts(value);
    ExactCounts(value - ENC_MOD);
  }

  /** Converting an angle to a count loses at most half a count, up to whole turns. */
  lemma RadCountRad(rad: real) returns (turns: int)
    ensures Abs(CountAngle(RadToU14Count(rad)) + turns as real * TURN - rad) <= PI / ENC_MOD as real
  {
    var k := (rad / TURN).Floor;
    var x := FloorMod(rad, TURN) / TURN * ENC_MOD as real;
    assert FloorMod(rad, TURN) / TURN == rad / TURN - k as real;
    var n := RoundHalfAway(x);
    assert 0 <= n <= ENC_MOD;
    turns := if n == ENC_MOD then k + 1 else k;
  }

  // ---------------------------------------------------------------------------
  // Setting the position
  // ---------------------------------------------------------------------------

  /** Writes `offset & 0xFFFF`, little endian, into the last two bytes. */
  function WriteOffsetPayload(offset: int): seq<byte> {
    [CMD_WRITE_ENCODER_OFFSET, 0, 0, 0, 0, 0, Low(offset), High(offset)]
  }

  function OffsetFor(original: int, desired: int): (offset: int)
    ensures 0 <= offset < ENC_MOD
  {
    (desired - WrapU14(original)) % ENC_MOD
  }

  function SetPositionPayload(original: int, desiredRad: real): seq<byte> {
    WriteOffsetPayload(OffsetFor(original, RadToU14Count(desiredRad)))
  }

  function AckEncoderOffset(payload: seq<byte>): Option<u16> {
    if |payload| == 8 && payload[0] == CMD_WRITE_ENCODER_OFFSET then Some(U16(payload[6], payload[7])) else None
  }

  /** The eight bytes that write this offset, low byte first at the end. */
  ghost predicate WritesOffset(d: seq<int>, offset: int) {
    && |d| == 8 && d[0] == 0x91 && d[1] == d[2] == d[3] == d[4] == d[5] == 0
    && d[6] + 256 * d[7] == offset
  }

  /** Adding the acknowledged offset to the original reading gives the desired count, and the
      angle then read is the desired one up to half a count and whole turns. */
  lemma SetPositionReachesDesired(original: int, desiredRad: real) returns (offset: u16, turns: int)
    ensures WritesOffset(SetPositionPayload(original, desiredRad), offset)
    ensures AckEncoderOffset(SetPositionPayload(original, desiredRad)) == Some(offset) && offset < ENC_MOD
    ensures WrapU14(original + offset) == RadToU14Count(desiredRad)
    ensures Abs(U14CountToRad(original + offset) + turns as real * TURN - desiredRad) <= PI / ENC_MOD as real
  {
    hide U14CountToRad, SetPositionPayload, WritesOffset, AckEncoderOffset;
    offset := SetPositionCount(original, desiredRad);
    assert U14CountToRad(original + offset) == CountAngle(RadToU14Count(desiredRad)) by {
      CountIsAngle(original + offset);
    }
    turns := RadCountRad(desiredRad);
  }

  lemma CountIsAngle(cnt: int)
    ensures U14CountToRad(cnt) == CountAngle(WrapU14(cnt))
  {
  }

  lemma SetPositionCount(original: int, desiredRad: real) returns (offset: u16)
    ensures WritesOffset(SetPositionPayload(original, desiredRad), offset)
    ensures AckEncoderOffset(SetPositionPayload(original, desiredRad)) == Some(offset) && offset < ENC_MOD
    ensures WrapU14(original + offset) == RadToU14Count(desiredRad)
  {
    offset := OffsetReaches(original, RadToU14Count(desiredRad));
  }

  lemma AckReports(offset: u16)
    ensures WritesOffset(WriteOffsetPayload(offset), offset)
    ensures AckEncoderOffset(WriteOffsetPayload(offset)) == Some(offset)
  {
  }

  lemma OffsetReaches(original: int, desired: int) returns (offset: u16)
    requires 0 <= desired < ENC_MOD
    ensures offset == OffsetFor(original, desired) < ENC_MOD
    ensures WritesOffset(WriteOffsetPayload(offset), offset)
    ensures AckEncoderOffset(WriteOffsetPayload(offset)) == Some(offset)
    ensures WrapU14(original + offset) == desired
  {
    hide OffsetFor, WrapU14, WriteOffsetPayload, AckEncoderOffset;
    offset := OffsetFor(original, desired);
    AckReports(offset);
    OffsetAddsUp(original, desired);
  }

  lemma OffsetAddsUp(original: int, desired: int)
    requires 0 <= desired < ENC_MOD
    ensures WrapU14(original + OffsetFor(original, desired)) == desired
  {
  }

  // ---------------------------------------------------------------------------
  // Multi-turn displacement
  // ---------------------------------------------------------------------------

  /** One step is recovered exactly when it is at most half a turn, and an exact half turn
      leads away from the end of the count range it starts in. */
  lemma DeltaRecoversStep(curr: int, prev: int)
    ensures ShortestDelta(curr, prev) == curr - prev <==>
            && -ENC_HALF <= curr - prev <= ENC_HALF
            && (curr - prev == ENC_HALF ==> WrapU14(prev) < ENC_HALF)
            && (curr - prev == -ENC_HALF ==> WrapU14(prev) >= ENC_HALF)
  {
  }

  /** Right or not, the delta is at most half a turn and right up to whole turns. */
  lemma DeltaIsShort(curr: int, prev: int)
    ensures -ENC_HALF <= ShortestDelta(curr, prev) <= ENC_HALF
    ensures (ShortestDelta(curr, prev) - (curr - prev)) % ENC_MOD == 0
  {
  }

  /** What a reader that only sees wrapped readings adds up. */
  function TotalDelta(readings: seq<int>): int {
    if |readings| <= 1 then 0
    else TotalDelta(readings[..|readings| - 1])
         + ShortestDelta(readings[|readings| - 1], readings[|readings| - 2])
  }

  ghost predicate StepsBelowHalfTurn(positions: seq<int>) {
    forall i :: 0 < i < |positions| ==> -ENC_HALF < positions[i] - positions[i - 1] < ENC_HALF
  }

  ghost predicate WrappedReadings(readings: seq<int>, positions: seq<int>) {
    && |readings| == |positions|
    && forall i :: 0 <= i < |readings| ==> WrapU14(readings[i]) == WrapU14(positions[i])
  }

  /** If every true step is below half a turn, the sum of the shortest deltas of the wrapped
      readings is the exact displacement over any number of turns. */
  lemma {:induction false} TotalDisplacement(readings: seq<int>, positions: seq<int>)
    requires |positions| > 0 && WrappedReadings(readings, positions) && StepsBelowHalfTurn(positions)
    ensures TotalDelta(readings) == positions[|positions| - 1] - positions[0]
  {
    var n := |positions|;
    if n > 1 {
      TotalDisplacement(readings[..n - 1], positions[..n - 1]);
      DeltaRecoversStep(positions[n - 1], positions[n - 2]);
    }
  }
}
