/** The Robstride motor object, its command frame, and the routing of feedback frames. */
module Robstride {
  import opened Rounding
  import opened Bytes
  import opened Encoder
  import opened RealProducts

  datatype MotorType = RS00 | RS01 | RS02 | RS03 | RS04 | RS05 | RS06 | EL05

  const POS_SCALE: real := 2.0 * TURN

  /** Full scales of one motor type. */
  datatype Scales = Scales(velocity: real, kp: real, kd: real, torque: real) {
    predicate Positive() {
      velocity > 0.0 && kp > 0.0 && kd > 0.0 && torque > 0.0
    }
  }

  function ScalesOf(t: MotorType): (s: Scales)
    ensures s.Positive()
  {
    match t
    case RS00 => Scales(33.0, 500.0, 5.0, 14.0)
    case RS01 => Scales(44.0, 500.0, 5.0, 17.0)
    case RS02 => Scales(44.0, 500.0, 5.0, 17.0)
    case RS03 => Scales(20.0, 5000.0, 100.0, 60.0)
    case RS04 => Scales(15.0, 5000.0, 100.0, 120.0)
    case RS05 => Scales(50.0, 500.0, 5.0, 5.5)
    case RS06 => Scales(50.0, 5000.0, 100.0, 36.0)
    case EL05 => Scales(50.0, 500.0, 5.0, 6.0)
  }

  // ---------------------------------------------------------------------------
  // Fields
  // ---------------------------------------------------------------------------

  /** `(uint16_t)((clamp(x) / scale + 1.0) * 0x7FFF)`: the cast truncates. */
  function EncodeSigned(x: real, scale: real): int
    requires scale > 0.0
  {
    ((Clamp(x, -scale, scale) / scale + 1.0) * 32767.0).Floor
  }

  /** `(uint16_t)(clamp(x) / scale * 0xFFFF)`. */
  function EncodeUnsigned(x: real, scale: real): int
    requires scale > 0.0
  {
    (Clamp(x, 0.0, scale) / scale * 65535.0).Floor
  }

  /** What the feedback path makes of a raw code, and the matching reading of a gain code. */
  function DecodeUnit(raw: int): real {
    raw as real / 32767.0 - 1.0
  }

  function DecodeSigned(raw: int, scale: real): real {
    DecodeUnit(raw) * scale
  }

  function DecodeUnsigned(raw: int, scale: real): real {
    raw as real / 65535.0 * scale
  }

  /** A clamped value comes back never larger and less than one step smaller. */
  lemma SignedRoundTrip(x: real, scale: real)
    requires scale > 0.0
    ensures 0 <= EncodeSigned(x, scale) <= 65534
    ensures 0.0 <= Clamp(x, -scale, scale) - DecodeSigned(EncodeSigned(x, scale), scale) < scale / 32767.0
  {
    var u := Clamp(x, -scale, scale) / scale;
    UnitRange(Clamp(x, -scale, scale), scale);
    var z := (u + 1.0) * 32767.0;
    var raw := z.Floor;
    var lost := (z - raw as real) / 32767.0;
    assert raw as real / 32767.0 - 1.0 == u - lost;
    assert (u - lost) * scale == u * scale - lost * scale;
    assert u * scale == Clamp(x, -scale, scale);
    LostBound(lost, scale, 32767.0);
  }

  lemma UnsignedRoundTrip(x: real, scale: real)
    requires scale > 0.0
    ensures 0 <= EncodeUnsigned(x, scale) <= 65535
    ensures 0.0 <= Clamp(x, 0.0, scale) - DecodeUnsigned(EncodeUnsigned(x, scale), scale) < scale / 65535.0
  {
    var u := Clamp(x, 0.0, scale) / scale;
    UnitRange(Clamp(x, 0.0, scale), scale);
    var z := u * 65535.0;
    var raw := z.Floor;
    var lost := (z - raw as real) / 65535.0;
    assert raw as real / 65535.0 == u - lost;
    assert (u - lost) * scale == u * scale - lost * scale;
    assert u * scale == Clamp(x, 0.0, scale);
    LostBound(lost, scale, 65535.0);
  }

  lemma UnitRange(c: real, scale: real)
    requires scale > 0.0 && -scale <= c <= scale
    ensures -1.0 <= c / scale <= 1.0 && (c >= 0.0 ==> c / scale >= 0.0)
  {
  }

  lemma LostBound(lost: real, scale: real, steps: real)
    requires steps > 0.0 && scale > 0.0 && 0.0 <= lost < 1.0 / steps
    ensures 0.0 <= lost * scale < scale / steps
  {
  }

  /** A signed code stands for `x`, truncated by less than a step; beyond full scale it is the code
      of the end. */
  predicate Near(x: real, code: int, scale: real) {
    if x > scale then code == 65534
    else if x < -scale then code == 0
    else 0.0 <= x - (code as real / 32767.0 - 1.0) * scale < scale / 32767.0
  }

  /** The same for a gain, which lies between zero and full scale. */
  predicate NearGain(x: real, code: int, scale: real) {
    if x > scale then code == 65535
    else if x < 0.0 then code == 0
    else 0.0 <= x - code as real / 65535.0 * scale < scale / 65535.0
  }

  lemma SignedNear(x: real, scale: real)
    requires scale > 0.0
    ensures Near(x, EncodeSigned(x, scale), scale)
  {
    SignedRoundTrip(x, scale);
    DivCancelScale(1.0, scale);
    DivCancelScale(-1.0, scale);
  }

  lemma UnsignedNear(x: real, scale: real)
    requires scale > 0.0
    ensures NearGain(x, EncodeUnsigned(x, scale), scale)
  {
    UnsignedRoundTrip(x, scale);
    DivCancelScale(1.0, scale);
    DivCancelScale(0.0, scale);
  }

  /** Every code the encoder can produce decodes to a value that encodes to it again; only the
      code 65535, which lies beyond full scale, is clamped to 65534. */
  lemma CodeRoundTrip(raw: u16, scale: real)
    requires scale > 0.0
    ensures EncodeSigned(DecodeSigned(raw, scale), scale) == if raw == 65535 then 65534 else raw
  {
    var u := DecodeUnit(raw);
    ScaledClamp(u, scale);
    hide DecodeUnit;
    assert EncodeSigned(DecodeSigned(raw, scale), scale) == ((Clamp(u, -1.0, 1.0) + 1.0) * 32767.0).Floor;
    hide EncodeSigned, DecodeSigned;
    UnitCode(raw);
  }

  /** Clamping to full scale is clamping the fraction of it to one. */
  lemma ScaledClamp(u: real, scale: real)
    requires scale > 0.0
    ensures Clamp(u * scale, -scale, scale) / scale == Clamp(u, -1.0, 1.0)
  {
    DivCancelScale(u, scale);
    DivCancelScale(1.0, scale);
    DivCancelScale(-1.0, scale);
    if u < -1.0 {
      MulMonotone(u, -1.0, scale);
    } else {
      MulMonotone(-1.0, u, scale);
    }
    if u > 1.0 {
      MulMonotone(1.0, u, scale);
    } else {
      MulMonotone(u, 1.0, scale);
    }
  }

  lemma UnitCode(raw: u16)
    ensures ((Clamp(DecodeUnit(raw), -1.0, 1.0) + 1.0) * 32767.0).Floor == if raw == 65535 then 65534 else raw
  {
  }

  lemma DivCancelScale(u: real, scale: real)
    requires scale > 0.0
    ensures u * scale / scale == u
  {
  }

  // ---------------------------------------------------------------------------
  // Calibration
  // ---------------------------------------------------------------------------

  /** The offset `calibrate` stores for a raw position. */
  function PosOffset(raw: real, expected: real, mech: real): real {
    -(RoundHalfAway((raw - expected) / TURN) as real) * TURN - mech
  }

  /** The corrected position lies within half a turn of where it is expected. */
  lemma CalibratedNearExpected(raw: real, expected: real, mech: real)
    ensures Abs(raw + PosOffset(raw, expected, mech) - (expected - mech)) <= PI
  {
  }

  /** Whole turns of the raw reading do not matter, except that a reading exactly half a turn
      off is corrected to the other side when the shift carries it across the expected one. */
  lemma CalibrationIgnoresTurns(raw: real, expected: real, mech: real, turns: int)
    ensures var raw' := raw + turns as real * TURN;
            raw' + PosOffset(raw', expected, mech) == raw + PosOffset(raw, expected, mech) <==>
            || !IsHalf((raw - expected) / TURN)
            || ((raw >= expected) == (raw' >= expected))
  {
    var q := (raw - expected) / TURN;
    var raw' := raw + turns as real * TURN;
    assert (raw' - expected) / TURN == q + turns as real;
    RoundHalfAwayShift(q, turns);
    hide RoundHalfAway, IsHalf;
    var n, n' := RoundHalfAway(q), RoundHalfAway(q + turns as real);
    var d := raw' + PosOffset(raw', expected, mech) - (raw + PosOffset(raw, expected, mech));
    assert d == (turns + n - n') as real * TURN;
    hide PosOffset;
    assert d == 0.0 <==> n' == n + turns;
    assert q >= 0.0 <==> raw >= expected;
    assert q + turns as real >= 0.0 <==> raw' >= expected;
  }

  /** Turns can matter: half a turn above the expected position and half a turn below it are
      corrected to opposite sides. */
  lemma TurnsCanMatter(expected: real, mech: real)
    ensures var raw, raw' := expected + PI, expected + PI - TURN;
            raw' + PosOffset(raw', expected, mech) != raw + PosOffset(raw, expected, mech)
  {
    var raw := expected + PI;
    assert (raw - expected) / TURN == 0.5 && IsHalf(0.5);
    CalibrationIgnoresTurns(raw, expected, mech, -1);
  }

  // ---------------------------------------------------------------------------
  // The motor object
  // ---------------------------------------------------------------------------

  datatype Control = Control(pos: real, vel: real, kp: real, kd: real, ffTorque: real)

  datatype Feedback = Feedback(pos: real, vel: real, torque: real, temp: real)

  const COMM_OPERATION_CONTROL: nat := 1

  datatype CommandFrame = CommandFrame(commType: nat, torqueRaw: int, canId: int, data: seq<byte>)

  /** A control frame for this motor. */
  ghost predicate FrameFor(f: CommandFrame, canId: int) {
    f.commType == 1 && f.canId == canId && |f.data| == 8 && 0 <= f.torqueRaw < 65536
  }

  /** The frame goes to the motor, and its five codes, read high byte first, stand for these
      parameters, the position less the offset. */
  ghost predicate Stands(f: CommandFrame, kind: MotorType, canId: int, posOffset: real, c: Control) {
    var s := ScalesOf(kind);
    var d: seq<int> := f.data;
    && FrameFor(f, canId)
    && Near(c.pos - posOffset, 256 * d[0] + d[1], POS_SCALE) && Near(c.vel, 256 * d[2] + d[3], s.velocity)
    && NearGain(c.kp, 256 * d[4] + d[5], s.kp) && NearGain(c.kd, 256 * d[6] + d[7], s.kd)
    && Near(c.ffTorque, f.torqueRaw, s.torque)
  }

  /** The 29-bit id such a frame goes out with, and what the motor takes from it. */
  lemma ExtendedId(f: CommandFrame, id: int)
    requires FrameFor(f, f.canId) && 0 <= f.canId < 256
    ensures id == f.commType * 0x1000000 + f.torqueRaw * 0x100 + f.canId <==>
            id / 0x1000000 == 1 && id / 0x100 % 0x10000 == f.torqueRaw && id % 0x100 == f.canId
  {
  }

  /** A 16-bit field goes out high byte first. */
  function BigEndian(x: int): seq<byte> {
    [High(x), Low(x)]
  }

  function U16At(data: seq<byte>, i: nat): u16
    requires i + 1 < |data|
  {
    U16(data[i + 1], data[i])
  }

  lemma BigEndianRoundTrip(p: u16, v: u16, kp: u16, kd: u16)
    ensures var d: seq<int> := BigEndian(p) + BigEndian(v) + BigEndian(kp) + BigEndian(kd);
            && |d| == 8 && 256 * d[0] + d[1] == p && 256 * d[2] + d[3] == v
            && 256 * d[4] + d[5] == kp && 256 * d[6] + d[7] == kd
  {
  }

  lemma CodesFit(kind: MotorType, posOffset: real, c: Control)
    ensures var s := ScalesOf(kind);
            && var p, v := EncodeSigned(c.pos - posOffset, POS_SCALE), EncodeSigned(c.vel, s.velocity);
            && var kp, kd := EncodeUnsigned(c.kp, s.kp), EncodeUnsigned(c.kd, s.kd);
            && var t := EncodeSigned(c.ffTorque, s.torque);
            && 0 <= p < 65536 && 0 <= v < 65536 && 0 <= kp < 65536 && 0 <= kd < 65536 && 0 <= t < 65536
            && Near(c.pos - posOffset, p, POS_SCALE) && Near(c.vel, v, s.velocity)
            && NearGain(c.kp, kp, s.kp) && NearGain(c.kd, kd, s.kd) && Near(c.ffTorque, t, s.torque)
  {
    hide ScalesOf, EncodeSigned, EncodeUnsigned, DecodeSigned, DecodeUnsigned, Near, NearGain, Clamp;
    var s := ScalesOf(kind);
    SignedRoundTrip(c.pos - posOffset, POS_SCALE);
    SignedRoundTrip(c.vel, s.velocity);
    UnsignedRoundTrip(c.kp, s.kp);
    UnsignedRoundTrip(c.kd, s.kd);
    SignedRoundTrip(c.ffTorque, s.torque);
    SignedNear(c.pos - posOffset, POS_SCALE);
    SignedNear(c.vel, s.velocity);
    UnsignedNear(c.kp, s.kp);
    UnsignedNear(c.kd, s.kd);
    SignedNear(c.ffTorque, s.torque);
  }

  class RobstrideMotor {
    const kind: MotorType
    const canId: int
    const posOffsetMech: real
    var control: Control
    var feedback: Feedback
    var posOffset: real
    var calibrated: bool

    constructor (kind: MotorType, canId: int, posOffsetMech: real)
      ensures this.kind == kind && this.canId == canId && this.posOffsetMech == posOffsetMech
      ensures control == Control(0.0, 0.0, 0.0, 0.0, 0.0) && feedback == Feedback(0.0, 0.0, 0.0, 0.0)
      ensures posOffset == 0.0 && !calibrated
    {
      this.kind := kind;
      this.canId := canId;
      this.posOffsetMech := posOffsetMech;
      control := Control(0.0, 0.0, 0.0, 0.0, 0.0);
      feedback := Feedback(0.0, 0.0, 0.0, 0.0);
      posOffset := 0.0;
      calibrated := false;
    }

    function Corrected(): real
      reads this
    {
      feedback.pos + posOffset
    }

    method Calibrate(expected: real)
      modifies this`posOffset, this`calibrated
      ensures calibrated && posOffset == PosOffset(feedback.pos, expected, posOffsetMech)
      ensures Abs(Corrected() - (expected - posOffsetMech)) <= PI
    {
      CalibratedNearExpected(feedback.pos, expected, posOffsetMech);
      var diff := feedback.pos - expected;
      posOffset := -(RoundHalfAway(diff / TURN) as real) * TURN;
      posOffset := posOffset - posOffsetMech;
      calibrated := true;
    }

    method WriteFb(pos: real, vel: real, torque: real, temp: real)
      modifies this`feedback
      ensures feedback == Scaled(kind, pos, vel, torque, temp)
    {
      var s := ScalesOf(kind);
      feedback := Feedback(pos * POS_SCALE, vel * s.velocity, torque * s.torque, temp);
    }

    /** The frame that carries the current control parameters. */
    method UpdatedOperationFrame() returns (f: CommandFrame)
      ensures Stands(f, kind, canId, posOffset, control)
      ensures var s := ScalesOf(kind);
              var d: seq<int> := f.data;
              && 256 * d[0] + d[1] == EncodeSigned(control.pos - posOffset, POS_SCALE)
              && 256 * d[2] + d[3] == EncodeSigned(control.vel, s.velocity)
              && 256 * d[4] + d[5] == EncodeUnsigned(control.kp, s.kp)
              && 256 * d[6] + d[7] == EncodeUnsigned(control.kd, s.kd)
              && f.torqueRaw == EncodeSigned(control.ffTorque, s.torque)
    {
      hide EncodeSigned, EncodeUnsigned, ScalesOf, Near, NearGain;
      var s := ScalesOf(kind);
      var p := EncodeSigned(control.pos - posOffset, POS_SCALE);
      var v := EncodeSigned(control.vel, s.velocity);
      var kp := EncodeUnsigned(control.kp, s.kp);
      var kd := EncodeUnsigned(control.kd, s.kd);
      var torque := EncodeSigned(control.ffTorque, s.torque);
      CodesFit(kind, posOffset, control);
      BigEndianRoundTrip(p, v, kp, kd);
      var data := PackFour(p, v, kp, kd);
      return CommandFrame(COMM_OPERATION_CONTROL, torque, canId, data);
    }
  }

  method PackFour(p: u16, v: u16, kp: u16, kd: u16) returns (payload: seq<byte>)
    ensures payload == BigEndian(p) + BigEndian(v) + BigEndian(kp) + BigEndian(kd)
  {
    var data := new byte[8](_ => 0);
    PackU16Be(data, 0, p);
    PackU16Be(data, 2, v);
    PackU16Be(data, 4, kp);
    PackU16Be(data, 6, kd);
    return data[..];
  }

  method PackU16Be(buf: array<byte>, at: nat, val: u16)
    requires at + 1 < buf.Length
    modifies buf
    ensures buf[at] == High(val) && buf[at + 1] == Low(val)
    ensures forall i :: 0 <= i < buf.Length && i != at && i != at + 1 ==> buf[i] == old(buf[i])
  {
    buf[at] := High(val);
    buf[at + 1] := Low(val);
  }

  /** Commanding the corrected position reproduces the raw reading, under any offset: to the very
      code it came from, unless that is the one code beyond full scale. */
  lemma HoldReproducesRaw(code: u16, offset: real)
    ensures var raw := DecodeSigned(code, POS_SCALE);
            EncodeSigned(raw + offset - offset, POS_SCALE) == if code == 65535 then 65534 else code
  {
    CodeRoundTrip(code, POS_SCALE);
  }

  /** The shared-memory reader clamps the commanded position first. That is harmless exactly if
      the corrected position is within full scale, and the code still survives it exactly if,
      besides, the clamp moves the position down from the lowest code (or down to a value still
      beyond full scale), or up by less than a step or from the highest code. */
  lemma HoldThroughClamp(code: u16, offset: real)
    ensures var raw := DecodeSigned(code, POS_SCALE);
            var corrected := raw + offset;
            var commanded := Clamp(corrected, -POS_SCALE, POS_SCALE);
            && (commanded == corrected <==> Abs(corrected) <= POS_SCALE)
            && (EncodeSigned(commanded - offset, POS_SCALE) == (if code == 65535 then 65534 else code) <==>
                  || Abs(corrected) <= POS_SCALE
                  || (corrected > POS_SCALE && (code == 0 || (code == 65535 && offset <= 0.0)))
                  || (corrected < -POS_SCALE && (code >= 65534 || -POS_SCALE - corrected < POS_SCALE / 32767.0)))
  {
  }

  /** The clamp can lose the code: a motor at raw zero whose corrected position lies a full scale
      beyond the end is commanded elsewhere. */
  lemma ClampCanMoveMotor() returns (code: u16, offset: real)
    ensures var raw := DecodeSigned(code, POS_SCALE);
            EncodeSigned(Clamp(raw + offset, -POS_SCALE, POS_SCALE) - offset, POS_SCALE) != code
  {
    code, offset := 32767, 2.0 * POS_SCALE;
    HoldThroughClamp(code, offset);
  }

  /** Any raw reading within full scale comes back to less than one step, under any offset. */
  lemma HoldWithinOneStep(raw: real, offset: real)
    requires Abs(raw) <= POS_SCALE
    ensures 0.0 <= raw - DecodeSigned(EncodeSigned(raw + offset - offset, POS_SCALE), POS_SCALE) < POS_SCALE / 32767.0
  {
    SignedRoundTrip(raw, POS_SCALE);
  }

  /** The clamp is harmless after calibration whenever the expected position is within three half
      turns of the mechanical offset. */
  lemma CalibratedHold(raw: real, expected: real, mech: real)
    requires Abs(expected - mech) <= 3.0 * PI
    ensures Abs(raw + PosOffset(raw, expected, mech)) <= POS_SCALE
    ensures var corrected := raw + PosOffset(raw, expected, mech);
            Clamp(corrected, -POS_SCALE, POS_SCALE) == corrected
  {
    CalibratedNearExpected(raw, expected, mech);
    hide PosOffset;
  }

  // ---------------------------------------------------------------------------
  // Feedback frames
  // ---------------------------------------------------------------------------

  /** The fields of a 29-bit id that the parser looks at. */
  datatype RxFrame = RxFrame(canId: nat, data: seq<byte>)

  datatype Parsed = Parsed(motorId: nat, error: nat, pos: real, vel: real, torque: real, temp: real)

  function ParseRxFrame(f: RxFrame): Parsed
    requires |f.data| == 8
  {
    Parsed(
      f.canId / 0x100 % 256, f.canId / 0x10000 % 64,
      DecodeUnit(U16At(f.data, 0)), DecodeUnit(U16At(f.data, 2)), DecodeUnit(U16At(f.data, 4)),
      U16At(f.data, 6) as real * 0.1)
  }

  /** An id with these bits: eight of no interest, the motor's id, six error bits, and the rest. */
  function AnswerId(low: nat, motorId: nat, error: nat, rest: nat): nat {
    low + 0x100 * motorId + 0x10000 * error + 0x400000 * rest
  }

  /** Some such id of this motor with this error. */
  ghost predicate IsAnswer(canId: nat, motorId: int, error: nat) {
    && 0 <= motorId < 256 && error < 64
    && exists low: nat, rest: nat :: low < 256 && canId == AnswerId(low, motorId, error, rest)
  }

  lemma ParsesAnswer(f: RxFrame, low: nat, motorId: nat, error: nat, rest: nat)
    requires |f.data| == 8 && low < 256 && motorId < 256 && error < 64
    requires f.canId == low + 0x100 * motorId + 0x10000 * error + 0x400000 * rest
    ensures ParseRxFrame(f).motorId == motorId && ParseRxFrame(f).error == error
  {
    var top := error + 64 * rest;
    var upper := motorId + 256 * top;
    assert f.canId == low + 256 * upper && f.canId / 256 == upper && upper % 256 == motorId;
    assert f.canId == low + 256 * motorId + 65536 * top && f.canId / 65536 == top && top % 64 == error;
  }

  lemma AllBits(id: nat)
    ensures id == AnswerId(id % 256, id / 0x100 % 256, id / 0x10000 % 64, id / 0x400000)
  {
    var upper, top := id / 256, id / 0x10000;
    assert upper / 256 == top && top / 64 == id / 0x400000;
  }

  /** Every id is the answer of exactly one motor with exactly one error, the parsed ones. */
  lemma AnswerIsParsed(f: RxFrame, motorId: int, error: nat)
    requires |f.data| == 8
    ensures IsAnswer(f.canId, motorId, error) <==> ParseRxFrame(f).motorId == motorId && ParseRxFrame(f).error == error
  {
    AllBits(f.canId);
    if IsAnswer(f.canId, motorId, error) {
      var low': nat, rest': nat :| low' < 256 && f.canId == AnswerId(low', motorId, error, rest');
      ParsesAnswer(f, low', motorId, error, rest');
    }
  }

  /** The feedback that a motor of this type reports with these eight bytes. */
  ghost predicate Reads(fb: Feedback, kind: MotorType, d: seq<int>) {
    && |d| == 8
    && fb.pos == ((256 * d[0] + d[1]) as real / 32767.0 - 1.0) * POS_SCALE
    && fb.vel == ((256 * d[2] + d[3]) as real / 32767.0 - 1.0) * ScalesOf(kind).velocity
    && fb.torque == ((256 * d[4] + d[5]) as real / 32767.0 - 1.0) * ScalesOf(kind).torque
    && fb.temp == (256 * d[6] + d[7]) as real * 0.1
  }

  lemma ScaledReads(kind: MotorType, f: RxFrame)
    requires |f.data| == 8
    ensures var p := ParseRxFrame(f); Reads(Scaled(kind, p.pos, p.vel, p.torque, p.temp), kind, f.data)
  {
    hide ScalesOf, DecodeUnit, U16At;
    UnitOfWord(f.data, 0);
    UnitOfWord(f.data, 2);
    UnitOfWord(f.data, 4);
    UnitOfWord(f.data, 6);
  }

  lemma UnitOfWord(d: seq<byte>, i: nat)
    requires i + 1 < |d|
    ensures U16At(d, i) == 256 * d[i] as int + d[i + 1]
    ensures DecodeUnit(U16At(d, i)) == (256 * d[i] as int + d[i + 1]) as real / 32767.0 - 1.0
  {
  }

  /** Normalised readings under a motor type's own scales. */
  function Scaled(kind: MotorType, pos: real, vel: real, torque: real, temp: real): Feedback {
    var s := ScalesOf(kind);
    Feedback(pos * POS_SCALE, vel * s.velocity, torque * s.torque, temp)
  }

  /** The table of feedback targets, indexed by motor id. */
  class RxHandler {
    const maxId: nat
    const table: array<RobstrideMotor?>

    constructor (maxId: nat)
      ensures fresh(table) && this.maxId == maxId && table.Length == maxId
      ensures forall id :: 0 <= id < maxId ==> table[id] == null
    {
      this.maxId := maxId;
      table := new RobstrideMotor?[maxId](_ => null);
    }

    /** Ids outside the table are passed over; of two motors with one id the later one stays. */
    method RegisterVector(motors: seq<RobstrideMotor>)
      requires table.Length == maxId
      modifies table
      ensures forall k: nat :: k < |motors| && LastListed(motors, k) && 0 <= motors[k].canId < maxId ==>
                table[motors[k].canId] == motors[k]
      ensures forall id :: 0 <= id < maxId && (forall k :: 0 <= k < |motors| ==> motors[k].canId != id) ==>
                table[id] == old(table[id])
      ensures forall id :: 0 <= id < maxId ==> table[id] == LastWithId(motors, id, old(table[id]))
    {
      for k := 0 to |motors|
        invariant forall id :: 0 <= id < maxId ==> table[id] == LastWithId(motors[..k], id, old(table[id]))
      {
        assert motors[..k + 1][..k] == motors[..k];
        var motor := motors[k];
        if 0 <= motor.canId < maxId {
          table[motor.canId] := motor;
        }
      }
      assert motors[..|motors|] == motors;
      forall k: nat | k < |motors| && LastListed(motors, k) && 0 <= motors[k].canId < maxId
        ensures table[motors[k].canId] == motors[k]
      {
        LastListedIs(motors, k, old(table[motors[k].canId]));
      }
      forall id | 0 <= id < maxId && (forall k :: 0 <= k < |motors| ==> motors[k].canId != id)
        ensures table[id] == old(table[id])
      {
        NoneListed(motors, id, old(table[id]));
      }
    }

    /** Which motor, if any, a feedback frame with this id is for. */
    ghost function Addressee(id: int): set<RobstrideMotor>
      reads table
      requires table.Length == maxId
    {
      if 0 <= id < maxId && table[id] != null then {table[id]} else {}
    }

    /** Only the addressee's feedback changes, under its own scales. */
    method WriteFb(id: int, pos: real, vel: real, torque: real, temp: real)
      requires table.Length == maxId
      modifies Addressee(id)`feedback
      ensures forall m :: m in Addressee(id) ==> m.feedback == Scaled(m.kind, pos, vel, torque, temp)
    {
      if 0 <= id < maxId && table[id] != null {
        table[id].WriteFb(pos, vel, torque, temp);
      }
    }

    /** One received frame: the motor in its id takes the eight bytes over. A frame with error bits
        ends the receiving thread instead. */
    method HandleFrame(f: RxFrame) returns (stop: bool)
      requires table.Length == maxId && |f.data| == 8
      modifies Addressee(ParseRxFrame(f).motorId)`feedback
      ensures forall motorId, error :: IsAnswer(f.canId, motorId, error) ==>
                && stop == (error != 0)
                && forall m :: m in Addressee(motorId) ==>
                     if stop then m.feedback == old(m.feedback) else Reads(m.feedback, m.kind, f.data)
    {
      var p := ParseRxFrame(f);
      forall motorId, error | IsAnswer(f.canId, motorId, error)
        ensures motorId == p.motorId && error == p.error
      {
        AnswerIsParsed(f, motorId, error);
      }
      hide Reads, IsAnswer;
      if p.error != 0 {
        return true;
      }
      WriteFb(p.motorId, p.pos, p.vel, p.torque, p.temp);
      forall m | m in Addressee(p.motorId)
        ensures Reads(m.feedback, m.kind, f.data)
      {
        ScaledReads(m.kind, f);
      }
      return false;
    }
  }

  /** The last motor with this id, or what was there before. */
  ghost function LastWithId(motors: seq<RobstrideMotor>, id: int, before: RobstrideMotor?): RobstrideMotor? {
    if motors == [] then before
    else if motors[|motors| - 1].canId == id then motors[|motors| - 1]
    else LastWithId(motors[..|motors| - 1], id, before)
  }

  /** No later motor has the same id. */
  ghost predicate LastListed(motors: seq<RobstrideMotor>, k: nat)
    requires k < |motors|
  {
    forall j :: k < j < |motors| ==> motors[j].canId != motors[k].canId
  }

  lemma {:induction false} LastListedIs(motors: seq<RobstrideMotor>, k: nat, before: RobstrideMotor?)
    requires k < |motors| && LastListed(motors, k)
    ensures LastWithId(motors, motors[k].canId, before) == motors[k]
    decreases |motors|
  {
    if k < |motors| - 1 {
      LastListedIs(motors[..|motors| - 1], k, before);
    }
  }

  lemma {:induction false} NoneListed(motors: seq<RobstrideMotor>, id: int, before: RobstrideMotor?)
    requires forall k :: 0 <= k < |motors| ==> motors[k].canId != id
    ensures LastWithId(motors, id, before) == before
  {
    if motors != [] {
      NoneListed(motors[..|motors| - 1], id, before);
    }
  }

  ghost predicate DistinctIds(motors: seq<RobstrideMotor>) {
    forall i, j :: 0 <= i < j < |motors| ==> motors[i].canId != motors[j].canId
  }

  /** Among motors with distinct ids, the table entry for a motor's id is that motor, and an id
      nobody has leads nowhere. */
  lemma {:induction false} TableFindsMotor(motors: seq<RobstrideMotor>, id: int)
    requires DistinctIds(motors)
    ensures forall i :: 0 <= i < |motors| && motors[i].canId == id ==> LastWithId(motors, id, null) == motors[i]
    ensures (forall i :: 0 <= i < |motors| ==> motors[i].canId != id) ==> LastWithId(motors, id, null) == null
  {
    if motors != [] {
      TableFindsMotor(motors[..|motors| - 1], id);
    }
  }

  const MAX_ID: nat := 51
  const CAN_ID_RIGHT_REAR_KNEE_PITCH: int := 0x33

  /** A motor's feedback reaches it exactly if its id is below the table size. The configured
      id 0x33 of the right rear knee is not: none of its frames is ever stored. */
  method RegisterAndAddress(motors: seq<RobstrideMotor>) returns (handler: RxHandler)
    requires DistinctIds(motors)
    ensures fresh(handler) && handler.maxId == MAX_ID == handler.table.Length
    ensures forall i :: 0 <= i < |motors| ==>
              handler.Addressee(motors[i].canId) == if 0 <= motors[i].canId < MAX_ID then {motors[i]} else {}
    ensures handler.Addressee(CAN_ID_RIGHT_REAR_KNEE_PITCH) == {}
    ensures forall id :: 0 <= id < MAX_ID && handler.table[id] != null ==>
              handler.table[id] in motors && handler.table[id].canId == id
  {
    handler := new RxHandler(MAX_ID);
    handler.RegisterVector(motors);
    forall id | 0 <= id < MAX_ID && handler.table[id] != null
      ensures handler.table[id] in motors && handler.table[id].canId == id
    {
      TableFindsMotor(motors, id);
    }
    forall i | 0 <= i < |motors| && 0 <= motors[i].canId < MAX_ID
      ensures handler.table[motors[i].canId] == motors[i]
    {
      TableFindsMotor(motors, motors[i].canId);
    }
  }

  /** A motor that echoes the codes of a command in a feedback frame makes the host read back
      each clamped value, never larger and less than one step smaller. */
  lemma EchoReadsBack(kind: MotorType, d: seq<int>, fb: Feedback, pos: real, vel: real, torque: real)
    requires Reads(fb, kind, d)
    requires 256 * d[0] + d[1] == EncodeSigned(pos, POS_SCALE)
    requires 256 * d[2] + d[3] == EncodeSigned(vel, ScalesOf(kind).velocity)
    requires 256 * d[4] + d[5] == EncodeSigned(torque, ScalesOf(kind).torque)
    ensures var s := ScalesOf(kind);
            && 0.0 <= Clamp(pos, -POS_SCALE, POS_SCALE) - fb.pos < POS_SCALE / 32767.0
            && 0.0 <= Clamp(vel, -s.velocity, s.velocity) - fb.vel < s.velocity / 32767.0
            && 0.0 <= Clamp(torque, -s.torque, s.torque) - fb.torque < s.torque / 32767.0
  {
    hide EncodeSigned, Clamp, ScalesOf;
    var s := ScalesOf(kind);
    EchoedField(pos, POS_SCALE, (256 * d[0] + d[1]) as real / 32767.0 - 1.0);
    EchoedField(vel, s.velocity, (256 * d[2] + d[3]) as real / 32767.0 - 1.0);
    EchoedField(torque, s.torque, (256 * d[4] + d[5]) as real / 32767.0 - 1.0);
  }

  lemma EchoedField(x: real, scale: real, unit: real)
    requires scale > 0.0 && unit == DecodeUnit(EncodeSigned(x, scale))
    ensures 0.0 <= Clamp(x, -scale, scale) - unit * scale < scale / 32767.0
  {
    SignedRoundTrip(x, scale);
  }
}
