/** Frame payloads of the SPG actuators: the MIT command, the zero-set command and its
    acknowledgement. */
module SpgProtocol {
  import opened Wrappers
  import opened Rounding
  import opened Bytes
  import opened RealProducts

  const CMD_MIT_CONTROL: byte := 0xC0
  const CMD_MIT_ENTER: byte := 0xC1
  const CMD_MIT_EXIT: byte := 0xC2
  const CMD_MIT_SET_ZERO: byte := 0xC3

  const MAX_16_BIT: nat := 65535
  const MAX_12_BIT: nat := 4095
  const MAX_8_BIT: nat := 255

  datatype Error = OutOfRange | DivisionByZero

  /** Ranges of the five fields; nothing checks that they are positive. */
  datatype MitConfig = MitConfig(pMax: real, vMax: real, kpMax: real, kdMax: real, tauMax: real) {
    predicate Positive() {
      pMax > 0.0 && vMax > 0.0 && kpMax > 0.0 && kdMax > 0.0 && tauMax > 0.0
    }
  }

  datatype Setpoint = Setpoint(position: real, velocity: real, kp: real, kd: real, torque: real) {
    predicate InRange(cfg: MitConfig) {
      && -cfg.pMax <= position <= cfg.pMax
      && -cfg.vMax <= velocity <= cfg.vMax
      && 0.0 <= kp <= cfg.kpMax
      && 0.0 <= kd <= cfg.kdMax
      && -cfg.tauMax <= torque <= cfg.tauMax
    }
  }

  /** The five integers of a MIT command. */
  datatype Fields = Fields(p: int, v: int, kp: int, kd: int, t: int) {
    predicate Fit() {
      && 0 <= p <= MAX_16_BIT && 0 <= v <= MAX_12_BIT && 0 <= kp <= MAX_12_BIT
      && 0 <= kd <= MAX_8_BIT && 0 <= t <= MAX_8_BIT
    }
  }

  /** The controller rounds halves away from zero, the dashboard to even. */
  datatype Rule = HalfAway | HalfEven {
    function Round(x: real): (n: int)
      ensures Abs(n as real - x) <= 0.5
    {
      if HalfAway? then RoundHalfAway(x) else RoundHalfEven(x)
    }
  }

  // ---------------------------------------------------------------------------
  // One field
  // ---------------------------------------------------------------------------

  /** The exact, unrounded count of `x`. */
  function Count(x: real, lo: real, hi: real, maxCode: nat): real
    requires lo < hi
  {
    (x - lo) * maxCode as real / (hi - lo)
  }

  /** The value in the middle of a code's interval. */
  function Dequantise(code: int, lo: real, hi: real, maxCode: nat): real
    requires maxCode > 0
  {
    lo + code as real * ((hi - lo) / maxCode as real)
  }

  function FloatToUint(rule: Rule, x: real, lo: real, hi: real, maxCode: nat): Result<int, Error> {
    if x < lo || x > hi then Err(OutOfRange)
    else if hi - lo == 0.0 then Err(DivisionByZero)
    else Ok(rule.Round(Count(x, lo, hi, maxCode)))
  }

  /** The code fits its field, and the value it stands for is at most half a step from `x`. */
  ghost predicate StandsFor(code: int, x: real, lo: real, hi: real, maxCode: nat)
    requires maxCode > 0
  {
    && 0 <= code <= maxCode
    && Abs(Dequantise(code, lo, hi, maxCode) - x) <= (hi - lo) / maxCode as real / 2.0
  }

  lemma QuantiseError(rule: Rule, x: real, lo: real, hi: real, maxCode: nat)
    requires lo <= x <= hi && lo < hi && maxCode > 0
    ensures FloatToUint(rule, x, lo, hi, maxCode).Ok?
    ensures StandsFor(FloatToUint(rule, x, lo, hi, maxCode).value, x, lo, hi, maxCode)
  {
    var z := Count(x, lo, hi, maxCode);
    CountInRange(x, lo, hi, maxCode);
    RoundedCount(rule, z, maxCode);
    CodeMeaning(x, lo, hi, maxCode, rule.Round(z));
    hide Count, Dequantise, Rule.Round;
  }

  lemma CountInRange(x: real, lo: real, hi: real, maxCode: nat)
    requires lo <= x <= hi && lo < hi
    ensures 0.0 <= Count(x, lo, hi, maxCode) <= maxCode as real
  {
    CountBounds(x - lo, hi - lo, maxCode as real);
  }

  lemma CodeMeaning(x: real, lo: real, hi: real, maxCode: nat, code: int)
    requires lo < hi && maxCode > 0 && -0.5 <= code as real - Count(x, lo, hi, maxCode) <= 0.5
    ensures Abs(Dequantise(code, lo, hi, maxCode) - x) <= (hi - lo) / maxCode as real / 2.0
  {
  }

  lemma RoundedCount(rule: Rule, z: real, maxCode: nat)
    requires 0.0 <= z <= maxCode as real
    ensures 0 <= rule.Round(z) <= maxCode && -0.5 <= rule.Round(z) as real - z <= 0.5
  {
  }

  lemma CountBounds(a: real, span: real, m: real)
    requires 0.0 <= a <= span && span > 0.0 && m >= 0.0
    ensures 0.0 <= a * m / span <= m
  {
    MulMonotone(0.0, a, m);
    MulMonotone(a, span, m);
    DivMonotone(0.0, a * m, span);
    DivMonotone(a * m, span * m, span);
    DivCancel(span, m);
  }

  lemma DivCancel(d: real, m: real)
    requires d > 0.0
    ensures d * m / d == m
  {
  }

  lemma DivMonotone(a: real, b: real, d: real)
    requires a <= b && d > 0.0
    ensures a / d <= b / d
  {
  }

  lemma QuantiseMonotone(x: real, y: real, lo: real, hi: real, maxCode: nat)
    requires lo <= x <= y <= hi && lo < hi
    ensures FloatToUint(HalfAway, x, lo, hi, maxCode).value <= FloatToUint(HalfAway, y, lo, hi, maxCode).value
  {
    MulMonotone(x - lo, y - lo, maxCode as real);
    DivMonotone((x - lo) * maxCode as real, (y - lo) * maxCode as real, hi - lo);
    RoundHalfAwayMonotone(Count(x, lo, hi, maxCode), Count(y, lo, hi, maxCode));
  }

  // ---------------------------------------------------------------------------
  // The MIT command
  // ---------------------------------------------------------------------------

  /** All five ranges are checked before any field is converted. */
  function Quantise(rule: Rule, cfg: MitConfig, s: Setpoint): Result<Fields, Error> {
    if !s.InRange(cfg) then Err(OutOfRange)
    else
      var p := FloatToUint(rule, s.position, -cfg.pMax, cfg.pMax, MAX_16_BIT);
      var v := FloatToUint(rule, s.velocity, -cfg.vMax, cfg.vMax, MAX_12_BIT);
      var kp := FloatToUint(rule, s.kp, 0.0, cfg.kpMax, MAX_12_BIT);
      var kd := FloatToUint(rule, s.kd, 0.0, cfg.kdMax, MAX_8_BIT);
      var t := FloatToUint(rule, s.torque, -cfg.tauMax, cfg.tauMax, MAX_8_BIT);
      if p.Ok? && v.Ok? && kp.Ok? && kd.Ok? && t.Ok? then
        Ok(Fields(p.value, v.value, kp.value, kd.value, t.value))
      else
        Err(DivisionByZero)
  }

  function EncodeFields(f: Fields): seq<byte> {
    [CMD_MIT_CONTROL,
     f.p / 256 % 256, f.p % 256,
     f.v / 16 % 256,
     f.v % 16 * 16 + f.kp / 256 % 16, f.kp % 256,
     f.kd % 256, f.t % 256]
  }

  /** How a receiver takes the 16/12/12/8/8 bits apart. */
  function DecodeFields(b: seq<byte>): Fields
    requires |b| == 8
  {
    var (b1, b3, b4) := (b[1] as int, b[3] as int, b[4] as int);
    Fields(b1 * 256 + b[2], b3 * 16 + b4 / 16, b4 % 16 * 256 + b[5], b[6], b[7])
  }

  function MitPayload(rule: Rule, cfg: MitConfig, s: Setpoint): Result<seq<byte>, Error> {
    var f := Quantise(rule, cfg, s);
    if f.Ok? then Ok(EncodeFields(f.value)) else Err(f.error)
  }

  /** Fields that fit survive the eight bytes... */
  lemma DecodeEncodeFields(f: Fields)
    requires f.Fit()
    ensures |EncodeFields(f)| == 8 && DecodeFields(EncodeFields(f)) == f
  {
    assert f.v / 16 < 256 && f.p / 256 < 256 && f.kp / 256 < 16;
    Nibbles(f.v % 16, f.kp / 256);
  }

  lemma Nibbles(hi: int, lo: int)
    requires 0 <= hi < 16 && 0 <= lo < 16
    ensures (hi * 16 + lo) / 16 == hi && (hi * 16 + lo) % 16 == lo
  {
  }

  /** ... and every eight bytes that start with the opcode are the encoding of their fields. */
  lemma EncodeDecodeFields(b: seq<byte>)
    requires |b| == 8 && b[0] == CMD_MIT_CONTROL
    ensures DecodeFields(b).Fit() && EncodeFields(DecodeFields(b)) == b
  {
    var f := DecodeFields(b);
    assert b[4] == b[4] / 16 * 16 + b[4] % 16;
    Nibbles(b[4] / 16, b[4] % 16);
    assert f.p / 256 == b[1] && f.p % 256 == b[2];
    assert f.v / 16 == b[3] && f.v % 16 == b[4] / 16;
    assert f.kp / 256 == b[4] % 16 && f.kp % 256 == b[5];
  }

  /** The five decoded values stand for the setpoint, each to within half a step. */
  ghost predicate Stands(cfg: MitConfig, f: Fields, s: Setpoint) {
    && StandsFor(f.p, s.position, -cfg.pMax, cfg.pMax, MAX_16_BIT)
    && StandsFor(f.v, s.velocity, -cfg.vMax, cfg.vMax, MAX_12_BIT)
    && StandsFor(f.kp, s.kp, 0.0, cfg.kpMax, MAX_12_BIT)
    && StandsFor(f.kd, s.kd, 0.0, cfg.kdMax, MAX_8_BIT)
    && StandsFor(f.t, s.torque, -cfg.tauMax, cfg.tauMax, MAX_8_BIT)
  }

  /** Packing succeeds exactly on setpoints in range, under positive ranges; what the receiver
      decodes then stands for the setpoint. */
  lemma MitPayloadMeaning(rule: Rule, cfg: MitConfig, s: Setpoint)
    ensures MitPayload(rule, cfg, s).Ok? <==> s.InRange(cfg) && cfg.Positive()
    ensures var r := MitPayload(rule, cfg, s);
            r.Ok? ==> (|r.value| == 8 && r.value[0] == CMD_MIT_CONTROL && Stands(cfg, DecodeFields(r.value), s))
  {
    if s.InRange(cfg) && cfg.Positive() {
      QuantiseError(rule, s.position, -cfg.pMax, cfg.pMax, MAX_16_BIT);
      QuantiseError(rule, s.velocity, -cfg.vMax, cfg.vMax, MAX_12_BIT);
      QuantiseError(rule, s.kp, 0.0, cfg.kpMax, MAX_12_BIT);
      QuantiseError(rule, s.kd, 0.0, cfg.kdMax, MAX_8_BIT);
      QuantiseError(rule, s.torque, -cfg.tauMax, cfg.tauMax, MAX_8_BIT);
      DecodeEncodeFields(Quantise(rule, cfg, s).value);
    }
  }

  /** The same by the bits of the eight bytes: the opcode, 16 bits of position, 12 of velocity, 12 of
      stiffness, 8 of damping and 8 of torque, high bits first. */
  ghost predicate BitsStand(d: seq<int>, cfg: MitConfig, s: Setpoint) {
    && |d| == 8 && d[0] == 0xC0
    && StandsFor(256 * d[1] + d[2], s.position, -cfg.pMax, cfg.pMax, 65535)
    && StandsFor(16 * d[3] + d[4] / 16, s.velocity, -cfg.vMax, cfg.vMax, 4095)
    && StandsFor(256 * (d[4] % 16) + d[5], s.kp, 0.0, cfg.kpMax, 4095)
    && StandsFor(d[6], s.kd, 0.0, cfg.kdMax, 255)
    && StandsFor(d[7], s.torque, -cfg.tauMax, cfg.tauMax, 255)
  }

  lemma PayloadBits(data: seq<byte>, cfg: MitConfig, s: Setpoint)
    requires |data| == 8
    ensures data[0] == CMD_MIT_CONTROL && Stands(cfg, DecodeFields(data), s) <==> BitsStand(data, cfg, s)
  {
    hide StandsFor;
  }

  lemma MitPayloadFields(rule: Rule, cfg: MitConfig, s: Setpoint)
    requires s.InRange(cfg) && cfg.Positive()
    ensures var q, r := Quantise(rule, cfg, s), MitPayload(rule, cfg, s);
            q.Ok? && r.Ok? && |r.value| == 8 && DecodeFields(r.value) == q.value
  {
    QuantisedFit(rule, cfg, s);
    hide Quantise;
    DecodeEncodeFields(Quantise(rule, cfg, s).value);
  }

  lemma QuantisedFit(rule: Rule, cfg: MitConfig, s: Setpoint)
    requires s.InRange(cfg) && cfg.Positive()
    ensures Quantise(rule, cfg, s).Ok? && Quantise(rule, cfg, s).value.Fit()
  {
    hide FloatToUint;
    QuantiseError(rule, s.position, -cfg.pMax, cfg.pMax, MAX_16_BIT);
    QuantiseError(rule, s.velocity, -cfg.vMax, cfg.vMax, MAX_12_BIT);
    QuantiseError(rule, s.kp, 0.0, cfg.kpMax, MAX_12_BIT);
    QuantiseError(rule, s.kd, 0.0, cfg.kdMax, MAX_8_BIT);
    QuantiseError(rule, s.torque, -cfg.tauMax, cfg.tauMax, MAX_8_BIT);
  }

  /** Some field of the setpoint lies exactly half way above an even count. */
  predicate OnEvenHalf(cfg: MitConfig, s: Setpoint)
    requires cfg.Positive()
  {
    || EvenHalf(Count(s.position, -cfg.pMax, cfg.pMax, MAX_16_BIT))
    || EvenHalf(Count(s.velocity, -cfg.vMax, cfg.vMax, MAX_12_BIT))
    || EvenHalf(Count(s.kp, 0.0, cfg.kpMax, MAX_12_BIT))
    || EvenHalf(Count(s.kd, 0.0, cfg.kdMax, MAX_8_BIT))
    || EvenHalf(Count(s.torque, -cfg.tauMax, cfg.tauMax, MAX_8_BIT))
  }

  predicate EvenHalf(count: real) {
    IsHalf(count) && count.Floor % 2 == 0
  }

  /** The dashboard's packer accepts the same setpoints as the controller's, and produces the
      same bytes exactly when no field lies half way above an even count. */
  lemma PackersAgree(cfg: MitConfig, s: Setpoint)
    ensures MitPayload(HalfAway, cfg, s).Ok? <==> MitPayload(HalfEven, cfg, s).Ok?
    ensures MitPayload(HalfAway, cfg, s).Ok? ==>
              (MitPayload(HalfAway, cfg, s) == MitPayload(HalfEven, cfg, s) <==> !OnEvenHalf(cfg, s))
  {
    MitPayloadMeaning(HalfAway, cfg, s);
    MitPayloadMeaning(HalfEven, cfg, s);
    hide Quantise, EncodeFields, OnEvenHalf, Stands;
    if s.InRange(cfg) && cfg.Positive() {
      QuantisationsAgree(cfg, s);
      DecodeEncodeFields(Quantise(HalfAway, cfg, s).value);
      DecodeEncodeFields(Quantise(HalfEven, cfg, s).value);
    }
  }

  /** They do differ: a damping gain of 1.5 under the dashboard's default ranges has the exact
      count 76.5, which one packer rounds up and the other down. */
  lemma PackersCanDiffer() returns (cfg: MitConfig, s: Setpoint)
    ensures s.InRange(cfg) && cfg.Positive() && Count(s.kd, 0.0, cfg.kdMax, MAX_8_BIT) == 76.5
    ensures MitPayload(HalfAway, cfg, s).Ok? && MitPayload(HalfAway, cfg, s).value[6] == 77
    ensures MitPayload(HalfEven, cfg, s).Ok? && MitPayload(HalfEven, cfg, s).value[6] == 76
  {
    cfg := MitConfig(12.5, 45.0, 500.0, 5.0, 33.0);
    s := Setpoint(0.0, 0.0, 0.0, 1.5, 0.0);
    assert FloatToUint(HalfAway, s.kd, 0.0, cfg.kdMax, MAX_8_BIT) == Ok(77);
    assert FloatToUint(HalfEven, s.kd, 0.0, cfg.kdMax, MAX_8_BIT) == Ok(76);
    hide FloatToUint;
    MitPayloadFields(HalfAway, cfg, s);
    MitPayloadFields(HalfEven, cfg, s);
  }

  lemma QuantisationsAgree(cfg: MitConfig, s: Setpoint)
    requires s.InRange(cfg) && cfg.Positive()
    ensures var away, even := Quantise(HalfAway, cfg, s), Quantise(HalfEven, cfg, s);
            && away.Ok? && even.Ok? && away.value.Fit() && even.value.Fit()
            && (away == even <==> !OnEvenHalf(cfg, s))
  {
    hide FloatToUint, Count, EvenHalf;
    FieldsAgree(s.position, -cfg.pMax, cfg.pMax, MAX_16_BIT);
    FieldsAgree(s.velocity, -cfg.vMax, cfg.vMax, MAX_12_BIT);
    FieldsAgree(s.kp, 0.0, cfg.kpMax, MAX_12_BIT);
    FieldsAgree(s.kd, 0.0, cfg.kdMax, MAX_8_BIT);
    FieldsAgree(s.torque, -cfg.tauMax, cfg.tauMax, MAX_8_BIT);
  }

  lemma FieldsAgree(x: real, lo: real, hi: real, maxCode: nat)
    requires lo <= x <= hi && lo < hi && maxCode > 0
    ensures var away, even := FloatToUint(HalfAway, x, lo, hi, maxCode), FloatToUint(HalfEven, x, lo, hi, maxCode);
            && away.Ok? && even.Ok? && 0 <= away.value <= maxCode && 0 <= even.value <= maxCode
            && (away == even <==> !EvenHalf(Count(x, lo, hi, maxCode)))
  {
    CountInRange(x, lo, hi, maxCode);
    QuantiseError(HalfAway, x, lo, hi, maxCode);
    QuantiseError(HalfEven, x, lo, hi, maxCode);
    RoundingsDiffer(Count(x, lo, hi, maxCode));
    hide Count, IsHalf, Dequantise, RoundHalfAway, RoundHalfEven;
  }

  /** The packer, byte by byte. */
  method PackMitPayload(rule: Rule, cfg: MitConfig, s: Setpoint) returns (r: Result<seq<byte>, Error>)
    ensures r == MitPayload(rule, cfg, s)
    ensures r.Ok? <==> s.InRange(cfg) && cfg.Positive()
    ensures r.Ok? ==> BitsStand(r.value, cfg, s)
    ensures r.Err? ==> r.error == if s.InRange(cfg) then DivisionByZero else OutOfRange
  {
    hide Stands, BitsStand;
    MitPayloadMeaning(rule, cfg, s);
    var q := Quantise(rule, cfg, s);
    if q.Err? {
      return Err(q.error);
    }
    var data := PackFields(q.value);
    PayloadBits(data, cfg, s);
    return Ok(data);
  }

  method PackFields(f: Fields) returns (payload: seq<byte>)
    ensures payload == EncodeFields(f)
  {
    var data := new byte[8](_ => 0);
    data[0] := CMD_MIT_CONTROL;
    data[1] := f.p / 256 % 256;
    data[2] := f.p % 256;
    data[3] := f.v / 16 % 256;
    data[4] := f.v % 16 * 16 + f.kp / 256 % 16;
    data[5] := f.kp % 256;
    data[6] := f.kd % 256;
    data[7] := f.t % 256;
    return data[..];
  }

  // ---------------------------------------------------------------------------
  // The zero-set command
  // ---------------------------------------------------------------------------

  function ZeroBytes(raw: i16): seq<byte> {
    [CMD_MIT_SET_ZERO, 0, 0, 0, 0, 0, Low(raw), High(raw)]
  }

  function ZeroPayload(offsetDeg: real): Result<seq<byte>, Error> {
    var raw := RoundHalfAway(offsetDeg * 100.0);
    if -32768 <= raw <= 32767 then Ok(ZeroBytes(raw)) else Err(OutOfRange)
  }

  /** The offset a zero-set acknowledgement reports. */
  function AckOffset(payload: seq<byte>): Option<i16> {
    if |payload| == 8 && payload[0] == CMD_MIT_SET_ZERO then Some(I16(payload[6], payload[7])) else None
  }

  /** The eight bytes of a zero-set command with this int16 offset, low byte first at the end. */
  ghost predicate ZeroSets(d: seq<int>, offset: int) {
    && |d| == 8 && d[0] == 0xC3 && d[1] == d[2] == d[3] == d[4] == d[5] == 0
    && d[6] + 256 * d[7] == if offset < 0 then offset + 65536 else offset
  }

  lemma ZeroBytesAre(raw: i16)
    ensures ZeroSets(ZeroBytes(raw), raw)
  {
  }

  /** Every int16 offset count, sent as hundredths of a degree, comes back unchanged from an
      acknowledgement that carries the same bytes. */
  lemma ZeroOffsetRoundTrip(offset: i16)
    ensures ZeroPayload(offset as real * 0.01) == Ok(ZeroBytes(offset))
    ensures AckOffset(ZeroBytes(offset)) == Some(offset)
    ensures ZeroSets(ZeroBytes(offset), offset)
  {
    RoundHalfAwayUnique(offset as real * 0.01 * 100.0, offset);
    I16RoundTrip(offset);
  }

  /** Exactly the angles that round to an int16 are accepted. */
  lemma ZeroPayloadAccepts(offsetDeg: real)
    ensures ZeroPayload(offsetDeg).Ok? <==> -32768.5 < offsetDeg * 100.0 < 32767.5
  {
  }

  /** The hundredths of a degree, rounded. */
  method PackZeroPayload(offsetDeg: real) returns (r: Result<seq<byte>, Error>)
    ensures r == ZeroPayload(offsetDeg)
    ensures r.Ok? <==> -32768.5 < offsetDeg * 100.0 < 32767.5
    ensures r.Ok? ==> exists n: int :: ZeroSets(r.value, n) && Abs(n as real - offsetDeg * 100.0) <= 0.5
  {
    ZeroPayloadAccepts(offsetDeg);
    var raw := RoundHalfAway(offsetDeg * 100.0);
    if !(-32768 <= raw <= 32767) {
      return Err(OutOfRange);
    }
    var data := new byte[8](_ => 0);
    data[0] := CMD_MIT_SET_ZERO;
    data[6] := Low(raw);
    data[7] := High(raw);
    assert data[..] == ZeroBytes(raw);
    ZeroBytesAre(raw);
    return Ok(data[..]);
  }
}
