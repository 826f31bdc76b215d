/** Projected gravity, computed twice: by the IMU decoder with a cross product, and by the
    policy runner with a transposed rotation matrix. */
module Gravity {
  import opened Wrappers
  import opened Bytes
  import opened RealProducts

  datatype Vec = Vec(x: real, y: real, z: real) {
    function NormSq(): real {
      x * x + y * y + z * z
    }

    function Swapped(): Vec {
      Vec(y, x, z)
    }
  }

  datatype Quat = Quat(x: real, y: real, z: real, w: real) {
    function NormSq(): real {
      x * x + y * y + z * z + w * w
    }

    function Over(n: real): Quat
      requires n != 0.0
    {
      Quat(x / n, y / n, z / n, w / n)
    }
  }

  datatype Error = BadLength | DivisionByZero

  const DOWN := Vec(0.0, 0.0, -1.0)

  const TINY: real := 0.000000000001

  const IDENTITY := Quat(0.0, 0.0, 0.0, 1.0)

  /** What is needed of the square root. */
  ghost predicate IsSqrt(sqrt: real -> real) {
    forall x :: x >= 0.0 ==> sqrt(x) >= 0.0 && sqrt(x) * sqrt(x) == x
  }

  // ---------------------------------------------------------------------------
  // The IMU decoder
  // ---------------------------------------------------------------------------

  function Cross(a: Vec, b: Vec): Vec {
    Vec(a.y * b.z - a.z * b.y, a.z * b.x - a.x * b.z, a.x * b.y - a.y * b.x)
  }

  function Scale(k: real, v: Vec): Vec {
    Vec(k * v.x, k * v.y, k * v.z)
  }

  /** `v - w t + q x t` with `t = 2 q x v`, and then x and y exchanged. */
  function CrossGravity(q: Quat): Vec {
    var axis := Vec(q.x, q.y, q.z);
    var t := Scale(2.0, Cross(axis, DOWN));
    var u := Cross(axis, t);
    Vec(DOWN.x - q.w * t.x + u.x, DOWN.y - q.w * t.y + u.y, DOWN.z - q.w * t.z + u.z).Swapped()
  }

  function Normalize(q: Quat, sqrt: real -> real): Quat {
    var n := sqrt(q.NormSq());
    if n < TINY then IDENTITY else q.Over(n)
  }

  datatype Pose = Pose(quat: Quat, gravity: Vec)

  /** Four little-endian int16, z first; the x component changes sign. */
  function RawQuat(data: seq<byte>, scale: real): Quat
    requires |data| == 8 && scale != 0.0
  {
    Quat(-(I16(data[4], data[5]) as real / scale), I16(data[2], data[3]) as real / scale,
         I16(data[0], data[1]) as real / scale, I16(data[6], data[7]) as real / scale)
  }

  function DecodeQuat(data: seq<byte>, scale: real, normalize: bool, sqrt: real -> real): Result<Pose, Error> {
    if |data| != 8 then Err(BadLength)
    else if scale == 0.0 then Err(DivisionByZero)
    else
      var raw := RawQuat(data, scale);
      var q := if normalize then Normalize(raw, sqrt) else raw;
      Ok(Pose(q, CrossGravity(q)))
  }

  // ---------------------------------------------------------------------------
  // The policy runner
  // ---------------------------------------------------------------------------

  datatype Matrix = Matrix(r0: Vec, r1: Vec, r2: Vec)

  function Rotation(q: Quat): Matrix {
    Matrix(
      Vec(1.0 - 2.0 * (q.y * q.y + q.z * q.z), 2.0 * (q.x * q.y - q.z * q.w), 2.0 * (q.x * q.z + q.y * q.w)),
      Vec(2.0 * (q.x * q.y + q.z * q.w), 1.0 - 2.0 * (q.x * q.x + q.z * q.z), 2.0 * (q.y * q.z - q.x * q.w)),
      Vec(2.0 * (q.x * q.z - q.y * q.w), 2.0 * (q.y * q.z + q.x * q.w), 1.0 - 2.0 * (q.x * q.x + q.y * q.y)))
  }

  /** The transposed matrix times a vector. */
  function TransposedTimes(m: Matrix, v: Vec): Vec {
    Vec(m.r0.x * v.x + m.r1.x * v.y + m.r2.x * v.z,
        m.r0.y * v.x + m.r1.y * v.y + m.r2.y * v.z,
        m.r0.z * v.x + m.r1.z * v.y + m.r2.z * v.z)
  }

  /** Always normalises, and divides by the norm without looking at it. */
  function RotationGravity(q: Quat, sqrt: real -> real): Result<Vec, Error> {
    var norm := sqrt(q.NormSq());
    if norm == 0.0 then Err(DivisionByZero)
    else Ok(TransposedTimes(Rotation(q.Over(norm)), DOWN))
  }

  // ---------------------------------------------------------------------------
  // The two agree
  // ---------------------------------------------------------------------------

  /** The products of components that the formulas are made of. */
  datatype Products = Products(
    xx: real, yy: real, zz: real, ww: real, wx: real, zy: real, wy: real, zx: real)
  {
    function NormSq(): real {
      xx + yy + zz + ww
    }

    function Gravity(): Vec {
      Vec(-2.0 * (wx + zy), 2.0 * (wy - zx), 2.0 * (xx + yy) - 1.0)
    }

    ghost predicate Times(k: real, other: Products) {
      && Mul(xx, k) == other.xx && Mul(yy, k) == other.yy && Mul(zz, k) == other.zz && Mul(ww, k) == other.ww
      && Mul(wx, k) == other.wx && Mul(zy, k) == other.zy && Mul(wy, k) == other.wy && Mul(zx, k) == other.zx
    }
  }

  function ProductsOf(q: Quat): Products {
    Products(
      Mul(q.x, q.x), Mul(q.y, q.y), Mul(q.z, q.z), Mul(q.w, q.w),
      Mul(q.w, q.x), Mul(q.z, q.y), Mul(q.w, q.y), Mul(q.z, q.x))
  }

  lemma CrossTerms(q: Quat)
    ensures CrossGravity(q) == ProductsOf(q).Gravity() && q.NormSq() == ProductsOf(q).NormSq()
  {
  }

  lemma RotationTerms(q: Quat)
    ensures TransposedTimes(Rotation(q), DOWN) == ProductsOf(q).Gravity().Swapped()
  {
    hide TransposedTimes;
    LastRow(Rotation(q));
  }

  lemma LastRow(m: Matrix)
    ensures TransposedTimes(m, DOWN) == Vec(-m.r2.x, -m.r2.y, -m.r2.z)
  {
  }

  /** Without normalisation the formulas are the same polynomials, x and y exchanged. */
  lemma SameFormula(q: Quat)
    ensures TransposedTimes(Rotation(q), DOWN) == CrossGravity(q).Swapped()
  {
    hide TransposedTimes, Rotation, CrossGravity, ProductsOf;
    CrossTerms(q);
    RotationTerms(q);
  }

  /** The quaternion turns the vertical: it is not a rotation about it. */
  predicate Tilts(q: Quat) {
    q.x * q.x + q.y * q.y != 0.0
  }

  /** The decoder's gravity has norm one exactly for unit quaternions, and trivially for those
      without a tilt. */
  lemma UnitGravity(q: Quat)
    ensures CrossGravity(q).NormSq() == 1.0 <==> q.NormSq() == 1.0 || !Tilts(q)
  {
    var s := q.x * q.x + q.y * q.y;
    var excess := q.NormSq() - 1.0;
    CrossTerms(q);
    hide CrossGravity;
    SumOfSquares(q.w, q.x, q.y, q.z);
    assert CrossGravity(q).NormSq() == 4.0 * (s * (q.w * q.w + q.z * q.z)) + (2.0 * s - 1.0) * (2.0 * s - 1.0);
    assert CrossGravity(q).NormSq() - 1.0 == 4.0 * (s * excess);
  }

  lemma SumOfSquares(w: real, x: real, y: real, z: real)
    ensures (w * x + z * y) * (w * x + z * y) + (w * y - z * x) * (w * y - z * x)
         == (x * x + y * y) * (w * w + z * z)
  {
  }

  /** The gravity of a rotation, written out; level and turned any way it points down. */
  ghost predicate IsGravityOf(g: Vec, q: Quat) {
    && g.x == -2.0 * (q.w * q.x + q.z * q.y)
    && g.y == 2.0 * (q.w * q.y - q.z * q.x)
    && g.z == 2.0 * (q.x * q.x + q.y * q.y) - 1.0
    && (q.x == 0.0 && q.y == 0.0 ==> g == Vec(0.0, 0.0, -1.0))
  }

  lemma GravityWrittenOut(q: Quat)
    ensures IsGravityOf(CrossGravity(q), q)
  {
    CrossTerms(q);
    hide CrossGravity;
  }

  /** `q` is `raw`, or `raw` over its norm, or the identity if there is next to no norm. */
  ghost predicate IsNormalized(q: Quat, raw: Quat, sqrt: real -> real) {
    var n := sqrt(raw.x * raw.x + raw.y * raw.y + raw.z * raw.z + raw.w * raw.w);
    q == if n < 0.000000000001 then Quat(0.0, 0.0, 0.0, 1.0) else Quat(raw.x / n, raw.y / n, raw.z / n, raw.w / n)
  }

  lemma NormalizeWrittenOut(raw: Quat, sqrt: real -> real)
    ensures IsNormalized(Normalize(raw, sqrt), raw, sqrt)
  {
  }

  /** Two bytes, low one first, that hold a signed 16-bit number. */
  ghost predicate Packs(low: int, high: int, v: int) {
    -32768 <= v < 32768 && low + 256 * high == if v < 0 then v + 65536 else v
  }

  lemma PackedNumber(low: byte, high: byte, v: int)
    requires Packs(low, high, v)
    ensures I16(low, high) == v
  {
  }

  /** For all four numbers: eight bytes that pack z, y, x and w in this order decode to the quaternion
      (-x, y, z, w) over the scale, normalised if asked, and to its gravity. */
  lemma PackedQuatDecodes(
    data: seq<byte>, z: int, y: int, x: int, w: int, scale: real, normalize: bool, sqrt: real -> real)
    requires |data| == 8 && scale != 0.0
    requires Packs(data[0], data[1], z) && Packs(data[2], data[3], y)
    requires Packs(data[4], data[5], x) && Packs(data[6], data[7], w)
    ensures var r := DecodeQuat(data, scale, normalize, sqrt);
            var raw := Quat(-(x as real / scale), y as real / scale, z as real / scale, w as real / scale);
            && r.Ok? && IsGravityOf(r.value.gravity, r.value.quat)
            && if normalize then IsNormalized(r.value.quat, raw, sqrt) else r.value.quat == raw
  {
    hide CrossGravity, Normalize, I16, IsGravityOf, IsNormalized;
    PackedNumber(data[0], data[1], z);
    PackedNumber(data[2], data[3], y);
    PackedNumber(data[4], data[5], x);
    PackedNumber(data[6], data[7], w);
    var raw := RawQuat(data, scale);
    GravityWrittenOut(raw);
    GravityWrittenOut(Normalize(raw, sqrt));
    NormalizeWrittenOut(raw, sqrt);
  }

  /** The policy's gravity is that of the quaternion over its norm, x and y exchanged. */
  lemma PolicyGravityWrittenOut(q: Quat, sqrt: real -> real)
    ensures var n := sqrt(q.x * q.x + q.y * q.y + q.z * q.z + q.w * q.w);
            if n == 0.0 then RotationGravity(q, sqrt) == Err(DivisionByZero)
            else
              && RotationGravity(q, sqrt).Ok?
              && var g := RotationGravity(q, sqrt).value;
              IsGravityOf(Vec(g.y, g.x, g.z), Quat(q.x / n, q.y / n, q.z / n, q.w / n))
  {
    hide TransposedTimes, Rotation, CrossGravity, IsGravityOf;
    var n := sqrt(q.NormSq());
    if n != 0.0 {
      SameFormula(q.Over(n));
      GravityWrittenOut(q.Over(n));
    }
  }

  // ---------------------------------------------------------------------------
  // Division by the norm
  // ---------------------------------------------------------------------------

  lemma ProductsOver(q: Quat, n: real)
    requires n != 0.0
    ensures ProductsOf(q.Over(n)).Times(Mul(n, n), ProductsOf(q))
  {
    hide Mul;
    PairOver(q.x, q.x, n);
    PairOver(q.y, q.y, n);
    PairOver(q.z, q.z, n);
    PairOver(q.w, q.w, n);
    PairOver(q.w, q.x, n);
    PairOver(q.z, q.y, n);
    PairOver(q.w, q.y, n);
    PairOver(q.z, q.x, n);
  }

  lemma TimesSums(p: Products, k: real, r: Products)
    requires p.Times(k, r)
    ensures Mul(p.NormSq(), k) == r.NormSq()
    ensures Mul(p.Gravity().x, k) == r.Gravity().x && Mul(p.Gravity().y, k) == r.Gravity().y
    ensures Mul(p.Gravity().z + 1.0, k) == r.Gravity().z + 1.0
  {
  }

  lemma OverNorm(q: Quat, n: real)
    requires n != 0.0 && Mul(n, n) == q.NormSq()
    ensures Mul(n, n) != 0.0 && q.Over(n).NormSq() == 1.0
  {
    hide Mul, ProductsOf, Quat.NormSq, Products.NormSq, Quat.Over;
    var u := q.Over(n);
    CrossTerms(q);
    CrossTerms(u);
    ProductsOver(q, n);
    TimesSums(ProductsOf(u), Mul(n, n), ProductsOf(q));
    MulCancel(u.NormSq(), Mul(n, n));
    MulZero(n, n);
  }

  lemma NormSqNonNegative(q: Quat)
    ensures q.NormSq() >= 0.0
  {
  }

  lemma NoTilt(q: Quat)
    ensures Tilts(q) <==> q.x != 0.0 || q.y != 0.0
  {
    SquareNonNegative(q.x);
    SquareNonNegative(q.y);
    if !Tilts(q) {
      ZeroSum(q.x * q.x, q.y * q.y);
      MulZero(q.x, q.x);
      MulZero(q.y, q.y);
    }
  }

  // ---------------------------------------------------------------------------
  // The two agree
  // ---------------------------------------------------------------------------

  lemma NormalizedIsUnit(q: Quat, sqrt: real -> real)
    requires IsSqrt(sqrt)
    ensures Normalize(q, sqrt).NormSq() == 1.0
  {
    NormSqNonNegative(q);
    var n := sqrt(q.NormSq());
    if n >= TINY {
      OverNorm(q, n);
    }
  }

  /** With normalisation every eight bytes decode to a unit quaternion and unit gravity. */
  lemma DecodedGravityIsUnit(data: seq<byte>, scale: real, sqrt: real -> real)
    requires |data| == 8 && scale != 0.0 && IsSqrt(sqrt)
    ensures var r := DecodeQuat(data, scale, true, sqrt);
            && r.Ok? && r.value.quat.NormSq() == 1.0
            && r.value.gravity == CrossGravity(r.value.quat) && r.value.gravity.NormSq() == 1.0
  {
    hide CrossGravity;
    NormalizedIsUnit(RawQuat(data, scale), sqrt);
    UnitGravity(Normalize(RawQuat(data, scale), sqrt));
  }

  /** The policy's gravity never fails on a decoded quaternion, and is the decoder's with x and
      y exchanged. */
  lemma PolicySeesDecodedGravity(data: seq<byte>, scale: real, sqrt: real -> real)
    requires |data| == 8 && scale != 0.0 && IsSqrt(sqrt)
    ensures var r := DecodeQuat(data, scale, true, sqrt);
            r.Ok? && RotationGravity(r.value.quat, sqrt) == Ok(r.value.gravity.Swapped())
  {
    DecodedGravityIsUnit(data, scale, sqrt);
    UnitNeedsNoNormalising(DecodeQuat(data, scale, true, sqrt).value.quat, sqrt);
    hide DecodeQuat, CrossGravity, RotationGravity;
  }

  lemma UnitNeedsNoNormalising(q: Quat, sqrt: real -> real)
    requires IsSqrt(sqrt) && q.NormSq() == 1.0
    ensures RotationGravity(q, sqrt) == Ok(CrossGravity(q).Swapped())
  {
    hide CrossGravity, Rotation, TransposedTimes;
    SqrtOfOne(sqrt(q.NormSq()));
    assert q.Over(1.0) == q;
    SameFormula(q);
  }

  /** Without normalisation in the decoder the two still agree exactly for unit quaternions
      and for those without a tilt. The zero quaternion makes the policy raise. */
  lemma AgreementWithoutNormalisation(q: Quat, sqrt: real -> real)
    requires IsSqrt(sqrt)
    ensures RotationGravity(q, sqrt).Err? <==> q.NormSq() == 0.0
    ensures q.NormSq() != 0.0 ==>
              (RotationGravity(q, sqrt) == Ok(CrossGravity(q).Swapped()) <==> q.NormSq() == 1.0 || !Tilts(q))
  {
    hide CrossGravity, Rotation, TransposedTimes, Tilts;
    NormSqNonNegative(q);
    var n := sqrt(q.NormSq());
    assert Mul(n, n) == q.NormSq();
    MulZero(n, n);
    hide Mul, Quat.NormSq;
    if n != 0.0 {
      OverNorm(q, n);
      SameFormula(q.Over(n));
      Rescaled(q, n);
    }
  }

  const SAMPLE_QUAT := Quat(-3.0, 0.0, 0.0, 4.0)

  const SAMPLE_PAYLOAD: seq<byte> := [0, 0, 0, 0, 3, 0, 4, 0]

  /** They do disagree on what the decoder delivers without normalisation: on (-3, 0, 0, 4), say,
      whose norm is five. */
  lemma GravitiesCanDiffer(sqrt: real -> real)
    requires IsSqrt(sqrt)
    ensures var r := DecodeQuat(SAMPLE_PAYLOAD, 1.0, false, sqrt);
            && r.Ok? && r.value.quat == SAMPLE_QUAT && RotationGravity(r.value.quat, sqrt).Ok?
            && RotationGravity(r.value.quat, sqrt) != Ok(r.value.gravity.Swapped())
  {
    hide *;
    SampleDecodes(sqrt);
    AgreementAtSample(SAMPLE_QUAT, sqrt);
  }

  lemma SampleDecodes(sqrt: real -> real)
    ensures DecodeQuat(SAMPLE_PAYLOAD, 1.0, false, sqrt) == Ok(Pose(SAMPLE_QUAT, CrossGravity(SAMPLE_QUAT)))
  {
    hide CrossGravity;
    assert I16(3, 0) == 3 && I16(4, 0) == 4 && I16(0, 0) == 0;
    assert RawQuat(SAMPLE_PAYLOAD, 1.0) == SAMPLE_QUAT;
  }

  lemma AgreementAtSample(q: Quat, sqrt: real -> real)
    requires IsSqrt(sqrt) && q == SAMPLE_QUAT
    ensures RotationGravity(q, sqrt).Ok? && RotationGravity(q, sqrt) != Ok(CrossGravity(q).Swapped())
  {
    assert q.NormSq() == 25.0 && Tilts(q);
    hide RotationGravity, CrossGravity, Tilts, Quat.NormSq;
    AgreementWithoutNormalisation(q, sqrt);
  }

  /** Dividing by the norm divides each product of two components by its square, which shows
      in the gravity vector unless the square is one or the vector is vertical. */
  lemma Rescaled(q: Quat, n: real)
    requires n != 0.0 && Mul(n, n) == q.NormSq()
    ensures CrossGravity(q.Over(n)) == CrossGravity(q) <==> q.NormSq() == 1.0 || !Tilts(q)
  {
    hide Mul, CrossGravity, Tilts, ProductsOf, Products.Gravity, Quat.NormSq, Quat.Over;
    var u := q.Over(n);
    OverNorm(q, n);
    ProductsOver(q, n);
    TimesSums(ProductsOf(u), Mul(n, n), ProductsOf(q));
    CrossTerms(q);
    CrossTerms(u);
    GravityWithoutTilt(q);
    ScaledVec(CrossGravity(u), CrossGravity(q), Mul(n, n));
  }

  lemma GravityWithoutTilt(q: Quat)
    ensures Tilts(q) <==> CrossGravity(q).z + 1.0 != 0.0
    ensures !Tilts(q) ==> CrossGravity(q) == DOWN
  {
    NoTilt(q);
    CrossTerms(q);
    hide CrossGravity;
  }

  lemma ScaledVec(h: Vec, g: Vec, k: real)
    requires k != 0.0 && Mul(h.x, k) == g.x && Mul(h.y, k) == g.y && Mul(h.z + 1.0, k) == g.z + 1.0
    requires g.z + 1.0 == 0.0 ==> g == DOWN
    ensures h == g <==> k == 1.0 || g.z + 1.0 == 0.0
  {
    MulZero(h.x, k);
    MulZero(h.y, k);
    MulZero(h.z + 1.0, k);
    MulCancel(k, h.z + 1.0);
    assert Mul(k, h.z + 1.0) == Mul(h.z + 1.0, k);
    assert k == 1.0 ==> Mul(h.x, k) == h.x && Mul(h.y, k) == h.y;
    hide Mul;
  }
}
