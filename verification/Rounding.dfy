/** The rounding rules of the two stacks, over exact reals. */
module Rounding {

  function Abs(x: real): real {
    if x < 0.0 then -x else x
  }

  /** `max(lo, min(hi, x))`, also C++ `std::clamp`. */
  function Clamp(x: real, lo: real, hi: real): real {
    if x < lo then lo else if hi < x then hi else x
  }

  /** Clamping moves a value into the interval and no further than necessary. */
  lemma ClampIsNearest(x: real, lo: real, hi: real, y: real)
    requires lo <= y <= hi
    ensures lo <= Clamp(x, lo, hi) <= hi && Abs(Clamp(x, lo, hi) - x) <= Abs(y - x)
    ensures Abs(y - x) == Abs(Clamp(x, lo, hi) - x) ==> y == Clamp(x, lo, hi)
  {
  }

  function Ceil(x: real): int {
    -(-x).Floor
  }

  /** Python `round_half_away_from_zero` and C++ `std::round`. */
  function RoundHalfAway(x: real): (n: int)
    ensures Abs(n as real - x) <= 0.5
    ensures n as real - x == 0.5 ==> x >= 0.0
    ensures n as real - x == -0.5 ==> x < 0.0
  {
    if x >= 0.0 then (x + 0.5).Floor else Ceil(x - 0.5)
  }

  /** Python's built-in `round`. */
  function RoundHalfEven(x: real): (n: int)
    ensures Abs(n as real - x) <= 0.5
    ensures Abs(n as real - x) == 0.5 ==> n % 2 == 0
  {
    var f := x.Floor;
    var d := x - f as real;
    if d < 0.5 || (d == 0.5 && f % 2 == 0) then f else f + 1
  }

  /** Exactly half way between two integers. */
  predicate IsHalf(x: real) {
    x - x.Floor as real == 0.5
  }

  lemma RoundHalfAwayMonotone(x: real, y: real)
    requires x <= y
    ensures RoundHalfAway(x) <= RoundHalfAway(y)
  {
  }

  /** Any integer that meets the contract is the rounded value. */
  lemma RoundHalfAwayUnique(x: real, n: int)
    requires Abs(n as real - x) <= 0.5
    requires n as real - x == 0.5 ==> x >= 0.0
    requires n as real - x == -0.5 ==> x < 0.0
    ensures RoundHalfAway(x) == n
  {
  }

  /** On non-negative numbers the two rules differ exactly on halves above an even integer. */
  lemma RoundingsDiffer(x: real)
    requires x >= 0.0
    ensures RoundHalfAway(x) == RoundHalfEven(x) <==> !(IsHalf(x) && x.Floor % 2 == 0)
  {
  }

  /** Shifting by an integer shifts the result, except across zero from one half to another. */
  lemma RoundHalfAwayShift(x: real, k: int)
    ensures RoundHalfAway(x + k as real) == RoundHalfAway(x) + k
       <==> !IsHalf(x) || ((x >= 0.0) == (x + k as real >= 0.0))
  {
    var y := x + k as real;
    var n := RoundHalfAway(x);
    assert (n + k) as real - y == n as real - x;
    HalfDistance(x);
    if !IsHalf(x) || ((x >= 0.0) == (y >= 0.0)) {
      RoundHalfAwayUnique(y, n + k);
    } else {
      HalfDistance(y);
      assert y.Floor == x.Floor + k;
    }
  }

  lemma HalfDistance(x: real)
    ensures IsHalf(x) <==> Abs(RoundHalfAway(x) as real - x) == 0.5
    ensures IsHalf(x) ==> RoundHalfAway(x) == x.Floor + if x >= 0.0 then 1 else 0
  {
  }
}
