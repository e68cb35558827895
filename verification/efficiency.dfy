/**
  The efficiency index (EfficiencyIndexCalculator.java:20-33): an inverted
  min-max normalisation of time and of memory, combined with the weights 0.7
  and 0.3. The source divides by the range without a guard, so a `double`
  result can be infinite or NaN; `Double` below is the exact real line
  extended with those three IEEE values, which makes the index total.
*/
module EfficiencyIndex {

  /** A Java `double` whose finite values are modelled exactly. */
  datatype Double = Finite(v: real) | PosInf | NegInf | NaN

  const WTime: real := 0.7
  const WMem: real := 0.3

  /** IEEE division of two finite values; a zero divisor is the +0.0 that `x - x` yields. */
  function Divide(a: real, b: real): (r: Double)
    ensures r.Finite? <==> b != 0.0
    ensures r == NaN <==> a == 0.0 && b == 0.0
  {
    if b != 0.0 then Finite(a / b)
    else if a > 0.0 then PosInf
    else if a < 0.0 then NegInf
    else NaN
  }

  /** Multiplication by a positive finite constant. */
  function Scale(k: real, x: Double): (r: Double)
    requires k > 0.0
    ensures r.Finite? <==> x.Finite?
    ensures r == NaN <==> x == NaN
  {
    match x
    case Finite(v) => Finite(k * v)
    case _ => x
  }

  /** IEEE addition: NaN absorbs, opposite infinities give NaN, an infinity absorbs a finite value. */
  function Add(x: Double, y: Double): (r: Double)
    ensures r.Finite? <==> x.Finite? && y.Finite?
    ensures (x == NaN || y == NaN) ==> r == NaN
  {
    match (x, y)
    case (Finite(a), Finite(b)) => Finite(a + b)
    case (NaN, _) => NaN
    case (_, NaN) => NaN
    case (PosInf, NegInf) => NaN
    case (NegInf, PosInf) => NaN
    case (Finite(_), _) => y
    case (_, _) => x
  }

  /**
    `computeIndex`: 0.7 (tMax - t) / (tMax - tMin) + 0.3 (mMax - m) / (mMax - mMin).
    It is a finite number exactly when neither range is empty, and then it is the weighted sum.
  */
  function ComputeIndex(t: real, tMin: real, tMax: real, m: real, mMin: real, mMax: real): (r: Double)
    ensures r.Finite? <==> tMax != tMin && mMax != mMin
    ensures tMax != tMin && mMax != mMin ==> r == Finite(IndexValue(t, tMin, tMax, m, mMin, mMax))
  {
    Add(Scale(WTime, Divide(tMax - t, tMax - tMin)), Scale(WMem, Divide(mMax - m, mMax - mMin)))
  }

  /** The weighted sum the index is, when both ranges are non-zero. */
  function IndexValue(t: real, tMin: real, tMax: real, m: real, mMin: real, mMax: real): real
    requires tMax != tMin && mMax != mMin
  {
    WTime * ((tMax - t) / (tMax - tMin)) + WMem * ((mMax - m) / (mMax - mMin))
  }

  /** With no spread in time and a time at that value, the quotient is 0/0 and the index is NaN. */
  lemma IndexNaNWhenFlat(t: real, m: real, mMin: real, mMax: real)
    ensures ComputeIndex(t, t, t, m, mMin, mMax) == NaN
  {
  }

  /** A non-zero range divided by itself is 1. */
  lemma DivSelf(d: real)
    requires d != 0.0
    ensures d / d == 1.0
  {
  }

  /** The fastest and leanest run scores 1. */
  lemma IndexOfBest(tMin: real, tMax: real, mMin: real, mMax: real)
    requires tMax != tMin && mMax != mMin
    ensures ComputeIndex(tMin, tMin, tMax, mMin, mMin, mMax) == Finite(1.0)
  {
    DivSelf(tMax - tMin);
    DivSelf(mMax - mMin);
  }

  /** The slowest and heaviest run scores 0. */
  lemma IndexOfWorst(tMin: real, tMax: real, mMin: real, mMax: real)
    requires tMax != tMin && mMax != mMin
    ensures ComputeIndex(tMax, tMin, tMax, mMax, mMin, mMax) == Finite(0.0)
  {
  }

  /** For a quotient of a part of a range by the whole range, 0 <= q <= 1. */
  lemma FractionInUnit(a: real, b: real)
    requires 0.0 <= a <= b && b > 0.0
    ensures 0.0 <= a / b <= 1.0
  {
    var q := a / b;
    assert q * b == a;
  }

  /** Within both ranges, the index lies in [0, 1]. */
  lemma IndexInUnitInterval(t: real, tMin: real, tMax: real, m: real, mMin: real, mMax: real)
    requires tMin < tMax && mMin < mMax
    requires tMin <= t <= tMax && mMin <= m <= mMax
    ensures var r := ComputeIndex(t, tMin, tMax, m, mMin, mMax);
      r.Finite? && 0.0 <= r.v <= 1.0
  {
    FractionInUnit(tMax - t, tMax - tMin);
    FractionInUnit(mMax - m, mMax - mMin);
  }

  /** For a positive divisor, a larger dividend gives a larger quotient. */
  lemma QuotientStrictlyIncreasing(a: real, a': real, b: real)
    requires b > 0.0 && a < a'
    ensures a / b < a' / b
  {
    var q, q' := a / b, a' / b;
    assert q * b == a && q' * b == a';
  }

  /** Higher index for lower time, and for lower memory, when both ranges are positive. */
  lemma IndexStrictlyDecreasing(t: real, t': real, tMin: real, tMax: real, m: real, m': real, mMin: real, mMax: real)
    requires tMin < tMax && mMin < mMax
    requires t <= t' && m <= m' && (t < t' || m < m')
    ensures ComputeIndex(t', tMin, tMax, m', mMin, mMax).v < ComputeIndex(t, tMin, tMax, m, mMin, mMax).v
  {
    if t < t' {
      QuotientStrictlyIncreasing(tMax - t', tMax - t, tMax - tMin);
    }
    if m < m' {
      QuotientStrictlyIncreasing(mMax - m', mMax - m, mMax - mMin);
    }
  }
}
