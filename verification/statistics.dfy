/**
  `java.util.DoubleSummaryStatistics` as the servlets use it: the minimum and
  maximum of a stream of values. An empty stream reports a minimum of +Infinity
  and a maximum of -Infinity.
*/
module Statistics {
  import opened EfficiencyIndex

  datatype Summary = Empty | Range(lo: real, hi: real)
  {
    function GetMin(): (r: Double)
      ensures r.Finite? <==> Range?
    {
      if Empty? then PosInf else Finite(lo)
    }

    function GetMax(): (r: Double)
      ensures r.Finite? <==> Range?
    {
      if Empty? then NegInf else Finite(hi)
    }
  }

  function Min(a: real, b: real): real { if a <= b then a else b }
  function Max(a: real, b: real): real { if a >= b then a else b }

  /** `summaryStatistics()` over `xs`. */
  function SummaryOf(xs: seq<real>): (s: Summary)
    ensures s.Empty? <==> xs == []
  {
    if xs == [] then Empty
    else
      match SummaryOf(xs[1..])
      case Empty => Range(xs[0], xs[0])
      case Range(lo, hi) => Range(Min(xs[0], lo), Max(xs[0], hi))
  }

  /** A non-empty summary's bounds are values of the stream, and every value lies between them. */
  lemma {:induction false} SummaryBounds(xs: seq<real>)
    requires xs != []
    ensures var s := SummaryOf(xs);
      s.lo in xs && s.hi in xs && forall x :: x in xs ==> s.lo <= x <= s.hi
  {
    if xs[1..] != [] {
      SummaryBounds(xs[1..]);
    }
    assert xs == [xs[0]] + xs[1..];
  }
}
