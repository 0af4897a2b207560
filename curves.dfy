/**
 * The curves that `downside_metrics` derives from a strategy's periodic returns:
 * the cumulative-return curve, its running maximum, the drawdown curve and the
 * maximum drawdown (its minimum). Python floats are modelled by exact reals.
 */
module Curves {
  import opened Wrappers

  /** Growth factor of a run of periodic returns: the product of (1 + r) over the run. */
  function Compound(series: seq<real>): real
  {
    if series == [] then 1.0
    else Compound(series[..|series| - 1]) * (1.0 + series[|series| - 1])
  }

  /** No period loses the whole investment or more. */
  ghost predicate AboveMinusOne(series: seq<real>)
  {
    forall i :: 0 <= i < |series| ==> series[i] > -1.0
  }

  /** A series of returns none of which loses everything keeps a positive growth factor. */
  lemma {:induction false} CompoundPositive(series: seq<real>)
    requires AboveMinusOne(series)
    ensures Compound(series) > 0.0
  {
    if series != [] {
      var n := |series|;
      CompoundPositive(series[..n - 1]);
      ProductPositive(Compound(series[..n - 1]), 1.0 + series[n - 1]);
    }
  }

  lemma ProductPositive(a: real, b: real)
    requires a > 0.0 && b > 0.0
    ensures a * b > 0.0
  {
  }

  /**
   * The cumulative product of the growth factors: the cumulative-return curve, built left to
   * right by multiplying the previous value by the next growth factor.
   */
  function CumReturns(series: seq<real>): (cum: seq<real>)
    ensures |cum| == |series|
    ensures forall i :: 0 <= i < |series| ==> cum[i] == Compound(series[..i + 1])
  {
    if series == [] then []
    else
      var n := |series|;
      var prev := CumReturns(series[..n - 1]);
      var base := if n == 1 then 1.0 else prev[n - 2];
      assert forall i | 0 <= i < n - 1 :: prev[i] == Compound(series[..i + 1]) by {
        forall i | 0 <= i < n - 1
          ensures prev[i] == Compound(series[..i + 1])
        {
          assert series[..n - 1][..i + 1] == series[..i + 1];
        }
      }
      assert base == Compound(series[..n - 1]) by {
        if n > 1 {
          assert series[..n - 1][..n - 1] == series[..n - 1];
        }
      }
      assert series[..n] == series;
      prev + [base * (1.0 + series[n - 1])]
  }

  /**
   * The largest value of a non-empty series: the reference definition of each
   * running-maximum entry, whose prefix is never empty. `Minimum` (an
   * `Option`, for np.min on a possibly empty series) and
   * `DurationScan.MaxOrZero` (naturals, with Python's 0 default) cover the
   * other two extrema of the source, each with its own empty case.
   */
  function MaxOf(s: seq<real>): real
    requires s != []
  {
    if |s| == 1 then s[0]
    else
      var m := MaxOf(s[..|s| - 1]);
      if m < s[|s| - 1] then s[|s| - 1] else m
  }

  /** MaxOf is a value of the series and no value of the series exceeds it. */
  lemma {:induction false} MaxOfIsMaximum(s: seq<real>)
    requires s != []
    ensures MaxOf(s) in s
    ensures forall k :: 0 <= k < |s| ==> s[k] <= MaxOf(s)
  {
    if |s| > 1 {
      var n := |s|;
      MaxOfIsMaximum(s[..n - 1]);
      assert s == s[..n - 1] + [s[n - 1]];
    }
  }

  /**
   * `np.maximum.accumulate(cum)`: at each period the larger of the previous
   * running maximum and the current value, which is the largest value of the
   * curve up to and including that period.
   */
  function RunningMax(cum: seq<real>): (peak: seq<real>)
    ensures |peak| == |cum|
    ensures forall i :: 0 <= i < |cum| ==> peak[i] == MaxOf(cum[..i + 1])
  {
    if cum == [] then []
    else
      var n := |cum|;
      var prev := RunningMax(cum[..n - 1]);
      var top := if n == 1 || prev[n - 2] < cum[n - 1] then cum[n - 1] else prev[n - 2];
      assert forall i | 0 <= i < n - 1 :: prev[i] == MaxOf(cum[..i + 1]) by {
        forall i | 0 <= i < n - 1
          ensures prev[i] == MaxOf(cum[..i + 1])
        {
          assert cum[..n - 1][..i + 1] == cum[..i + 1];
        }
      }
      assert top == MaxOf(cum[..n]) by {
        assert cum[..n] == cum;
        if n > 1 {
          assert cum[..n - 1][..n - 1] == cum[..n - 1];
          assert cum[..n][..n - 1] == cum[..n - 1];
        }
      }
      prev + [top]
  }

  /**
   * The running maximum is never below the curve at or before its period, is a
   * value the curve took at or before its period, and never decreases.
   */
  lemma RunningMaxShape(cum: seq<real>)
    ensures forall i, k :: 0 <= k <= i < |cum| ==> cum[k] <= RunningMax(cum)[i]
    ensures forall i :: 0 <= i < |cum| ==> RunningMax(cum)[i] in cum[..i + 1]
    ensures forall i, j :: 0 <= i <= j < |cum| ==> RunningMax(cum)[i] <= RunningMax(cum)[j]
  {
    var peak := RunningMax(cum);
    forall i | 0 <= i < |cum|
      ensures peak[i] in cum[..i + 1]
      ensures forall k :: 0 <= k <= i ==> cum[k] <= peak[i]
    {
      MaxOfIsMaximum(cum[..i + 1]);
      assert forall k :: 0 <= k <= i ==> cum[..i + 1][k] == cum[k];
    }
    forall i, j | 0 <= i <= j < |cum|
      ensures peak[i] <= peak[j]
    {
      var k :| 0 <= k <= i && cum[k] == peak[i];
    }
  }

  /** No running maximum is zero, so every drawdown is a defined quotient. */
  ghost predicate PeaksNonZero(series: seq<real>)
  {
    forall i :: 0 <= i < |series| ==> RunningMax(CumReturns(series))[i] != 0.0
  }

  /**
   * The drawdown curve: the fractional decline of the curve from
   * its running maximum. Where that maximum is positive, the decline is never
   * positive, and it is zero exactly when the curve stands at its maximum.
   */
  function Drawdowns(series: seq<real>): (dd: seq<real>)
    requires PeaksNonZero(series)
    ensures |dd| == |series|
    ensures forall i :: 0 <= i < |series| && RunningMax(CumReturns(series))[i] > 0.0 ==>
              dd[i] <= 0.0 && (dd[i] == 0.0 <==> CumReturns(series)[i] == RunningMax(CumReturns(series))[i])
  {
    var cum := CumReturns(series);
    var peak := RunningMax(cum);
    RunningMaxShape(cum);
    seq(|series|, i requires 0 <= i < |series| => Decline(cum[i], peak[i]))
  }

  /**
   * The fractional decline `(c - m) / m` of a value c from a peak m; for a
   * positive peak that is at least c it is at most zero, and zero exactly at c == m.
   */
  function Decline(c: real, m: real): (q: real)
    requires m != 0.0
    ensures 0.0 < m && c <= m ==> q <= 0.0 && (q == 0.0 <==> c == m)
  {
    var q := (c - m) / m;
    assert q * m == c - m;
    if 0.0 < m && c <= m && q > 0.0 then
      ProductPositive(q, m);
      q
    else q
  }

  /** `np.min`: the smallest value of a series; numpy raises on an empty one. */
  function Minimum(s: seq<real>): (m: Option<real>)
    ensures m.Some? <==> s != []
    ensures m.Some? ==> m.value in s && forall i :: 0 <= i < |s| ==> m.value <= s[i]
  {
    if s == [] then None
    else
      var n := |s|;
      match Minimum(s[..n - 1])
      case None => Some(s[n - 1])
      case Some(m) => if s[n - 1] < m then Some(s[n - 1]) else Some(m)
  }

  /** The maximum drawdown: the least value of the drawdown curve. */
  function MaxDrawdown(series: seq<real>): (m: Option<real>)
    requires PeaksNonZero(series)
    ensures m.Some? <==> series != []
    ensures m.Some? ==> m.value in Drawdowns(series)
    ensures m.Some? ==> forall i :: 0 <= i < |series| ==> m.value <= Drawdowns(series)[i]
  {
    Minimum(Drawdowns(series))
  }

  /** When no return is -100% or worse, the curve stays positive and so does its running maximum. */
  lemma CurvesPositive(series: seq<real>)
    requires AboveMinusOne(series)
    ensures forall i :: 0 <= i < |series| ==> CumReturns(series)[i] > 0.0
    ensures forall i :: 0 <= i < |series| ==> RunningMax(CumReturns(series))[i] > 0.0
    ensures PeaksNonZero(series)
  {
    forall i | 0 <= i < |series|
      ensures CumReturns(series)[i] > 0.0
    {
      CompoundPositive(series[..i + 1]);
    }
    RunningMaxShape(CumReturns(series));
  }

  /**
   * Every drawdown is at most zero, and a drawdown is zero exactly when the
   * cumulative curve is at its running maximum (a new high).
   */
  lemma DrawdownsNonPositive(series: seq<real>)
    requires AboveMinusOne(series)
    ensures PeaksNonZero(series)
    ensures forall i :: 0 <= i < |series| ==>
              Drawdowns(series)[i] <= 0.0 &&
              (Drawdowns(series)[i] == 0.0 <==> CumReturns(series)[i] == RunningMax(CumReturns(series))[i])
  {
    CurvesPositive(series);
  }

  /**
   * For a non-empty series the maximum drawdown exists, is a drawdown that
   * occurred, is no larger than any drawdown, and is at most zero.
   */
  lemma MaxDrawdownBounds(series: seq<real>)
    requires AboveMinusOne(series) && series != []
    ensures PeaksNonZero(series)
    ensures MaxDrawdown(series).Some?
    ensures MaxDrawdown(series).value in Drawdowns(series)
    ensures forall i :: 0 <= i < |series| ==> MaxDrawdown(series).value <= Drawdowns(series)[i]
    ensures MaxDrawdown(series).value <= 0.0
  {
    DrawdownsNonPositive(series);
    var dd := Drawdowns(series);
    assert dd[0] <= 0.0;
  }

  /**
   * The maximum drawdown is zero exactly when the cumulative curve never falls
   * below its running maximum.
   */
  lemma MaxDrawdownZero(series: seq<real>)
    requires AboveMinusOne(series) && series != []
    ensures PeaksNonZero(series)
    ensures MaxDrawdown(series) == Some(0.0) ==>
              forall i :: 0 <= i < |series| ==> CumReturns(series)[i] == RunningMax(CumReturns(series))[i]
    ensures (forall i :: 0 <= i < |series| ==> CumReturns(series)[i] == RunningMax(CumReturns(series))[i]) ==>
              MaxDrawdown(series) == Some(0.0)
  {
    MaxDrawdownBounds(series);
    DrawdownsNonPositive(series);
  }
}
