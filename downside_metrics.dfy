/**
 * `downside_metrics`: the tail-risk figures of
 * a strategy against its benchmark. The 5% Value-at-Risk, which the program
 * takes from numpy's interpolated percentile, is supplied by the caller, and the
 * down-market beta is represented by the two aligned selections it is computed from.
 */
module DownsideMetrics {
  import opened Wrappers
  import Curves
  import DurationScan
  import TailFilters

  /** The ways `downside_metrics` fails instead of returning its figures. */
  datatype MetricsError =
    | EmptyReturns    // `np.min` of the empty drawdown curve raises
    | LengthMismatch  // the market's mask cannot index a strategy series of another length

  /** The figures `downside_metrics` returns. */
  datatype TailRisk = TailRisk(
    maxDrawdown: real,
    maxDrawdownDuration: nat,
    var95: real,
    cvar95: Option<real>,
    downStrategy: seq<real>,
    downMarket: seq<real>)

  /**
   * The whole computation. It fails exactly on an empty strategy series or on
   * series of different lengths. Otherwise the maximum drawdown is the least
   * value of the drawdown curve, the duration is the scan's, CVaR is the mean of
   * the tail at or below `var95`, and the down-day selections are the market's
   * mask applied to both series. When no return is -100% or worse, the maximum
   * drawdown is at most zero. Whenever no drawdown is positive, which is then
   * the case, the duration is the length of the longest run of negative
   * drawdowns.
   */
  method ComputeDownsideMetrics(strategy: seq<real>, market: seq<real>, var95: real)
    returns (r: Result<TailRisk, MetricsError>)
    requires Curves.PeaksNonZero(strategy)
    ensures strategy == [] ==> r == Failure(EmptyReturns)
    ensures strategy != [] && |market| != |strategy| ==> r == Failure(LengthMismatch)
    ensures r.Success? <==> strategy != [] && |market| == |strategy|
    ensures r.Success? ==>
              && Curves.MaxDrawdown(strategy) == Some(r.value.maxDrawdown)
              && r.value.var95 == var95
              && r.value.cvar95 == TailFilters.CVaR(strategy, var95)
              && TailFilters.DownMarket(strategy, market) == Some(TailFilters.DownDays(r.value.downStrategy, r.value.downMarket))
    ensures r.Success? ==>
              var dd := Curves.Drawdowns(strategy);
              && r.value.maxDrawdownDuration <= |strategy|
              && (r.value.maxDrawdownDuration == 0 <==> forall k :: 0 <= k < |dd| ==> dd[k] >= 0.0)
    ensures r.Success? && Curves.AboveMinusOne(strategy) ==>
              && r.value.maxDrawdown <= 0.0
              && DurationScan.IsLongestNegativeRun(Curves.Drawdowns(strategy), r.value.maxDrawdownDuration)
    ensures r.Success? && DurationScan.NonPositive(Curves.Drawdowns(strategy)) ==>
              DurationScan.IsLongestNegativeRun(Curves.Drawdowns(strategy), r.value.maxDrawdownDuration)
  {
    var drawdowns := Curves.Drawdowns(strategy);
    var maxDrawdown := Curves.Minimum(drawdowns);
    if maxDrawdown.None? {
      return Failure(EmptyReturns);
    }
    var periods, maxDuration := DurationScan.MaxDrawdownDuration(drawdowns);
    var cvar95 := TailFilters.CVaR(strategy, var95);
    var down := TailFilters.DownMarket(strategy, market);
    if down.None? {
      return Failure(LengthMismatch);
    }
    r := Success(TailRisk(maxDrawdown.value, maxDuration, var95, cvar95, down.value.strategy, down.value.market));
    if Curves.AboveMinusOne(strategy) {
      Curves.MaxDrawdownBounds(strategy);
      Curves.DrawdownsNonPositive(strategy);
    }
  }
}
