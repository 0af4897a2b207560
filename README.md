# Downside metrics of a strategy's return series

A Dafny model of `downside_metrics` from `Functions/AlphaBeta.py`. This function of the
portfolio-theory toolkit takes a strategy's periodic returns and its benchmark ("market")
returns and reports these tail-risk figures:

- the maximum drawdown;
- the longest drawdown duration;
- the 5% Value-at-Risk (VaR);
- the Conditional VaR (CVaR, the mean of the returns at or below VaR);
- the downside beta.

Python floats are modelled by Dafny's exact `real`s.

The model follows the function step by step:

- `curves.dfy` (module `Curves`) covers the first steps. The cumulative-return curve
  `(1 + r).cumprod()` is `CumReturns`, proved equal to the prefix products `Compound`. The
  running maximum `np.maximum.accumulate` is `RunningMax`, proved equal to the maximum of each
  prefix. The drawdown curve `(cum - running_max) / running_max` is `Drawdowns`, and the
  maximum drawdown `np.min` is `Minimum` / `MaxDrawdown`.
- `duration_scan.dfy` (module `DurationScan`) is the drawdown-duration loop. It is an
  imperative `for` loop over the drawdown curve with the source's two-state machine (`peak`
  flag, `current` counter, list of finished episode lengths). Each transition is a lemma over
  the loop invariant `ScanState`. The method is proved against `DurationSpec`: when no
  drawdown is positive, the reported maximum is the length of the longest run of strictly
  negative drawdowns.
- `tail_filters.dfy` (module `TailFilters`) covers numpy boolean-mask indexing (`Select` over
  `TrueIndices`). It holds the left-tail filter `returns <= var_95` and its mean
  (`CVaR <= VaR`), and the two down-market selections. Both down-market selections use the
  same market mask, so they stay aligned day by day.
- `downside_metrics.dfy` (module `DownsideMetrics`) chains the steps as the source does. It
  models the two ways the source raises as `Failure` values.
- `wrappers.dfy` (module `Wrappers`) holds the `Option` and `Result` datatypes.

These facts about the code shape the model:

- The drawdown `(cum - running_max) / running_max` is guaranteed to be at most zero only
  while the running maximum is positive (`Curves.Drawdowns`). That holds when no return is
  -100% or worse (`Curves.DrawdownsNonPositive`). A return below -100% can make the curve
  negative, and then the running maximum can be negative too; every drawdown is then at least
  zero: zero at a new high of the curve, positive below it. So the scan is modelled for any
  real drawdown curve, and the "longest negative run" result is stated for non-positive curves.
- After the loop, the code records a trailing episode when `current_duration > 0`
  (Functions/AlphaBeta.py:88-89). The scan invariant `ScanState` shows that the counter is
  positive exactly when the scanner is not at a peak, so this records every episode still open
  at the end and nothing else.
- The masks `returns <= var_95` and `market_returns < 0` are `TailFilters.AtOrBelow` and
  `TailFilters.Negative`, one boolean per return; their meaning is stated through `Tail`,
  `CVaR`, `DownDayIndices` and `DownMarket`.

## Model

| member | source | states |
|---|---|---|
| `Curves.CumReturns` | Functions/AlphaBeta.py:62 | the curve has one value per return, and its i-th value is the product of (1 + r) over the first i+1 returns |
| `Curves.CompoundPositive` | Functions/AlphaBeta.py:62 | when every return is above -100%, the compounded growth factor is positive |
| `Curves.RunningMax` | Functions/AlphaBeta.py:63 | the running maximum has one value per period, and each value is the largest curve value up to and including that period |
| `Curves.MaxOfIsMaximum` | Functions/AlphaBeta.py:63 | the prefix maximum is a value of the prefix, and no value of the prefix exceeds it |
| `Curves.RunningMaxShape` | Functions/AlphaBeta.py:63 | the running maximum is never below the curve at or before its period, is a value the curve took by then, and never decreases |
| `Curves.Decline` | Functions/AlphaBeta.py:64 | the decline (c - m)/m from a positive peak m >= c is at most zero, and is zero exactly when c == m |
| `Curves.Drawdowns` | Functions/AlphaBeta.py:64 | one drawdown per period; where the running maximum is positive, the drawdown is at most zero and is zero exactly when the curve is at its running maximum |
| `Curves.CurvesPositive` | Functions/AlphaBeta.py:62-64 | when every return is above -100%, the curve and its running maximum are positive, so every drawdown quotient is defined |
| `Curves.DrawdownsNonPositive` | Functions/AlphaBeta.py:62-64 | when every return is above -100%, every drawdown is at most zero, and it is zero exactly at a new high of the curve |
| `Curves.Minimum` | Functions/AlphaBeta.py:67 | np.min exists exactly for a non-empty series, is one of its values, and is at most every value |
| `Curves.MaxDrawdown` | Functions/AlphaBeta.py:64-67 | the maximum drawdown exists exactly for a non-empty series, is one of the drawdowns, and is at most every drawdown |
| `Curves.MaxDrawdownBounds` | Functions/AlphaBeta.py:67 | for a non-empty series with returns above -100%, the maximum drawdown exists, is one of the drawdowns, is at most every drawdown, and is at most zero |
| `Curves.MaxDrawdownZero` | Functions/AlphaBeta.py:62-67 | when every return is above -100%, the maximum drawdown is zero exactly when the curve never falls below its running maximum |
| `DurationScan.MaxOrZero` | Functions/AlphaBeta.py:91 | `max(periods) if periods else 0` is at least every recorded duration, is one of them when there are any, and is 0 when there are none |
| `DurationScan.OpenEpisode` | Functions/AlphaBeta.py:75-78 | at a peak, a negative drawdown moves the scanner into the drawdown state with a count of 1, and the scan invariant is kept |
| `DurationScan.StayAtPeak` | Functions/AlphaBeta.py:75-76 | at a peak, a drawdown that is not negative leaves the scanner at the peak, and the scan invariant is kept |
| `DurationScan.ExtendEpisode` | Functions/AlphaBeta.py:84-85 | in a drawdown, a non-zero value adds one to the open episode, and the scan invariant, including the longest-run bound, is kept |
| `DurationScan.CloseEpisode` | Functions/AlphaBeta.py:79-83 | in a drawdown, an exact zero records the open episode's length, resets the counter, and returns to the peak state, and the scan invariant is kept |
| `DurationScan.FinishScan` | Functions/AlphaBeta.py:87-91 | an episode still open at the end is recorded once; the result then meets `DurationSpec` |
| `DurationScan.MaxDrawdownDuration` | Functions/AlphaBeta.py:70-91 | every recorded episode lasts at least one period; the maximum is at most the series length and is 0 exactly when no drawdown is negative; on a non-positive curve, the episodes add up to the number of negative periods and the maximum is the longest run of negative drawdowns |
| `DurationScan.LongestRunExample` | Functions/AlphaBeta.py:70-91 | for the curve 0, -0.1, -0.2, 0, 0, -0.05, the longest run of negative drawdowns is 2 |
| `DurationScan.ScanExample` | Functions/AlphaBeta.py:70-91 | the scan run on that curve reports a duration of 2, and its episodes add up to all 3 negative periods, so the episode still open at the end is recorded |
| `TailFilters.TrueIndices` | Functions/AlphaBeta.py:97-101 | a boolean mask selects exactly its true positions, in increasing order |
| `TailFilters.Select` | Functions/AlphaBeta.py:97-101 | boolean indexing keeps, in order, exactly the elements at the mask's true positions |
| `TailFilters.AtOrBelowCounts` | Functions/AlphaBeta.py:97 | the mask `returns <= var_95` keeps each value at or below the cutoff as often as it occurs in the series, and no other value |
| `TailFilters.Tail` | Functions/AlphaBeta.py:97 | the tail holds every return at or below `var_95`, each as often as in the series, and nothing else, and is no longer than the series |
| `TailFilters.Mean` | Functions/AlphaBeta.py:97 | the mean is defined exactly for a non-empty series (numpy gives nan otherwise) |
| `TailFilters.MeanWithin` | Functions/AlphaBeta.py:97 | the mean of a non-empty series lies between any lower and upper bound of its values |
| `TailFilters.CVaR` | Functions/AlphaBeta.py:94-97 | CVaR is defined exactly when some return is at or below `var_95`; it is then at most `var_95` and at least the smallest return |
| `TailFilters.DownDayIndices` | Functions/AlphaBeta.py:100-101 | the selected days are exactly the days with a negative market return, each once, in increasing order |
| `TailFilters.DownMarket` | Functions/AlphaBeta.py:100-101 | the selection succeeds exactly for series of equal length; both selections then have one entry per down-market day, taken from that same day |
| `TailFilters.DownMarketSound` | Functions/AlphaBeta.py:100-101 | every selected market return is negative, and each selected pair is the strategy's and the market's return of one day |
| `TailFilters.DownMarketComplete` | Functions/AlphaBeta.py:100-101 | every day on which the market fell contributes its pair of returns to the selections |
| `DownsideMetrics.ComputeDownsideMetrics` | Functions/AlphaBeta.py:60-110 | fails on an empty strategy series or on series of different lengths, and succeeds otherwise; on success, the outputs are the maximum drawdown, the scan's duration (at most the series length, 0 exactly when no drawdown is negative), the caller's VaR, CVaR, and the aligned down-day selections; with returns above -100%, the maximum drawdown is at most zero; whenever no drawdown is positive (so in particular then), the duration is the longest run of negative drawdowns |

## Left out

- `AlphaBeta` (Functions/AlphaBeta.py:11-39) is left out. It is an OLS fit by `np.polyfit` with `np.round`, a floating-point library call. Its plotting branch is matplotlib output.
- `expanded_risk_metrics` (Functions/AlphaBeta.py:41-58) is left out. The Sharpe, Treynor and Sortino ratios divide by `np.std`, a square root, and by the beta from `np.polyfit`. It is floating-point numerics with no discrete logic.
- `var_95 = np.percentile(strategy_returns, 5)` (Functions/AlphaBeta.py:94) is not computed. Its linear interpolation over the sorted returns is a library call, so VaR is a parameter of `ComputeDownsideMetrics`.
- The value of `down_beta` (Functions/AlphaBeta.py:102) is not computed. It is numpy's covariance (n-1 normalisation) divided by numpy's variance (n normalisation), a library statistic. The model returns the two aligned selections it is computed from.
- Floating-point rounding, nan and inf are not modelled. The exact-zero recovery test of the scan is exact real equality.
- Curves.Drawdowns: requires that no running maximum is zero. When a return of exactly -100% makes the running maximum zero, numpy gives nan (0/0) for that drawdown, and the model has no such values.
- Curves.MaxDrawdown: requires that no running maximum is zero, for the reason given for `Curves.Drawdowns`; there `np.min` of a curve holding nan gives nan.
- DownsideMetrics.ComputeDownsideMetrics: requires that no running maximum is zero, for the reason given for `Curves.Drawdowns`.
- DownsideMetrics.ComputeDownsideMetrics: models an empty CVaR tail as `None`, where numpy returns nan with a runtime warning.
- The printing of numpy's runtime warnings and the dictionary keys of the result are not modelled. The result is the datatype `TailRisk`, with one field per key, plus the two down-day selections.
- The inputs are taken to be 1-D numpy arrays, so the length check of `DownMarket` is numpy's boolean-index shape check. With pandas Series, `strategy_returns[market_returns < 0]` aligns the mask by index labels instead of by position, and the error paths differ; that case is not modelled.
