/**
 * The drawdown-duration scan of `downside_metrics`: a two-state machine (at a
 * peak / in a drawdown) walks the drawdown curve, records the length of every
 * drawdown episode it closes and of the one still open at the end, and reports
 * the longest. Episodes close on an exact zero drawdown.
 */
module DurationScan {

  /**
   * The longest recorded episode, or 0 when none was recorded: the source's
   * `max(...) if ... else 0` over episode lengths, so over naturals with a
   * default rather than the `Option` of `Curves.Minimum`.
   */
  function MaxOrZero(periods: seq<nat>): (m: nat)
    ensures forall k :: 0 <= k < |periods| ==> periods[k] <= m
    ensures periods == [] ==> m == 0
    ensures periods != [] ==> m in periods
  {
    if periods == [] then 0
    else
      var n := |periods|;
      var m := MaxOrZero(periods[..n - 1]);
      assert periods == periods[..n - 1] + [periods[n - 1]];
      if m < periods[n - 1] then periods[n - 1] else m
  }

  /** Total length of the recorded episodes. */
  function Sum(periods: seq<nat>): nat
  {
    if periods == [] then 0 else Sum(periods[..|periods| - 1]) + periods[|periods| - 1]
  }

  /** The number of periods whose drawdown is strictly negative. */
  function CountNegative(drawdowns: seq<real>): nat
  {
    if drawdowns == [] then 0
    else
      var n := |drawdowns|;
      CountNegative(drawdowns[..n - 1]) + if drawdowns[n - 1] < 0.0 then 1 else 0
  }

  /** No episode is longer than all episodes together. */
  lemma {:induction false} MaxOrZeroAtMostSum(periods: seq<nat>)
    ensures MaxOrZero(periods) <= Sum(periods)
  {
    if periods != [] {
      MaxOrZeroAtMostSum(periods[..|periods| - 1]);
    }
  }

  /**
   * Every drawdown value is at most zero: the shape the drawdown curve has when
   * no return is -100% or worse (`Curves.DrawdownsNonPositive`).
   */
  ghost predicate NonPositive(drawdowns: seq<real>)
  {
    forall k :: 0 <= k < |drawdowns| ==> drawdowns[k] <= 0.0
  }

  /** `drawdowns[a..b]` is a run of strictly negative drawdown values. */
  ghost predicate NegativeRun(drawdowns: seq<real>, a: int, b: int)
  {
    0 <= a <= b <= |drawdowns| && forall k :: a <= k < b ==> drawdowns[k] < 0.0
  }

  /** n is the length of the longest run of strictly negative drawdown values. */
  ghost predicate IsLongestNegativeRun(drawdowns: seq<real>, n: nat)
  {
    && (exists a, b :: NegativeRun(drawdowns, a, b) && b - a == n)
    && (forall a, b :: NegativeRun(drawdowns, a, b) ==> b - a <= n)
  }

  /**
   * What the scan promises of the recorded episodes `periods` and their maximum
   * `maxDuration`: every episode lasts at least one period; the maximum is at
   * most the series length and is zero exactly when no drawdown is negative; on
   * a non-positive curve the episodes add up to the negative periods and the
   * maximum is the length of the longest negative run.
   */
  ghost predicate DurationSpec(drawdowns: seq<real>, periods: seq<nat>, maxDuration: nat)
  {
    && (forall k :: 0 <= k < |periods| ==> periods[k] >= 1)
    && maxDuration <= |drawdowns|
    && (maxDuration == 0 <==> forall k :: 0 <= k < |drawdowns| ==> drawdowns[k] >= 0.0)
    && (NonPositive(drawdowns) ==> Sum(periods) == CountNegative(drawdowns))
    && (NonPositive(drawdowns) ==> IsLongestNegativeRun(drawdowns, maxDuration))
  }

  /**
   * What holds after the scan has read `drawdowns[..i]`, in state `peak` with
   * counter `current` and episodes `periods`: the counter is non-zero exactly in
   * the drawdown state, where it counts the open episode's periods back to the
   * negative value that opened it, after a non-negative value or the start of
   * the series; no period is counted twice; `periods` and the state are both
   * empty exactly when nothing negative has been read. On a non-positive curve
   * the counts add up to the negative periods read, `bestStart` starts a
   * negative run as long as the longest recorded episode, and no negative run
   * read so far is longer than both that episode and the open one.
   */
  ghost predicate ScanState(drawdowns: seq<real>, i: nat, periods: seq<nat>, current: nat, peak: bool, bestStart: nat)
  {
    && i <= |drawdowns|
    && (current > 0 <==> !peak)
    && Sum(periods) + current <= i
    && (forall k :: 0 <= k < |periods| ==> periods[k] >= 1)
    && (!peak ==>
          && drawdowns[i - current] < 0.0
          && (forall k :: i - current <= k < i ==> drawdowns[k] != 0.0)
          && (i - current == 0 || drawdowns[i - current - 1] >= 0.0))
    && (peak ==> i == 0 || drawdowns[i - 1] >= 0.0)
    && ((periods == [] && peak) <==> forall k :: 0 <= k < i ==> drawdowns[k] >= 0.0)
    && (NonPositive(drawdowns) ==>
          && Sum(periods) + current == CountNegative(drawdowns[..i])
          && NegativeRun(drawdowns, bestStart, bestStart + MaxOrZero(periods))
          && forall a, b :: NegativeRun(drawdowns, a, b) && b <= i ==> b - a <= MaxOrZero(periods) || b - a <= current)
  }

  /** At a peak, a negative drawdown opens an episode of one period. */
  lemma OpenEpisode(drawdowns: seq<real>, i: nat, periods: seq<nat>, bestStart: nat)
    requires i < |drawdowns| && drawdowns[i] < 0.0
    requires ScanState(drawdowns, i, periods, 0, true, bestStart)
    ensures ScanState(drawdowns, i + 1, periods, 1, false, bestStart)
  {
    assert drawdowns[..i + 1][..i] == drawdowns[..i];
  }

  /** At a peak, a drawdown that is not negative leaves the scanner at the peak. */
  lemma StayAtPeak(drawdowns: seq<real>, i: nat, periods: seq<nat>, bestStart: nat)
    requires i < |drawdowns| && drawdowns[i] >= 0.0
    requires ScanState(drawdowns, i, periods, 0, true, bestStart)
    ensures ScanState(drawdowns, i + 1, periods, 0, true, bestStart)
  {
    assert drawdowns[..i + 1][..i] == drawdowns[..i];
  }

  /** In a drawdown, a non-zero value lengthens the open episode by one period. */
  lemma ExtendEpisode(drawdowns: seq<real>, i: nat, periods: seq<nat>, current: nat, bestStart: nat)
    requires i < |drawdowns| && drawdowns[i] != 0.0
    requires ScanState(drawdowns, i, periods, current, false, bestStart)
    ensures ScanState(drawdowns, i + 1, periods, current + 1, false, bestStart)
  {
    assert drawdowns[..i + 1][..i] == drawdowns[..i];
    if NonPositive(drawdowns) {
      forall a, b | NegativeRun(drawdowns, a, b) && b <= i + 1
        ensures b - a <= MaxOrZero(periods) || b - a <= current + 1
      {
      }
    }
  }

  /** In a drawdown, an exact zero closes the open episode and records its length. */
  lemma CloseEpisode(drawdowns: seq<real>, i: nat, periods: seq<nat>, current: nat, bestStart: nat)
    returns (newBestStart: nat)
    requires i < |drawdowns| && drawdowns[i] == 0.0
    requires ScanState(drawdowns, i, periods, current, false, bestStart)
    ensures ScanState(drawdowns, i + 1, periods + [current], 0, true, newBestStart)
  {
    newBestStart := if current > MaxOrZero(periods) then i - current else bestStart;
    assert drawdowns[..i + 1][..i] == drawdowns[..i];
    assert (periods + [current])[..|periods|] == periods;
  }

  /**
   * After the last period, an episode still open is recorded once. The recorded
   * episodes then all last at least one period, their maximum is zero exactly
   * when no drawdown is negative and is at most the series length, and on a
   * non-positive curve they cover the negative periods and their maximum is the
   * longest negative run.
   */
  lemma FinishScan(drawdowns: seq<real>, periods: seq<nat>, current: nat, peak: bool, bestStart: nat, all: seq<nat>)
    requires ScanState(drawdowns, |drawdowns|, periods, current, peak, bestStart)
    requires all == if current > 0 then periods + [current] else periods
    ensures DurationSpec(drawdowns, all, MaxOrZero(all))
  {
    var n := |drawdowns|;
    assert drawdowns[..n] == drawdowns;
    var start := if current > MaxOrZero(periods) then n - current else bestStart;
    assert (periods + [current])[..|periods|] == periods;
    MaxOrZeroAtMostSum(all);
    if NonPositive(drawdowns) {
      assert NegativeRun(drawdowns, start, start + MaxOrZero(all));
    }
  }

  /**
   * The scan of the drawdown curve. It returns the recorded episode durations
   * and their maximum. Every episode lasts at least one period; the maximum is
   * zero exactly when no drawdown is negative and never exceeds the series
   * length. On a curve with no positive value (every drawdown curve whose peaks
   * are positive) the durations add up to the number of negative periods and
   * the maximum is the longest run of negative drawdowns.
   */
  method MaxDrawdownDuration(drawdowns: seq<real>) returns (periods: seq<nat>, maxDuration: nat)
    ensures maxDuration == MaxOrZero(periods)
    ensures DurationSpec(drawdowns, periods, maxDuration)
  {
    periods := [];
    var current: nat := 0;
    var peak := true;
    // start of a longest recorded episode
    ghost var bestStart: nat := 0;
    for i := 0 to |drawdowns|
      invariant ScanState(drawdowns, i, periods, current, peak, bestStart)
    {
      if peak {
        if drawdowns[i] < 0.0 {
          OpenEpisode(drawdowns, i, periods, bestStart);
          peak := false;
          current := 1;
        } else {
          StayAtPeak(drawdowns, i, periods, bestStart);
        }
      } else {
        if drawdowns[i] == 0.0 {
          bestStart := CloseEpisode(drawdowns, i, periods, current, bestStart);
          peak := true;
          periods := periods + [current];
          current := 0;
        } else {
          ExtendEpisode(drawdowns, i, periods, current, bestStart);
          current := current + 1;
        }
      }
    }
    ghost var closed := periods;
    // a drawdown still open at the end of the series is recorded too
    if current > 0 {
      periods := periods + [current];
    }
    maxDuration := MaxOrZero(periods);
    FinishScan(drawdowns, closed, current, peak, bestStart, periods);
  }

  /**
   * A curve at its peak, two periods under water, back at the peak for two
   * periods, then one period under water at the end: the longest run of
   * negative drawdowns lasts two periods.
   */
  lemma LongestRunExample()
    ensures IsLongestNegativeRun([0.0, -0.1, -0.2, 0.0, 0.0, -0.05], 2)
  {
    var dd := [0.0, -0.1, -0.2, 0.0, 0.0, -0.05];
    assert NegativeRun(dd, 1, 3);
    forall a, b | NegativeRun(dd, a, b)
      ensures b - a <= 2
    {
      assert dd[0] == 0.0 && dd[3] == 0.0 && dd[4] == 0.0;
      if b <= 3 {
        assert a == b || a >= 1;
      } else {
        assert a == b || a >= 5;
      }
    }
  }

  /**
   * The scan itself on the curve of `LongestRunExample`: it reports the
   * longest run 2, and its episodes add up to all three negative periods,
   * so the last episode, still open when the series ends, is recorded as well.
   */
  method ScanExample() returns (periods: seq<nat>, maxDuration: nat)
    ensures maxDuration == 2
    ensures Sum(periods) == 3
  {
    var dd := [0.0, -0.1, -0.2, 0.0, 0.0, -0.05];
    periods, maxDuration := MaxDrawdownDuration(dd);
    LongestRunExample();
    ghost var a, b :| NegativeRun(dd, a, b) && b - a == maxDuration;
    assert NegativeRun(dd, 1, 3);
    assert CountNegative(dd) == 3 by {
      var p1, p2, p3 := [0.0], [0.0, -0.1], [0.0, -0.1, -0.2];
      var p4, p5 := p3 + [0.0], p3 + [0.0, 0.0];
      assert p1[..0] == [] && p2[..1] == p1 && p3[..2] == p2;
      assert p4[..3] == p3 && p5[..4] == p4 && dd[..5] == p5;
      assert CountNegative(p3) == 2;
      assert CountNegative(p5) == 2;
    }
  }
}
