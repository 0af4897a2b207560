/**
 * The boolean-mask selections of `downside_metrics` that feed its tail
 * statistics: the left tail of the strategy's returns at or below the 5%
 * Value-at-Risk, whose mean is the Conditional VaR, and the strategy's and the
 * market's returns on the days the market fell (the inputs of downside beta).
 */
module TailFilters {
  import opened Wrappers
  import Curves

  /** The positions a boolean mask selects, in increasing order. */
  function TrueIndices(mask: seq<bool>): (idx: seq<nat>)
    ensures forall j :: 0 <= j < |idx| ==> idx[j] < |mask| && mask[idx[j]]
    ensures forall j, k :: 0 <= j < k < |idx| ==> idx[j] < idx[k]
    ensures forall i :: 0 <= i < |mask| && mask[i] ==> i in idx
  {
    if mask == [] then []
    else
      var n := |mask|;
      var prev := TrueIndices(mask[..n - 1]);
      if mask[n - 1] then prev + [n - 1] else prev
  }

  /**
   * numpy's boolean indexing `s[mask]`: the elements whose mask entry is true,
   * in their original order. The j-th selected element is the element at the
   * j-th selected position.
   */
  function Select<T>(s: seq<T>, mask: seq<bool>): (t: seq<T>)
    requires |mask| == |s|
    ensures |t| == |TrueIndices(mask)|
    ensures forall j :: 0 <= j < |t| ==> t[j] == s[TrueIndices(mask)[j]]
  {
    if s == [] then []
    else
      var n := |s|;
      var prev := Select(s[..n - 1], mask[..n - 1]);
      if mask[n - 1] then prev + [s[n - 1]] else prev
  }

  /** The mask `s <= bound`. */
  function AtOrBelow(s: seq<real>, bound: real): seq<bool>
  {
    seq(|s|, i requires 0 <= i < |s| => s[i] <= bound)
  }

  /** The mask `s < 0`. */
  function Negative(s: seq<real>): seq<bool>
  {
    seq(|s|, i requires 0 <= i < |s| => s[i] < 0.0)
  }

  /**
   * Selecting with the mask `s <= bound` keeps every occurrence of each value at
   * most the bound, repeats included, and drops every other value.
   */
  lemma {:induction false} AtOrBelowCounts(s: seq<real>, bound: real)
    ensures forall x :: multiset(Select(s, AtOrBelow(s, bound)))[x] ==
                          if x <= bound then multiset(s)[x] else 0
  {
    if s != [] {
      var n := |s|;
      AtOrBelowCounts(s[..n - 1], bound);
      assert AtOrBelow(s, bound)[..n - 1] == AtOrBelow(s[..n - 1], bound);
      assert s == s[..n - 1] + [s[n - 1]];
    }
  }

  /**
   * The returns in the left tail, selected with the mask `s <= var95`. A value
   * is kept exactly when it occurs in the series and is at most the cutoff, and
   * as often as it occurs there.
   */
  function Tail(s: seq<real>, var95: real): (t: seq<real>)
    ensures forall j :: 0 <= j < |t| ==> t[j] <= var95
    ensures forall x :: x in t <==> x in s && x <= var95
    ensures forall x :: multiset(t)[x] == if x <= var95 then multiset(s)[x] else 0
    ensures |t| <= |s|
  {
    var mask := AtOrBelow(s, var95);
    var t := Select(s, mask);
    var idx := TrueIndices(mask);
    assert forall j :: 0 <= j < |t| ==> t[j] == s[idx[j]] && mask[idx[j]];
    assert forall x :: x in s && x <= var95 ==> x in t by {
      forall x | x in s && x <= var95
        ensures x in t
      {
        var i :| 0 <= i < |s| && s[i] == x;
        assert mask[i];
        var j :| 0 <= j < |idx| && idx[j] == i;
        assert t[j] == x;
      }
    }
    SelectedAtMostAll(mask);
    AtOrBelowCounts(s, var95);
    t
  }

  /** A mask selects no more positions than it has. */
  lemma {:induction false} SelectedAtMostAll(mask: seq<bool>)
    ensures |TrueIndices(mask)| <= |mask|
  {
    if mask != [] {
      SelectedAtMostAll(mask[..|mask| - 1]);
    }
  }

  /** Sum of a series of reals. */
  function RealSum(s: seq<real>): real
  {
    if s == [] then 0.0 else RealSum(s[..|s| - 1]) + s[|s| - 1]
  }

  /** `s.mean()`; numpy gives `nan` for an empty series, modelled as `None`. */
  function Mean(s: seq<real>): (m: Option<real>)
    ensures m.Some? <==> s != []
  {
    if s == [] then None else Some(RealSum(s) / (|s| as real))
  }

  /** A series whose values are all at most `bound` sums to at most |s| times `bound`. */
  lemma {:induction false} SumAtMost(s: seq<real>, bound: real)
    requires forall i :: 0 <= i < |s| ==> s[i] <= bound
    ensures RealSum(s) <= (|s| as real) * bound
  {
    if s != [] {
      SumAtMost(s[..|s| - 1], bound);
    }
  }

  /** A series whose values are all at least `bound` sums to at least |s| times `bound`. */
  lemma {:induction false} SumAtLeast(s: seq<real>, bound: real)
    requires forall i :: 0 <= i < |s| ==> s[i] >= bound
    ensures RealSum(s) >= (|s| as real) * bound
  {
    if s != [] {
      SumAtLeast(s[..|s| - 1], bound);
    }
  }

  /** The mean of a non-empty series lies between any lower and upper bound of its values. */
  lemma MeanWithin(s: seq<real>, lo: real, hi: real)
    requires s != []
    requires forall i :: 0 <= i < |s| ==> lo <= s[i] <= hi
    ensures lo <= Mean(s).value <= hi
  {
    SumAtMost(s, hi);
    SumAtLeast(s, lo);
    var n := |s| as real;
    assert RealSum(s) / n <= hi by {
      assert RealSum(s) / n * n == RealSum(s);
    }
    assert lo <= RealSum(s) / n by {
      assert RealSum(s) / n * n == RealSum(s);
    }
  }

  /**
   * Conditional VaR, the mean of the left tail: defined
   * exactly when some return is at or below the cutoff, and then never above
   * the cutoff (the tail mean is at least as extreme as VaR) and never below
   * the smallest return.
   */
  function CVaR(s: seq<real>, var95: real): (cvar: Option<real>)
    ensures cvar.Some? <==> exists i :: 0 <= i < |s| && s[i] <= var95
    ensures cvar.Some? ==> cvar.value <= var95
    ensures cvar.Some? ==> Curves.Minimum(s).Some? && Curves.Minimum(s).value <= cvar.value
  {
    var tail := Tail(s, var95);
    if tail == [] then
      assert forall i :: 0 <= i < |s| ==> s[i] > var95 by {
        forall i | 0 <= i < |s|
          ensures s[i] > var95
        {
          assert s[i] in s;
        }
      }
      None
    else
      var lo := Curves.Minimum(s).value;
      assert forall j :: 0 <= j < |tail| ==> lo <= tail[j] by {
        forall j | 0 <= j < |tail|
          ensures lo <= tail[j]
        {
          assert tail[j] in tail;
        }
      }
      MeanWithin(tail, lo, var95);
      Mean(tail)
  }

  /** The strategy's and the market's returns on the days the market fell, aligned day by day. */
  datatype DownDays = DownDays(strategy: seq<real>, market: seq<real>)

  /** The days the market fell, each once and in order: the positions selected by `market_returns < 0`. */
  function DownDayIndices(market: seq<real>): (idx: seq<nat>)
    ensures forall j :: 0 <= j < |idx| ==> idx[j] < |market| && market[idx[j]] < 0.0
    ensures forall j, k :: 0 <= j < k < |idx| ==> idx[j] < idx[k]
    ensures forall i :: 0 <= i < |market| && market[i] < 0.0 ==> i in idx
  {
    var idx := TrueIndices(Negative(market));
    assert forall i :: 0 <= i < |market| && market[i] < 0.0 ==> Negative(market)[i];
    idx
  }

  /**
   * The down-market selections of both series: one mask, taken from the market,
   * selects the same days from both series, so the j-th entries of the two
   * selections are the two returns of the j-th down day. Indexing the strategy
   * with a mask of another length raises, modelled as `None`.
   */
  function DownMarket(strategy: seq<real>, market: seq<real>): (r: Option<DownDays>)
    ensures r.Some? <==> |strategy| == |market|
    ensures r.Some? ==>
              && |r.value.strategy| == |r.value.market| == |DownDayIndices(market)|
              && forall j :: 0 <= j < |r.value.market| ==>
                   && r.value.market[j] == market[DownDayIndices(market)[j]]
                   && r.value.strategy[j] == strategy[DownDayIndices(market)[j]]
  {
    if |strategy| != |market| then None
    else
      var mask := Negative(market);
      Some(DownDays(Select(strategy, mask), Select(market, mask)))
  }

  /**
   * Each selected pair is the strategy's and the market's return of one day on
   * which the market fell.
   */
  lemma DownMarketSound(strategy: seq<real>, market: seq<real>)
    requires |strategy| == |market|
    ensures var down := DownMarket(strategy, market).value;
      forall j :: 0 <= j < |down.market| ==>
        down.market[j] < 0.0 &&
        exists i :: 0 <= i < |market| && down.market[j] == market[i] && down.strategy[j] == strategy[i]
  {
    var down := DownMarket(strategy, market).value;
    var idx := DownDayIndices(market);
    forall j | 0 <= j < |down.market|
      ensures down.market[j] < 0.0
      ensures exists i :: 0 <= i < |market| && down.market[j] == market[i] && down.strategy[j] == strategy[i]
    {
      var i := idx[j];
      assert down.market[j] == market[i] && down.strategy[j] == strategy[i];
    }
  }

  /** Every day on which the market fell contributes its pair of returns to the selections. */
  lemma DownMarketComplete(strategy: seq<real>, market: seq<real>)
    requires |strategy| == |market|
    ensures var down := DownMarket(strategy, market).value;
      forall i :: 0 <= i < |market| && market[i] < 0.0 ==>
        exists j :: 0 <= j < |down.market| && down.market[j] == market[i] && down.strategy[j] == strategy[i]
  {
    var down := DownMarket(strategy, market).value;
    var idx := DownDayIndices(market);
    forall i | 0 <= i < |market| && market[i] < 0.0
      ensures exists j :: 0 <= j < |down.market| && down.market[j] == market[i] && down.strategy[j] == strategy[i]
    {
      var j :| 0 <= j < |idx| && idx[j] == i;
      assert down.market[j] == market[i] && down.strategy[j] == strategy[i];
    }
  }
}
