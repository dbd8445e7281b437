/** The one-pass loops of src/db/analytics.py over an already fetched series. */
module Analytics {
  import opened Options

  // ---------- maximum drawdown of cumulative profit ----------

  /** Realised profit of one day. */
  datatype DayPnl = DayPnl(day: string, pnl: real)

  /** Profit over the first n days; before the first day it is 0. */
  function Cumulative(series: seq<DayPnl>, n: int): real
    requires 0 <= n <= |series|
  {
    if n == 0 then 0.0 else Cumulative(series, n - 1) + series[n - 1].pnl
  }

  /** The fall of cumulative profit from after i days to after j days. */
  function FallBetween(series: seq<DayPnl>, i: int, j: int): real
    requires 0 <= i <= j <= |series|
  {
    Cumulative(series, i) - Cumulative(series, j)
  }

  /** The day on which cumulative profit n was reached; the start is dated like the first day. */
  function DateOf(series: seq<DayPnl>, n: int): string
    requires series != [] && 0 <= n <= |series|
  {
    series[if n == 0 then 0 else n - 1].day
  }

  /** No fall within the first n days exceeds `amount`. */
  ghost predicate BoundsFalls(series: seq<DayPnl>, n: int, amount: real) {
    n <= |series| && forall i, j :: 0 <= i <= j <= n ==> FallBetween(series, i, j) <= amount
  }

  /** The first point from which no earlier or equal point within n is higher. */
  ghost predicate IsFirstPeak(series: seq<DayPnl>, n: int, i: int) {
    && 0 <= i <= n <= |series|
    && (forall k :: 0 <= k <= n ==> Cumulative(series, k) <= Cumulative(series, i))
    && (forall k :: 0 <= k < i ==> Cumulative(series, k) < Cumulative(series, i))
  }

  datatype Drawdown = Drawdown(pct: real, amount: real, peak: real, trough: real,
                               peakDate: Option<string>, troughDate: Option<string>)

  /** The fall from i to j is the largest one within n days and the first to be that large. */
  ghost predicate IsDeepest(series: seq<DayPnl>, n: int, i: int, j: int) {
    && 0 <= i <= j <= n <= |series|
    && BoundsFalls(series, n, FallBetween(series, i, j))
    && (forall k, l :: 0 <= k <= l < j ==> FallBetween(series, k, l) < FallBetween(series, i, j))
    && IsFirstPeak(series, j, i)
  }

  /** The reported figures belong to that fall; without one they are zero and dated like the first day. */
  ghost predicate Reports(series: seq<DayPnl>, d: Drawdown, i: int, j: int)
    requires series != [] && 0 <= i <= j <= |series|
  {
    && d.amount == FallBetween(series, i, j)
    && d.peak == (if d.amount > 0.0 then Cumulative(series, i) else 0.0)
    && d.trough == (if d.amount > 0.0 then Cumulative(series, j) else 0.0)
    && d.peakDate == Some(if d.amount > 0.0 then DateOf(series, i) else DateOf(series, 0))
    && d.troughDate == Some(if d.amount > 0.0 then DateOf(series, j) else DateOf(series, 0))
  }

  /** `get_max_drawdown`, before its percentage is rounded for display. */
  method GetMaxDrawdown(series: seq<DayPnl>) returns (d: Drawdown, ghost i: int, ghost j: int)
    ensures IsDeepest(series, |series|, i, j)
    ensures if series == [] then d == Drawdown(0.0, 0.0, 0.0, 0.0, None, None) else Reports(series, d, i, j)
    ensures d.pct == (if d.peak > 0.0 then d.amount / d.peak * 100.0 else 0.0)
  {
    if series == [] {
      return Drawdown(0.0, 0.0, 0.0, 0.0, None, None), 0, 0;
    }
    var cumulative, peak, peakDate := 0.0, 0.0, series[0].day;
    var amount, mddPeak, mddTrough := 0.0, 0.0, 0.0;
    var mddPeakDate, mddTroughDate := series[0].day, series[0].day;
    i, j := 0, 0;
    ghost var top := 0;
    for n := 0 to |series|
      invariant cumulative == Cumulative(series, n)
      invariant IsFirstPeak(series, n, top) && peak == Cumulative(series, top) && peakDate == DateOf(series, top)
      invariant IsDeepest(series, n, i, j)
      invariant Reports(series, Drawdown(0.0, amount, mddPeak, mddTrough, Some(mddPeakDate), Some(mddTroughDate)), i, j)
    {
      PeakNext(series, n, top);
      cumulative := cumulative + series[n].pnl;
      if cumulative > peak {
        peak, peakDate, top := cumulative, series[n].day, n + 1;
      }
      var drawdown := peak - cumulative;
      DeepestNext(series, n, i, j, top);
      if drawdown > amount {
        amount, mddPeak, mddTrough := drawdown, peak, cumulative;
        mddPeakDate, mddTroughDate := peakDate, series[n].day;
        i, j := top, n + 1;
      }
    }
    d := Drawdown(if mddPeak > 0.0 then amount / mddPeak * 100.0 else 0.0,
                  amount, mddPeak, mddTrough, Some(mddPeakDate), Some(mddTroughDate));
  }

  lemma PeakNext(series: seq<DayPnl>, n: int, top: int)
    requires 0 <= n < |series| && IsFirstPeak(series, n, top)
    ensures IsFirstPeak(series, n + 1, if Cumulative(series, n + 1) > Cumulative(series, top) then n + 1 else top)
  {
  }

  /** One more day: the only new fall to consider is the one from the running peak. */
  lemma DeepestNext(series: seq<DayPnl>, n: int, i: int, j: int, top: int)
    requires 0 <= n < |series| && IsDeepest(series, n, i, j) && IsFirstPeak(series, n + 1, top)
    ensures if FallBetween(series, top, n + 1) > FallBetween(series, i, j)
      then IsDeepest(series, n + 1, top, n + 1) else IsDeepest(series, n + 1, i, j)
  {
    var (a, b) := if FallBetween(series, top, n + 1) > FallBetween(series, i, j) then (top, n + 1) else (i, j);
    forall k, l | 0 <= k <= l <= n + 1 ensures FallBetween(series, k, l) <= FallBetween(series, a, b) {
      if l <= n { assert FallBetween(series, k, l) <= FallBetween(series, i, j); }
    }
  }

  // ---------- streaks ----------

  /** Positions from i up to j all satisfy the sign. */
  predicate AllSign(pnls: seq<real>, positive: bool, i: int, j: int) {
    0 <= i <= j <= |pnls| && forall k :: i <= k < j ==> (if positive then pnls[k] > 0.0 else pnls[k] < 0.0)
  }

  /** `longest` is the length of the longest contiguous run of that sign among the first n. */
  ghost predicate IsLongestRun(pnls: seq<real>, positive: bool, n: int, longest: int) {
    && (exists i, j :: AllSign(pnls, positive, i, j) && j <= n && j - i == longest)
    && (forall i, j :: AllSign(pnls, positive, i, j) && j <= n ==> j - i <= longest)
  }

  /** `current` is the length of the longest run of that sign ending at n. */
  ghost predicate IsCurrentRun(pnls: seq<real>, positive: bool, n: int, current: int) {
    && AllSign(pnls, positive, n - current, n)
    && (forall i :: AllSign(pnls, positive, i, n) ==> n - i <= current)
  }

  lemma RunGrows(pnls: seq<real>, positive: bool, n: int, longest: int, current: int)
    requires 0 <= n < |pnls| && IsLongestRun(pnls, positive, n, longest) && IsCurrentRun(pnls, positive, n, current)
    ensures var grown := if (if positive then pnls[n] > 0.0 else pnls[n] < 0.0) then current + 1 else 0;
      && IsCurrentRun(pnls, positive, n + 1, grown)
      && IsLongestRun(pnls, positive, n + 1, if grown > longest then grown else longest)
  {
    var grown := if (if positive then pnls[n] > 0.0 else pnls[n] < 0.0) then current + 1 else 0;
    var most := if grown > longest then grown else longest;
    var m := n + 1;
    forall i | AllSign(pnls, positive, i, m) ensures m - i <= grown {
      if i <= n { assert AllSign(pnls, positive, i, n); }
    }
    assert AllSign(pnls, positive, n + 1 - grown, n + 1);
    forall i, j | AllSign(pnls, positive, i, j) && j <= n + 1 ensures j - i <= most {
      if j == n + 1 { assert n + 1 - i <= grown; }
    }
    if grown <= longest {
      var i, j :| AllSign(pnls, positive, i, j) && j <= n && j - i == longest;
      assert AllSign(pnls, positive, i, j);
    }
  }

  /** The loop of `get_consecutive_losses`. */
  method GetConsecutiveLosses(pnls: seq<real>)
    returns (maxWinStreak: int, maxLossStreak: int, currentWin: int, currentLoss: int)
    ensures IsLongestRun(pnls, true, |pnls|, maxWinStreak) && IsLongestRun(pnls, false, |pnls|, maxLossStreak)
    ensures IsCurrentRun(pnls, true, |pnls|, currentWin) && IsCurrentRun(pnls, false, |pnls|, currentLoss)
  {
    maxWinStreak, maxLossStreak, currentWin, currentLoss := 0, 0, 0, 0;
    assert AllSign(pnls, true, 0, 0) && AllSign(pnls, false, 0, 0);
    for n := 0 to |pnls|
      invariant IsLongestRun(pnls, true, n, maxWinStreak) && IsCurrentRun(pnls, true, n, currentWin)
      invariant IsLongestRun(pnls, false, n, maxLossStreak) && IsCurrentRun(pnls, false, n, currentLoss)
    {
      RunGrows(pnls, true, n, maxWinStreak, currentWin);
      RunGrows(pnls, false, n, maxLossStreak, currentLoss);
      NeverNegative(pnls, true, n, maxWinStreak);
      NeverNegative(pnls, false, n, maxLossStreak);
      if pnls[n] > 0.0 {
        currentWin, currentLoss := currentWin + 1, 0;
        maxWinStreak := if currentWin > maxWinStreak then currentWin else maxWinStreak;
      } else if pnls[n] < 0.0 {
        currentLoss, currentWin := currentLoss + 1, 0;
        maxLossStreak := if currentLoss > maxLossStreak then currentLoss else maxLossStreak;
      } else {
        currentWin, currentLoss := 0, 0;
      }
    }
  }

  lemma NeverNegative(pnls: seq<real>, positive: bool, n: int, longest: int)
    requires 0 <= n <= |pnls| && IsLongestRun(pnls, positive, n, longest)
    ensures longest >= 0
  {
    assert AllSign(pnls, positive, 0, 0);
  }
}
