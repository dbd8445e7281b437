/** Result metrics of src/backtest/report.py that are loops or filters over a finished run. */
module BacktestReport {
  import opened BacktestBroker
  import opened BacktestEngine
  import opened Options

  /** The relative fall in percent from a to b. */
  function Fall(a: real, b: real): real
    requires a != 0.0
  {
    (a - b) / a * 100.0
  }

  /** Point i is positive and the curve falls from it to point j by `fall` percent. */
  ghost predicate FallsBy(curve: seq<real>, i: int, j: int, fall: real) {
    0 <= i <= j < |curve| && curve[i] > 0.0 && fall == Fall(curve[i], curve[j])
  }

  /** `mdd` is the largest relative fall over all ordered pairs with a positive first point. */
  ghost predicate IsMaxDrawdown(curve: seq<real>, mdd: real) {
    && mdd >= 0.0
    && (forall i, j, fall :: FallsBy(curve, i, j, fall) ==> fall <= mdd)
    && (mdd > 0.0 ==> exists i, j :: FallsBy(curve, i, j, mdd))
  }

  lemma FactorOrder(p: real, q: real, a: real)
    requires a > 0.0 && p * a <= q * a
    ensures p <= q
  {
    assert (p - q) * a == p * a - q * a;
  }

  lemma OneMinusQuotient(a: real, b: real)
    requires a > 0.0
    ensures (a - b) / a == 1.0 - b / a
  {
    var x, y := (a - b) / a, 1.0 - b / a;
    assert (b / a) * a == b && x * a == a - b;
    assert y * a == a - (b / a) * a;
    FactorOrder(x, y, a);
    FactorOrder(y, x, a);
  }

  lemma QuotientShrinks(b: real, a: real, peak: real)
    requires 0.0 < a <= peak && b >= 0.0
    ensures b / peak <= b / a
  {
    var q, p := b / a, b / peak;
    assert q * a == b && p * peak == b && q >= 0.0;
    assert q * (peak - a) >= 0.0;
    assert q * peak == q * a + q * (peak - a);
    FactorOrder(p, q, peak);
  }

  /** From a higher start the fall to the same non-negative point is no smaller. */
  lemma FallFromHigher(a: real, peak: real, b: real)
    requires 0.0 < a <= peak && b >= 0.0
    ensures Fall(a, b) <= Fall(peak, b)
  {
    OneMinusQuotient(a, b);
    OneMinusQuotient(peak, b);
    QuotientShrinks(b, a, peak);
  }

  /** The highest of the first n points. */
  function Peak(curve: seq<real>, n: int): real
    requires 0 < n <= |curve|
  {
    if n == 1 || curve[n - 1] > Peak(curve, n - 1) then curve[n - 1] else Peak(curve, n - 1)
  }

  lemma {:induction false} PeakIsHighest(curve: seq<real>, n: int) returns (at: int)
    requires 0 < n <= |curve|
    ensures 0 <= at < n && curve[at] == Peak(curve, n)
    ensures forall i :: 0 <= i < n ==> curve[i] <= Peak(curve, n)
  {
    at := n - 1;
    if n > 1 {
      var before := PeakIsHighest(curve, n - 1);
      if curve[n - 1] <= Peak(curve, n - 1) { at := before; }
    }
  }

  /** Point j is below a positive running peak by `fall` percent of it. */
  ghost predicate PeakFallsBy(curve: seq<real>, j: int, fall: real) {
    0 <= j < |curve| && Peak(curve, j + 1) > 0.0 && fall == Fall(Peak(curve, j + 1), curve[j])
  }

  /** The program's own notion, for any curve: the largest fall from the running peak. */
  ghost predicate IsPeakDrawdown(curve: seq<real>, n: int, mdd: real) {
    && mdd >= 0.0
    && (forall j, fall :: j < n && PeakFallsBy(curve, j, fall) ==> fall <= mdd)
    && (mdd > 0.0 ==> exists j :: j < n && PeakFallsBy(curve, j, mdd))
  }

  method CalculateMaxDrawdown(curve: seq<real>) returns (mdd: real)
    ensures IsPeakDrawdown(curve, |curve|, mdd)
    ensures NotNegative(curve) ==> IsMaxDrawdown(curve, mdd)
  {
    mdd := 0.0;
    if curve == [] {
      return;
    }
    var peak := curve[0];
    for j := 0 to |curve|
      invariant peak == if j == 0 then curve[0] else Peak(curve, j)
      invariant IsPeakDrawdown(curve, j, mdd)
    {
      var equity := curve[j];
      if equity > peak {
        peak := equity;
      }
      if peak > 0.0 {
        var drawdown := Fall(peak, equity);
        assert PeakFallsBy(curve, j, drawdown);
        if drawdown > mdd {
          mdd := drawdown;
        }
      }
    }
    if NotNegative(curve) {
      PeakDrawdownIsMaximal(curve, mdd);
    }
  }

  /** On a curve that is never negative, falls from the running peak dominate all pairs. */
  lemma PeakDrawdownIsMaximal(curve: seq<real>, mdd: real)
    requires IsPeakDrawdown(curve, |curve|, mdd) && NotNegative(curve)
    ensures IsMaxDrawdown(curve, mdd)
  {
    forall i, j, fall | FallsBy(curve, i, j, fall) ensures fall <= mdd {
      var at := PeakIsHighest(curve, j + 1);
      assert curve[i] <= Peak(curve, j + 1) && curve[j] >= 0.0;
      FallFromHigher(curve[i], Peak(curve, j + 1), curve[j]);
      assert PeakFallsBy(curve, j, Fall(Peak(curve, j + 1), curve[j]));
    }
    if mdd > 0.0 {
      var j :| j < |curve| && PeakFallsBy(curve, j, mdd);
      var at := PeakIsHighest(curve, j + 1);
      assert FallsBy(curve, at, j, mdd);
    }
  }

  ghost predicate AtLeast(curve: seq<real>, low: real) {
    forall k :: 0 <= k < |curve| ==> curve[k] >= low
  }

  /** On every curve bounded by `low` the reported figure is the maximum over all pairs. */
  ghost predicate AlwaysMaximum(low: real) {
    forall curve, mdd :: AtLeast(curve, low) && IsPeakDrawdown(curve, |curve|, mdd) ==> IsMaxDrawdown(curve, mdd)
  }

  /** After 1 and 2 a fall below zero is reported from the peak 2, though it is larger from 1. */
  lemma FallBelowZero(low: real) returns (curve: seq<real>, mdd: real)
    requires low < 0.0
    ensures AtLeast(curve, low) && IsPeakDrawdown(curve, |curve|, mdd) && !IsMaxDrawdown(curve, mdd)
  {
    curve, mdd := [1.0, 2.0, low], Fall(2.0, low);
    assert Peak(curve, 1) == 1.0 && Peak(curve, 2) == 2.0 && Peak(curve, 3) == 2.0;
    assert PeakFallsBy(curve, 2, mdd);
    assert FallsBy(curve, 0, 2, Fall(1.0, low));
  }

  /** A bound on the equity guarantees the maximum exactly when it is not below zero. */
  lemma MaximumNeedsNoDebt(low: real)
    ensures AlwaysMaximum(low) <==> low >= 0.0
  {
    if low >= 0.0 {
      forall curve, mdd | AtLeast(curve, low) && IsPeakDrawdown(curve, |curve|, mdd)
        ensures IsMaxDrawdown(curve, mdd)
      {
        assert NotNegative(curve);
        PeakDrawdownIsMaximal(curve, mdd);
      }
    } else {
      var curve, mdd := FallBelowZero(low);
    }
  }

  // ---------- trade classification ----------

  function Sells(log: seq<Trade>): (sells: seq<Trade>) {
    if log == [] then []
    else
      var before, t := Sells(log[..|log| - 1]), log[|log| - 1];
      if t.side.Sell? then before + [t] else before
  }

  function Winners(log: seq<Trade>): seq<Trade> {
    if log == [] then []
    else
      var before, t := Winners(log[..|log| - 1]), log[|log| - 1];
      if t.profitLoss > 0.0 then before + [t] else before
  }

  function Losers(log: seq<Trade>): seq<Trade> {
    if log == [] then []
    else
      var before, t := Losers(log[..|log| - 1]), log[|log| - 1];
      if t.profitLoss <= 0.0 then before + [t] else before
  }

  function TotalProfitLoss(log: seq<Trade>): real {
    if log == [] then 0.0 else TotalProfitLoss(log[..|log| - 1]) + log[|log| - 1].profitLoss
  }

  function BuyCommissions(log: seq<Trade>): real {
    if log == [] then 0.0
    else
      var t := log[|log| - 1];
      BuyCommissions(log[..|log| - 1]) + (if t.side.Buy? then t.commission else 0.0)
  }

  lemma FallIsPercent(a: real, b: real)
    requires a > 0.0
    ensures Fall(a, b) * a == (a - b) * 100.0
  {
    assert (a - b) / a * a == a - b;
  }

  lemma {:induction false} SellsAreSales(log: seq<Trade>, t: Trade)
    ensures multiset(Sells(log))[t] == if t.side.Sell? then multiset(log)[t] else 0
  {
    if log != [] {
      SellsAreSales(log[..|log| - 1], t);
      assert log == log[..|log| - 1] + [log[|log| - 1]];
    }
  }

  /** Every sale is counted on one side, winners being those above zero. */
  lemma {:induction false} SplitBySign(sells: seq<Trade>, t: Trade)
    ensures multiset(Winners(sells))[t] == if t.profitLoss > 0.0 then multiset(sells)[t] else 0
    ensures multiset(Losers(sells))[t] == if t.profitLoss <= 0.0 then multiset(sells)[t] else 0
  {
    if sells != [] {
      SplitBySign(sells[..|sells| - 1], t);
      assert sells == sells[..|sells| - 1] + [sells[|sells| - 1]];
    }
  }

  /** Winning and losing sales split the sales, in number and in amount. */
  lemma {:induction false} SalesSplit(sells: seq<Trade>)
    ensures |Winners(sells)| + |Losers(sells)| == |sells|
    ensures TotalProfitLoss(Winners(sells)) + TotalProfitLoss(Losers(sells)) == TotalProfitLoss(sells)
  {
    if sells != [] {
      var front, t := sells[..|sells| - 1], sells[|sells| - 1];
      SalesSplit(front);
      assert (Winners(front) + [t])[..|Winners(front)|] == Winners(front);
      assert (Losers(front) + [t])[..|Losers(front)|] == Losers(front);
    }
  }

  lemma {:induction false} RealizedFromSales(log: seq<Trade>)
    ensures Realized(log) == TotalProfitLoss(Sells(log)) - BuyCommissions(log)
  {
    if log != [] {
      var front, t := log[..|log| - 1], log[|log| - 1];
      RealizedFromSales(front);
      assert (Sells(front) + [t])[..|Sells(front)|] == Sells(front);
    }
  }

  /** How many trades of a log leave a position of `code` open. */
  function StillOpen(log: seq<Trade>, code: string): nat {
    if OpenPosition(log, code).Some? then 1 else 0
  }

  /** In an alternating log of one stock, buys exceed sales by the open position. */
  lemma {:induction false} BuysMatchSales(log: seq<Trade>, code: string)
    requires forall k :: Alternates(log, k)
    requires forall k :: 0 <= k < |log| ==> log[k].code == code
    ensures |log| == 2 * |Sells(log)| + StillOpen(log, code)
  {
    if log != [] {
      var n := |log| - 1;
      var front := log[..n];
      forall k ensures Alternates(front, k) {
        assert Alternates(log, k);
        if 0 <= k < n { assert front[..k] == log[..k]; }
      }
      BuysMatchSales(front, code);
      assert Alternates(log, n);
    }
  }

  /** The metrics of a completed run agree with its capital: the sales' profits and losses less the buy
      commissions are exactly what the capital changed by, and every trade is half of a round trip. */
  lemma MetricsMatchCapital(c: Config, strategy: Strategy, data: seq<Row>, code: string, r: Result)
    requires ValidConfig(c) && ResultOf(c, strategy, data, code, r) && |data| > MIN_WINDOW_SIZE
    ensures var sells := Sells(r.tradeLog);
      && r.finalCapital - c.initialCapital as real
         == TotalProfitLoss(Winners(sells)) + TotalProfitLoss(Losers(sells)) - BuyCommissions(r.tradeLog)
      && |r.tradeLog| == 2 * (|Winners(sells)| + |Losers(sells)|)
  {
    RunIsAccountedFor(c, strategy, data, code, r);
    RealizedFromSales(r.tradeLog);
    SalesSplit(Sells(r.tradeLog));
    OneStockTraded(c, strategy, data, code, r);
    BuysMatchSales(r.tradeLog, code);
  }

  ghost predicate OnlyTrades(log: seq<Trade>, code: string) {
    forall k :: 0 <= k < |log| ==> log[k].code == code
  }

  lemma {:induction false} DaysTradeOneStock(c: Config, code: string, days: seq<Day>)
    requires ValidConfig(c)
    ensures OnlyTrades(AfterDays(c, code, days).account.history, code)
  {
    if days != [] {
      var before := AfterDays(c, code, days[..|days| - 1]);
      DaysTradeOneStock(c, code, days[..|days| - 1]);
      DayTradesOneStock(c, code, before.account, days[|days| - 1]);
    }
  }

  lemma DayTradesOneStock(c: Config, code: string, a: Account, day: Day)
    requires ValidConfig(c) && Sound(c, a) && OnlyTrades(a.history, code)
    ensures OnlyTrades(DayAccount(c, code, a, day).history, code)
  {
    if day.price > 0 {
      DayAddsTrade(c, day.signal, a, code, day.price, day.date);
    }
  }

  lemma OneStockTraded(c: Config, strategy: Strategy, data: seq<Row>, code: string, r: Result)
    requires ValidConfig(c) && ResultOf(c, strategy, data, code, r) && |data| > MIN_WINDOW_SIZE
    ensures OnlyTrades(r.tradeLog, code)
  {
    DaysTradeOneStock(c, code, DaysBefore(strategy, data, |data|));
  }

  /** The reported drawdown of a run with sane rates and prices is the true maximum over all pairs. */
  method RunDrawdown(c: Config, strategy: Strategy, data: seq<Row>, code: string, r: Result) returns (mdd: real)
    requires ValidConfig(c) && ResultOf(c, strategy, data, code, r) && |data| > MIN_WINDOW_SIZE
    requires SaneRates(c) && PricesNotNegative(data) && c.initialCapital >= 0
    ensures IsMaxDrawdown(r.equityCurve, mdd)
  {
    RunIsNeverInDebt(c, strategy, data, code, r);
    mdd := CalculateMaxDrawdown(r.equityCurve);
  }
}
