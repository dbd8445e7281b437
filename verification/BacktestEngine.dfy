/** The day loop of src/backtest/engine.py, for any strategy that is a function of the closes seen
    so far. */
module BacktestEngine {
  import opened BacktestBroker
  import opened Options

  const MIN_WINDOW_SIZE := 21
  const MIN_CONFIDENCE := 0.1

  datatype Row = Row(date: string, close: real)

  datatype SignalType = BuySignal | SellSignal | HoldSignal

  datatype Signal = Signal(kind: SignalType, confidence: real)

  type Strategy = seq<real> -> Signal

  /** The account after some days, and the equity noted on each of them. */
  datatype Sim = Sim(account: Account, equity: seq<real>)

  datatype RunError = TooFewRows | NoFirstDate

  datatype Result = Failed(error: RunError) | Completed(
    finalCapital: real, equityCurve: seq<real>, tradeLog: seq<Trade>, startDate: string, endDate: string)

  predicate ValidConfig(c: Config) {
    1.0 + c.slippageRate != 0.0
  }

  function Closes(data: seq<Row>): seq<real> {
    seq(|data|, k requires 0 <= k < |data| => data[k].close)
  }

  // ---------- one day ----------

  /** `check_stop_loss` */
  function StopLoss(c: Config, p: Position, price: real): bool
    requires p.avgPrice != 0.0
  {
    (p.avgPrice - price) / p.avgPrice >= c.maxLossRate
  }

  /** `check_take_profit` */
  function TakeProfit(c: Config, p: Position, price: real): bool
    requires p.avgPrice != 0.0
  {
    (price - p.avgPrice) / p.avgPrice >= c.takeProfitRatio
  }

  predicate Acts(s: Signal, kind: SignalType) {
    s.kind == kind && s.confidence >= MIN_CONFIDENCE
  }

  lemma BuyPricePositive(c: Config, price: int)
    requires ValidConfig(c) && price > 0
    ensures BuyPrice(c, price as real) != 0.0
  {
    var p, f := price as real, 1.0 + c.slippageRate;
    if f > 0.0 { assert p * f > 0.0; } else { assert p * (-f) > 0.0; }
  }

  /** What one day does to the account: stop loss, then take profit, then the strategy's sale; a stock
      that is not held is bought on a buy signal. */
  ghost function ProcessedDay(c: Config, s: Signal, a: Account, code: string, price: int, date: string): (b: Account)
    requires ValidConfig(c) && Sound(c, a) && price > 0
    ensures Sound(c, b)
  {
    BuyPricePositive(c, price);
    BuyKeepsSound(c, a, code, price as real, date);
    SellKeepsSound(c, a, code, price as real, date);
    assert PositionOk(a, code);
    if code in a.positions then
      var p := a.positions[code];
      if StopLoss(c, p, price as real) || TakeProfit(c, p, price as real) || Acts(s, SellSignal)
      then Sold(c, a, code, price as real, date) else a
    else if Acts(s, BuySignal) then Bought(c, a, code, price as real, date)
    else a
  }

  lemma DayKeepsCash(c: Config, s: Signal, a: Account, code: string, price: int, date: string)
    requires ValidConfig(c) && Sound(c, a) && price > 0
    ensures SaneRates(c) && a.cash >= 0.0 ==> ProcessedDay(c, s, a, code, price, date).cash >= 0.0
    ensures a.history <= ProcessedDay(c, s, a, code, price, date).history
  {
    BuyPricePositive(c, price);
    BuyKeepsSound(c, a, code, price as real, date);
    SellKeepsSound(c, a, code, price as real, date);
    assert PositionOk(a, code);
    if SaneRates(c) {
      SellKeepsCash(c, a, code, price as real, date);
    }
  }

  /** A day adds at most one trade, and that of the stock itself. */
  lemma DayAddsTrade(c: Config, s: Signal, a: Account, code: string, price: int, date: string)
    requires ValidConfig(c) && Sound(c, a) && price > 0
    ensures var history := ProcessedDay(c, s, a, code, price, date).history;
      history == a.history || (history != [] && history[..|history| - 1] == a.history && history[|history| - 1].code == code)
  {
    BuyPricePositive(c, price);
    assert PositionOk(a, code);
    TradesAppend(c, a, code, price as real, date);
  }

  lemma QuotientAgainst(y: real, a: real, r: real)
    requires a > 0.0
    ensures y / a >= r <==> y >= r * a
  {
    var q := y / a;
    assert q * a == y;
    assert q >= r ==> (q - r) * a >= 0.0;
    assert q < r ==> (r - q) * a > 0.0;
  }

  lemma StopBound(c: Config, p: Position, x: real)
    requires p.avgPrice > 0.0
    ensures StopLoss(c, p, x) <==> x <= p.avgPrice * (1.0 - c.maxLossRate)
  {
    QuotientAgainst(p.avgPrice - x, p.avgPrice, c.maxLossRate);
    assert p.avgPrice * (1.0 - c.maxLossRate) == p.avgPrice - c.maxLossRate * p.avgPrice;
  }

  lemma TargetBound(c: Config, p: Position, x: real)
    requires p.avgPrice > 0.0
    ensures TakeProfit(c, p, x) <==> x >= p.avgPrice * (1.0 + c.takeProfitRatio)
  {
    QuotientAgainst(x - p.avgPrice, p.avgPrice, c.takeProfitRatio);
    assert p.avgPrice * (1.0 + c.takeProfitRatio) == p.avgPrice + c.takeProfitRatio * p.avgPrice;
  }

  /** The stock is sold whole, in one trade. */
  ghost predicate SoldOut(a: Account, b: Account, code: string) {
    && code !in b.positions && |b.history| == |a.history| + 1 && b.history[..|a.history|] == a.history
    && b.history[|a.history|].side.Sell? && b.history[|a.history|].code == code
  }

  /** The decision about a held stock: out at or below the stop, out at or above the target, and strictly between the
      two exactly on a sell signal of at least 0.1 confidence. */
  ghost predicate HeldDecision(c: Config, s: Signal, a: Account, b: Account, code: string, x: real)
    requires code in a.positions
  {
    var paid := a.positions[code].avgPrice;
    paid > 0.0 ==>
      if x <= paid * (1.0 - c.maxLossRate) || x >= paid * (1.0 + c.takeProfitRatio)
         || (s.kind == SellSignal && s.confidence >= 0.1)
      then SoldOut(a, b, code) else b == a
  }

  /** The decision about another stock: in exactly on a buy signal of at least 0.1 confidence, if a share fits. */
  ghost predicate FreeDecision(c: Config, s: Signal, a: Account, b: Account, code: string, x: real)
    requires BuyPrice(c, x) != 0.0
  {
    if s.kind == BuySignal && s.confidence >= 0.1 && BuyQuantity(c, a.cash, BuyPrice(c, x)) > 0
    then code in b.positions && |b.history| == |a.history| + 1 && b.history[|a.history|].side.Buy?
    else b == a
  }

  lemma SaleSellsOut(c: Config, a: Account, code: string, x: real, date: string)
    requires code in a.positions && a.positions[code].avgPrice != 0.0
    ensures SoldOut(a, Sold(c, a, code, x, date), code)
  {
  }

  lemma HeldDecides(c: Config, s: Signal, a: Account, code: string, price: int, date: string)
    requires ValidConfig(c) && Sound(c, a) && price > 0 && code in a.positions
    ensures HeldDecision(c, s, a, ProcessedDay(c, s, a, code, price, date), code, price as real)
  {
    assert PositionOk(a, code);
    var p, x := a.positions[code], price as real;
    if p.avgPrice > 0.0 {
      StopBound(c, p, x);
      TargetBound(c, p, x);
      SaleSellsOut(c, a, code, x, date);
    }
  }

  lemma FreeDecides(c: Config, s: Signal, a: Account, code: string, price: int, date: string)
    requires ValidConfig(c) && Sound(c, a) && price > 0 && code !in a.positions
    ensures BuyPrice(c, price as real) != 0.0
    ensures FreeDecision(c, s, a, ProcessedDay(c, s, a, code, price, date), code, price as real)
  {
    BuyPricePositive(c, price);
  }

  // ---------- the run ----------

  /** What a day brings: the close in whole units, and the strategy's signal on the closes up to it. */
  datatype Day = Day(price: int, signal: Signal, date: string)

  function DayOf(strategy: Strategy, data: seq<Row>, i: nat): Day
    requires i < |data|
  {
    Day(Truncate(data[i].close), strategy(Closes(data[..i + 1])), data[i].date)
  }

  /** The simulated days before row n. */
  function DaysBefore(strategy: Strategy, data: seq<Row>, n: nat): (days: seq<Day>)
    requires n <= |data|
    ensures |days| == if n > MIN_WINDOW_SIZE then n - MIN_WINDOW_SIZE else 0
  {
    if n <= MIN_WINDOW_SIZE then [] else DaysBefore(strategy, data, n - 1) + [DayOf(strategy, data, n - 1)]
  }

  /** Simulated day k is row 21 + k: the close without its fraction, and the strategy's signal on exactly the closes up to
      and including that row. */
  lemma {:induction false} DaySeen(strategy: Strategy, data: seq<Row>, n: nat, k: nat)
    requires n <= |data| && 21 + k < n
    ensures k < |DaysBefore(strategy, data, n)|
    ensures var day, i := DaysBefore(strategy, data, n)[k], 21 + k;
      && day.date == data[i].date
      && day.signal == strategy(seq(i + 1, j requires 0 <= j <= i => data[j].close))
      && (data[i].close >= 0.0 ==> day.price as real <= data[i].close < day.price as real + 1.0)
      && (data[i].close < 0.0 ==> day.price as real - 1.0 < data[i].close <= day.price as real)
    decreases n
  {
    var i := 21 + k;
    if i == n - 1 {
      assert Closes(data[..i + 1]) == seq(i + 1, j requires 0 <= j <= i => data[j].close);
    } else {
      DaySeen(strategy, data, n - 1, k);
    }
  }

  /** The account after a day; a close that is not positive is skipped. */
  ghost function DayAccount(c: Config, code: string, a: Account, day: Day): (b: Account)
    requires ValidConfig(c) && Sound(c, a)
    ensures Sound(c, b)
  {
    if day.price <= 0 then a else ProcessedDay(c, day.signal, a, code, day.price, day.date)
  }

  ghost function NextDay(c: Config, code: string, sim: Sim, day: Day): (next: Sim)
    requires ValidConfig(c) && Sound(c, sim.account)
    ensures Sound(c, next.account)
  {
    var a := DayAccount(c, code, sim.account, day);
    Sim(a, sim.equity + [a.cash + Worth(a.positions, map[code := day.price as real])])
  }

  ghost function AfterDays(c: Config, code: string, days: seq<Day>): (sim: Sim)
    requires ValidConfig(c)
    ensures Sound(c, sim.account)
  {
    if days == [] then
      OpenIsSound(c);
      Sim(Open(c), [])
    else
      NextDay(c, code, AfterDays(c, code, days[..|days| - 1]), days[|days| - 1])
  }

  /** The simulation of the rows before row n. */
  ghost function Simulated(c: Config, strategy: Strategy, data: seq<Row>, code: string, n: nat): (sim: Sim)
    requires ValidConfig(c) && n <= |data|
    ensures Sound(c, sim.account)
  {
    AfterDays(c, code, DaysBefore(strategy, data, n))
  }

  lemma {:induction false} SameDays(strategy: Strategy, data: seq<Row>, other: seq<Row>, n: nat)
    requires n <= |data| && n <= |other| && data[..n] == other[..n]
    ensures DaysBefore(strategy, data, n) == DaysBefore(strategy, other, n)
  {
    if n > MIN_WINDOW_SIZE {
      assert data[..n - 1] == data[..n][..n - 1] && other[..n - 1] == other[..n][..n - 1];
      SameDays(strategy, data, other, n - 1);
      assert data[n - 1] == data[..n][n - 1] && other[n - 1] == other[..n][n - 1];
    }
  }

  lemma {:induction false} DaysExtend(strategy: Strategy, data: seq<Row>, n: nat, m: nat)
    requires n <= m <= |data|
    ensures DaysBefore(strategy, data, n) <= DaysBefore(strategy, data, m)
    decreases m - n
  {
    if n < m { DaysExtend(strategy, data, n + 1, m); }
  }

  /** No look-ahead: what is simulated of the first n rows depends on nothing after them. */
  lemma NoLookAhead(c: Config, strategy: Strategy, data: seq<Row>, other: seq<Row>, code: string, n: nat)
    requires ValidConfig(c) && n <= |data| && n <= |other| && data[..n] == other[..n]
    ensures Simulated(c, strategy, data, code, n) == Simulated(c, strategy, other, code, n)
  {
    SameDays(strategy, data, other, n);
  }

  /** A day adds one equity point and at most adds trades. */
  lemma DayExtends(c: Config, code: string, sim: Sim, day: Day)
    requires ValidConfig(c) && Sound(c, sim.account)
    ensures var next := NextDay(c, code, sim, day);
      sim.account.history <= next.account.history && sim.equity <= next.equity && |next.equity| == |sim.equity| + 1
  {
    if day.price > 0 {
      DayKeepsCash(c, day.signal, sim.account, code, day.price, day.date);
    }
  }

  /** Later days only add trades and equity points. */
  lemma {:induction false} LaterDaysExtend(c: Config, code: string, days: seq<Day>, n: nat)
    requires ValidConfig(c) && n <= |days|
    ensures var early, late := AfterDays(c, code, days[..n]), AfterDays(c, code, days);
      && early.account.history <= late.account.history && early.equity <= late.equity
      && |early.equity| == n && |late.equity| == |days|
    decreases |days|
  {
    if n < |days| {
      var front := days[..|days| - 1];
      LaterDaysExtend(c, code, front, n);
      assert front[..n] == days[..n];
      DayExtends(c, code, AfterDays(c, code, front), days[|days| - 1]);
    } else {
      assert days[..n] == days;
      if n > 0 {
        var front := days[..n - 1];
        LaterDaysExtend(c, code, front, n - 1);
        DayExtends(c, code, AfterDays(c, code, front), days[n - 1]);
      }
    }
  }

  /** The simulation of fewer rows is where that of all rows began. */
  lemma SimulationGrows(c: Config, strategy: Strategy, data: seq<Row>, code: string, n: nat)
    requires ValidConfig(c) && MIN_WINDOW_SIZE < n <= |data|
    ensures var part, full := Simulated(c, strategy, data, code, n), Simulated(c, strategy, data, code, |data|);
      && part.account.history <= full.account.history && part.equity <= full.equity
      && |part.equity| == n - MIN_WINDOW_SIZE && |full.equity| == |data| - MIN_WINDOW_SIZE
  {
    DaysExtend(strategy, data, n, |data|);
    var days, some := DaysBefore(strategy, data, |data|), DaysBefore(strategy, data, n);
    assert days[..|some|] == some;
    LaterDaysExtend(c, code, days, |some|);
  }

  /** A run on the first n rows produces, before liquidation, exactly the trades and equity points that the
      run on all rows produces for those days. */
  lemma PrefixRunAgrees(c: Config, strategy: Strategy, data: seq<Row>, code: string, n: nat)
    requires ValidConfig(c) && MIN_WINDOW_SIZE < n <= |data|
    ensures var part, full := Simulated(c, strategy, data[..n], code, n), Simulated(c, strategy, data, code, |data|);
      && part == Simulated(c, strategy, data, code, n)
      && part.account.history <= full.account.history
      && |full.equity| == |data| - MIN_WINDOW_SIZE && part.equity == full.equity[..n - MIN_WINDOW_SIZE]
  {
    NoLookAhead(c, strategy, data[..n], data, code, n);
    SimulationGrows(c, strategy, data, code, n);
  }

  ghost predicate PricesNotNegative(data: seq<Row>) {
    forall k :: 0 <= k < |data| ==> data[k].close >= 0.0
  }

  ghost predicate NotNegative(s: seq<real>) {
    forall k :: 0 <= k < |s| ==> s[k] >= 0.0
  }

  ghost predicate DayPricesNotNegative(days: seq<Day>) {
    forall k :: 0 <= k < |days| ==> days[k].price >= 0
  }

  lemma {:induction false} DayPrices(strategy: Strategy, data: seq<Row>, n: nat)
    requires n <= |data| && PricesNotNegative(data)
    ensures DayPricesNotNegative(DaysBefore(strategy, data, n))
  {
    if n > MIN_WINDOW_SIZE { DayPrices(strategy, data, n - 1); }
  }

  /** Only `code` is ever held. */
  lemma {:induction false} OnlyCodeHeld(c: Config, code: string, days: seq<Day>)
    requires ValidConfig(c)
    ensures AfterDays(c, code, days).account.positions.Keys <= {code}
  {
    if days != [] {
      OnlyCodeHeld(c, code, days[..|days| - 1]);
    }
  }

  function SharesAt(positions: map<string, Position>, code: string, close: real): real {
    if code in positions then positions[code].quantity as real * close else 0.0
  }

  lemma WorthOfOne(positions: map<string, Position>, code: string, close: real)
    requires positions.Keys <= {code}
    ensures Worth(positions, map[code := close]) == SharesAt(positions, code, close)
  {
    if code in positions {
      WorthSplits(positions, map[code := close], code);
      assert positions - {code} == map[];
    } else {
      assert positions == map[];
    }
  }

  /** The equity point of a day: the cash and the shares held at the day's close. */
  lemma EquityIsMarketValue(c: Config, code: string, sim: Sim, day: Day)
    requires ValidConfig(c) && Sound(c, sim.account) && NextDay(c, code, sim, day).account.positions.Keys <= {code}
    ensures var next := NextDay(c, code, sim, day);
      next.equity == sim.equity + [next.account.cash + SharesAt(next.account.positions, code, day.price as real)]
  {
    WorthOfOne(NextDay(c, code, sim, day).account.positions, code, day.price as real);
  }

  lemma WorthNotNegative(a: Account, c: Config, code: string, price: real)
    requires Sound(c, a) && a.positions.Keys <= {code} && price >= 0.0
    ensures Worth(a.positions, map[code := price]) >= 0.0
  {
    if code in a.positions {
      assert PositionOk(a, code);
      WorthSplits(a.positions, map[code := price], code);
      assert a.positions - {code} == map[];
      assert a.positions[code].quantity as real * price >= 0.0;
    } else {
      assert a.positions == map[];
    }
  }

  /** With sane rates and prices that are not negative, neither cash nor equity is ever negative. */
  lemma {:induction false} NeverInDebt(c: Config, code: string, days: seq<Day>)
    requires ValidConfig(c) && SaneRates(c) && DayPricesNotNegative(days) && c.initialCapital >= 0
    ensures var sim := AfterDays(c, code, days); sim.account.cash >= 0.0 && NotNegative(sim.equity)
  {
    if days != [] {
      var front, day := days[..|days| - 1], days[|days| - 1];
      var before := AfterDays(c, code, front);
      NeverInDebt(c, code, front);
      OnlyCodeHeld(c, code, days);
      if day.price > 0 {
        DayKeepsCash(c, day.signal, before.account, code, day.price, day.date);
      }
      WorthNotNegative(AfterDays(c, code, days).account, c, code, day.price as real);
    }
  }

  // ---------- the result ----------

  /** The account after the forced liquidation at the last close. */
  ghost function Liquidated(c: Config, a: Account, data: seq<Row>, code: string): Account
    requires data != [] && Sound(c, a)
  {
    SellKeepsSound(c, a, code, data[|data| - 1].close, data[|data| - 1].date);
    Sold(c, a, code, data[|data| - 1].close, data[|data| - 1].date)
  }

  ghost predicate ResultOf(c: Config, strategy: Strategy, data: seq<Row>, code: string, r: Result)
    requires ValidConfig(c)
  {
    if |data| < MIN_WINDOW_SIZE then r == Failed(TooFewRows)
    else if |data| == MIN_WINDOW_SIZE then r == Failed(NoFirstDate)
    else
      var sim := Simulated(c, strategy, data, code, |data|);
      var end := Liquidated(c, sim.account, data, code);
      r == Completed(end.cash,
        if code in sim.account.positions then sim.equity[..|sim.equity| - 1] + [end.cash] else sim.equity,
        end.history, data[MIN_WINDOW_SIZE].date, data[|data| - 1].date)
  }

  /** Liquidation closes the last position: everything is cash, and explained by the trades. */
  lemma LiquidationSettles(c: Config, a: Account, data: seq<Row>, code: string)
    requires Sound(c, a) && a.positions.Keys <= {code} && data != []
    ensures var end := Liquidated(c, a, data, code);
      && Sound(c, end) && end.positions == map[]
      && end.cash == c.initialCapital as real + Realized(end.history)
      && (forall s :: OpenPosition(end.history, s) == None)
      && (code !in a.positions ==> end == a)
      && (SaneRates(c) && data[|data| - 1].close >= 0.0 ==> end.cash >= a.cash)
  {
    var last := data[|data| - 1];
    SellKeepsSound(c, a, code, last.close, last.date);
    var end := Liquidated(c, a, data, code);
    assert end.positions == map[];
    forall s ensures OpenPosition(end.history, s) == None { assert PositionOk(end, s); }
    if SaneRates(c) && last.close >= 0.0 {
      SellKeepsCash(c, a, code, last.close, last.date);
    }
  }

  /** Without a position the last equity point is the cash. */
  lemma LastPointIsCash(c: Config, code: string, days: seq<Day>)
    requires ValidConfig(c) && days != [] && code !in AfterDays(c, code, days).account.positions
    ensures var sim := AfterDays(c, code, days);
      sim.equity != [] && sim.equity[|sim.equity| - 1] == sim.account.cash
  {
    OnlyCodeHeld(c, code, days);
    assert AfterDays(c, code, days).account.positions == map[];
  }

  /** A completed run: capital is accounted for to the last trade, buys and sales alternate, the run ends
      flat, and the last equity point is the final capital. */
  lemma RunIsAccountedFor(c: Config, strategy: Strategy, data: seq<Row>, code: string, r: Result)
    requires ValidConfig(c) && ResultOf(c, strategy, data, code, r) && |data| > MIN_WINDOW_SIZE
    ensures r.finalCapital == c.initialCapital as real + Realized(r.tradeLog)
    ensures forall k :: Alternates(r.tradeLog, k)
    ensures forall s :: OpenPosition(r.tradeLog, s) == None
    ensures |r.equityCurve| == |data| - MIN_WINDOW_SIZE && r.equityCurve[|r.equityCurve| - 1] == r.finalCapital
  {
    var days := DaysBefore(strategy, data, |data|);
    var sim := AfterDays(c, code, days);
    OnlyCodeHeld(c, code, days);
    LaterDaysExtend(c, code, days, |days|);
    LiquidationSettles(c, sim.account, data, code);
    if code !in sim.account.positions {
      LastPointIsCash(c, code, days);
    }
  }

  /** With sane rates and prices that are not negative, a run never goes into debt. */
  lemma RunIsNeverInDebt(c: Config, strategy: Strategy, data: seq<Row>, code: string, r: Result)
    requires ValidConfig(c) && ResultOf(c, strategy, data, code, r) && |data| > MIN_WINDOW_SIZE
    requires SaneRates(c) && PricesNotNegative(data) && c.initialCapital >= 0
    ensures r.finalCapital >= 0.0 && NotNegative(r.equityCurve)
  {
    assert data[|data| - 1].close >= 0.0;
    var days := DaysBefore(strategy, data, |data|);
    var sim := AfterDays(c, code, days);
    OnlyCodeHeld(c, code, days);
    DayPrices(strategy, data, |data|);
    NeverInDebt(c, code, days);
    LiquidationSettles(c, sim.account, data, code);
  }

  lemma AfterNextDay(c: Config, strategy: Strategy, data: seq<Row>, code: string, i: nat)
    requires ValidConfig(c) && MIN_WINDOW_SIZE <= i < |data|
    ensures Simulated(c, strategy, data, code, i + 1)
      == NextDay(c, code, Simulated(c, strategy, data, code, i), DayOf(strategy, data, i))
  {
    var days := DaysBefore(strategy, data, i + 1);
    assert days[..|days| - 1] == DaysBefore(strategy, data, i) && days[|days| - 1] == DayOf(strategy, data, i);
  }

  class BacktestEngine {
    const config: Config
    const strategy: Strategy
    var broker: VirtualBroker

    constructor (config: Config, strategy: Strategy)
      ensures this.config == config && this.strategy == strategy && fresh(broker)
    {
      this.config, this.strategy := config, strategy;
      broker := new VirtualBroker(config);
    }

    method ProcessDay(signal: Signal, code: string, price: int, date: string)
      requires broker.Valid() && broker.config == config && ValidConfig(config) && price > 0
      modifies broker
      ensures broker.Valid()
      ensures broker.View() == ProcessedDay(config, signal, old(broker.View()), code, price, date)
      ensures code in old(broker.View()).positions ==>
        HeldDecision(config, signal, old(broker.View()), broker.View(), code, price as real)
      ensures BuyPrice(config, price as real) != 0.0
      ensures code !in old(broker.View()).positions ==>
        FreeDecision(config, signal, old(broker.View()), broker.View(), code, price as real)
    {
      BuyPricePositive(config, price);
      if code in broker.positions {
        HeldDecides(config, signal, broker.View(), code, price, date);
      } else {
        FreeDecides(config, signal, broker.View(), code, price, date);
      }
      DecideDay(signal, code, price, date);
    }

    /** The body of `_process_day`. */
    method DecideDay(signal: Signal, code: string, price: int, date: string)
      requires broker.Valid() && broker.config == config && ValidConfig(config) && price > 0
      modifies broker
      ensures broker.Valid()
      ensures broker.View() == ProcessedDay(config, signal, old(broker.View()), code, price, date)
    {
      BuyPricePositive(config, price);
      assert PositionOk(broker.View(), code);
      if code in broker.positions {
        var p := broker.positions[code];
        if StopLoss(config, p, price as real) {
          var record := broker.Sell(code, price as real, date);
          return;
        }
        if TakeProfit(config, p, price as real) {
          var record := broker.Sell(code, price as real, date);
          return;
        }
        if Acts(signal, SellSignal) {
          var record := broker.Sell(code, price as real, date);
        }
        return;
      }
      if Acts(signal, BuySignal) {
        var record := broker.Buy(code, price as real, date);
      }
    }

    /** One pass of the day loop: trade unless the close is skipped, then value the portfolio. */
    method RunDay(code: string, day: Day, ghost equity: seq<real>) returns (value: real)
      requires broker.Valid() && broker.config == config && ValidConfig(config)
      modifies broker
      ensures broker.Valid()
      ensures Sim(broker.View(), equity + [value]) == NextDay(config, code, Sim(old(broker.View()), equity), day)
    {
      if day.price > 0 {
        ProcessDay(day.signal, code, day.price, day.date);
      }
      value := broker.PortfolioValue(map[code := day.price as real]);
    }

    method Run(data: seq<Row>, code: string) returns (result: Result)
      requires ValidConfig(config)
      modifies this, broker
      ensures ResultOf(config, strategy, data, code, result)
    {
      if |data| < MIN_WINDOW_SIZE {
        return Failed(TooFewRows);
      }
      broker := new VirtualBroker(config);
      var equity := Simulate(data, code);
      result := BuildResult(data, code, equity);
    }

    /** The day loop. */
    method Simulate(data: seq<Row>, code: string) returns (equity: seq<real>)
      requires broker.Valid() && broker.config == config && ValidConfig(config) && broker.View() == Open(config)
      modifies broker
      ensures broker.Valid() && Simulated(config, strategy, data, code, |data|) == Sim(broker.View(), equity)
    {
      equity := [];
      if |data| <= MIN_WINDOW_SIZE {
        return;
      }
      for i := MIN_WINDOW_SIZE to |data|
        invariant broker.Valid() && Simulated(config, strategy, data, code, i) == Sim(broker.View(), equity)
      {
        AfterNextDay(config, strategy, data, code, i);
        var value := RunDay(code, DayOf(strategy, data, i), equity);
        equity := equity + [value];
      }
    }

    method BuildResult(data: seq<Row>, code: string, equity: seq<real>) returns (result: Result)
      requires ValidConfig(config) && broker.Valid() && broker.config == config && |data| >= MIN_WINDOW_SIZE
      requires Simulated(config, strategy, data, code, |data|) == Sim(broker.View(), equity)
      modifies broker
      ensures ResultOf(config, strategy, data, code, result)
    {
      ghost var days := DaysBefore(strategy, data, |data|);
      OnlyCodeHeld(config, code, days);
      LaterDaysExtend(config, code, days, |days|);
      var last, curve := data[|data| - 1], equity;
      if code in broker.positions {
        var record := broker.Sell(code, last.close, last.date);
        if curve != [] {
          var value := broker.PortfolioValue(map[code := last.close]);
          assert broker.positions == map[];
          curve := curve[..|curve| - 1] + [value];
        }
      }
      if |data| == MIN_WINDOW_SIZE {
        return Failed(NoFirstDate);
      }
      result := Completed(broker.cash, curve, broker.tradeHistory, data[MIN_WINDOW_SIZE].date, last.date);
    }
  }
}
