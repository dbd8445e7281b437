/** Recording a trade and, after a crash, rebuilding the day's risk state from the recorded trades
    (src/engine.py).  The risk manager is any state with a reset value and a step on realised profit. */
module RestartReplay {
  import opened Options
  import opened Sorting

  datatype Market = Krx | Us

  datatype TradeType = Buy | Sell

  /** A row of the shared trades table, with its position in time. */
  datatype Row = Row(market: Market, code: string, tradeType: TradeType, profit: Option<real>, tradedAt: int)

  /** The in-memory state that a crash loses. */
  datatype Book<R> = Book(buys: map<string, int>, lossSells: set<string>, risk: R, count: nat)

  // ---------- prices ----------

  /** Python's `int(x)`: truncation toward zero. */
  function Truncated(x: real): real {
    if x >= 0.0 then x.Floor as real else -((-x).Floor as real)
  }

  /** Two decimals, ties away from zero (ROUND_HALF_UP). */
  function Cents(x: real): real {
    if x >= 0.0 then (x * 100.0 + 0.5).Floor as real / 100.0
    else -((-x * 100.0 + 0.5).Floor as real / 100.0)
  }

  /** `_norm_price` */
  function NormPrice(market: Market, x: real): real {
    if market.Krx? then Truncated(x) else Cents(x)
  }

  /** The amount replayed for a recorded profit: `int(pl)` on KRX, as stored on US. */
  function Replayed(market: Market, profit: real): real {
    if market.Krx? then Truncated(profit) else profit
  }

  function Gain(price: real, avgPrice: real, quantity: int): real {
    (price - avgPrice) * quantity as real
  }

  /** The profit or loss of a sale whose average price is known. */
  function RealisedProfit(market: Market, tradeType: TradeType, quantity: int, price: real, avgPrice: Option<real>)
    : Option<real>
  {
    if tradeType.Sell? && avgPrice.Some? && avgPrice.value > 0.0
    then Some(NormPrice(market, Gain(NormPrice(market, price), avgPrice.value, quantity)))
    else None
  }

  /** Truncation stays on the same side of zero, short of the number by less than 1; cents are off by at most half of one. */
  lemma NormPriceSize(market: Market, x: real)
    ensures var y := NormPrice(market, x);
      if market.Krx? then IsWhole(y) && (if x >= 0.0 then 0.0 <= y <= x < y + 1.0 else y - 1.0 < x <= y <= 0.0)
      else IsWhole(y * 100.0) && -0.005 <= y - x <= 0.005
  {
    if market.Krx? {
      TruncationSize(x);
    } else {
      CentsSize(x);
    }
  }

  ghost predicate IsWhole(x: real) {
    x.Floor as real == x
  }

  lemma TruncationSize(x: real)
    ensures var y := Truncated(x); IsWhole(y) && (if x >= 0.0 then 0.0 <= y <= x < y + 1.0 else y - 1.0 < x <= y <= 0.0)
  {
    var n := if x >= 0.0 then x.Floor else -(-x).Floor;
    assert Truncated(x) == n as real && (n as real).Floor == n;
  }

  lemma CentsSize(x: real)
    ensures var y := Cents(x); IsWhole(y * 100.0) && -0.005 <= y - x <= 0.005
  {
    var n := if x >= 0.0 then (x * 100.0 + 0.5).Floor else -(-x * 100.0 + 0.5).Floor;
    assert Cents(x) == n as real / 100.0;
    assert Cents(x) * 100.0 == n as real && (n as real).Floor == n;
  }

  lemma WholeIsKept(n: int)
    ensures NormPrice(Krx, n as real) == n as real
  {
    assert (n as real).Floor == n && (-(n as real)).Floor == -n;
  }

  lemma GainOfWholes(price: int, avgPrice: int, quantity: int)
    ensures Gain(price as real, avgPrice as real, quantity) == ((price - avgPrice) * quantity) as real
  {
    var share := price - avgPrice;
    assert price as real - avgPrice as real == share as real;
    assert share as real * quantity as real == (share * quantity) as real;
  }

  /** Exactly a sale whose average price is above zero has a result: the gain, whole on KRX and in cents on the US market. */
  lemma ResultIsTheGain(market: Market, tradeType: TradeType, quantity: int, price: real, avgPrice: Option<real>)
    ensures match RealisedProfit(market, tradeType, quantity, price, avgPrice)
      case None => tradeType == Buy || avgPrice == None || avgPrice.value <= 0.0
      case Some(result) =>
        && tradeType == Sell && avgPrice.Some? && avgPrice.value > 0.0
        && var gain := (NormPrice(market, price) - avgPrice.value) * quantity as real;
           if market.Krx?
           then IsWhole(result) && (if gain >= 0.0 then 0.0 <= result <= gain < result + 1.0
                                    else result - 1.0 < gain <= result <= 0.0)
           else IsWhole(result * 100.0) && -0.005 <= result - gain <= 0.005
  {
    if tradeType.Sell? && avgPrice.Some? {
      NormPriceSize(market, Gain(NormPrice(market, price), avgPrice.value, quantity));
    }
  }

  /** On whole prices the result is exactly the gain per share times the shares. */
  lemma WholePricesBalance(quantity: int, price: int, avgPrice: int)
    requires avgPrice > 0
    ensures RealisedProfit(Krx, Sell, quantity, price as real, Some(avgPrice as real))
            == Some(((price - avgPrice) * quantity) as real)
  {
    WholeIsKept(price);
    GainOfWholes(price, avgPrice, quantity);
    var gain := (price - avgPrice) * quantity;
    WholeIsKept(gain);
  }

  /** Recorded amounts survive replay unchanged. */
  lemma ReplayedAsRecorded(market: Market, x: real)
    ensures Replayed(market, NormPrice(market, x)) == NormPrice(market, x)
  {
    if market.Krx? {
      var t := Truncated(x);
      var n := if x >= 0.0 then x.Floor else -(-x).Floor;
      assert t == n as real && (n as real).Floor == n && (-n as real).Floor == -n;
    }
  }

  ghost predicate WellRecorded(row: Row) {
    row.profit.Some? ==> Replayed(row.market, row.profit.value) == row.profit.value
  }

  ghost predicate AllRecorded(rows: seq<Row>) {
    forall k :: 0 <= k < |rows| ==> WellRecorded(rows[k])
  }

  ghost predicate AllOf(rows: seq<Row>, market: Market) {
    forall k :: 0 <= k < |rows| ==> rows[k].market == market
  }

  // ---------- the live run ----------

  function Counted(m: map<string, int>, code: string): map<string, int> {
    m[code := (if code in m then m[code] else 0) + 1]
  }

  predicate HasResult(row: Row) {
    row.tradeType.Sell? && row.profit.Some?
  }

  /** What confirming and recording one trade does to the state. */
  function LiveStep<R>(step: (R, real) -> R, b: Book<R>, row: Row): Book<R> {
    b.(buys := if row.tradeType.Buy? then Counted(b.buys, row.code) else b.buys,
       lossSells := if HasResult(row) && row.profit.value < 0.0 then b.lossSells + {row.code} else b.lossSells,
       risk := if HasResult(row) then step(b.risk, row.profit.value) else b.risk,
       count := b.count + 1)
  }

  function Live<R>(step: (R, real) -> R, b: Book<R>, rows: seq<Row>): Book<R> {
    if rows == [] then b
    else LiveStep(step, Live(step, b, rows[..|rows| - 1]), rows[|rows| - 1])
  }

  /** The same through the day's trades of both markets: those of the other market pass by. */
  function LiveThrough<R>(step: (R, real) -> R, market: Market, b: Book<R>, rows: seq<Row>): Book<R> {
    if rows == [] then b
    else
      var last, before := rows[|rows| - 1], LiveThrough(step, market, b, rows[..|rows| - 1]);
      if last.market == market then LiveStep(step, before, last) else before
  }

  /** The state that pre_market leaves. */
  function Opening<R>(reset: R): Book<R> {
    Book(map[], {}, reset, 0)
  }

  // ---------- the query and the replay ----------

  predicate TimeLeq(a: Row, b: Row) {
    a.tradedAt <= b.tradedAt
  }

  function Own(rows: seq<Row>, market: Market): (own: seq<Row>)
    ensures AllOf(own, market)
  {
    if rows == [] then []
    else
      var last := rows[|rows| - 1];
      var before := Own(rows[..|rows| - 1], market);
      if last.market == market then before + [last] else before
  }

  function SortedByTime(rows: seq<Row>): seq<Row> {
    TimeIsTotalPreorder();
    Rearranged(rows, StableOrder(rows, TimeLeq))
  }

  /** `get_trades_by_date(today, market=...)`: this market's rows, ordered by time. */
  function Query(table: seq<Row>, market: Market): seq<Row> {
    Own(SortedByTime(table), market)
  }

  function Results(rows: seq<Row>): (results: seq<Row>)
    ensures forall k :: 0 <= k < |results| ==> HasResult(results[k])
  {
    if rows == [] then []
    else
      var last := rows[|rows| - 1];
      var before := Results(rows[..|rows| - 1]);
      if HasResult(last) then before + [last] else before
  }

  function BuysIn(rows: seq<Row>): map<string, int> {
    if rows == [] then map[]
    else
      var before, last := BuysIn(rows[..|rows| - 1]), rows[|rows| - 1];
      if last.tradeType.Buy? then Counted(before, last.code) else before
  }

  function LossSellsIn(rows: seq<Row>): set<string> {
    if rows == [] then {}
    else
      var before, last := LossSellsIn(rows[..|rows| - 1]), rows[|rows| - 1];
      if HasResult(last) && last.profit.value < 0.0 then before + {last.code} else before
  }

  /** The time of the latest sale of each stock. */
  function LastSellsIn(rows: seq<Row>): map<string, int> {
    if rows == [] then map[]
    else
      var before, last := LastSellsIn(rows[..|rows| - 1]), rows[|rows| - 1];
      if last.tradeType.Sell? && (last.code !in before || last.tradedAt > before[last.code])
      then before[last.code := last.tradedAt] else before
  }

  ghost predicate IsLastSell(rows: seq<Row>, code: string, t: int) {
    && (exists k :: 0 <= k < |rows| && rows[k].tradeType.Sell? && rows[k].code == code && rows[k].tradedAt == t)
    && forall k :: 0 <= k < |rows| && rows[k].tradeType.Sell? && rows[k].code == code ==> rows[k].tradedAt <= t
  }

  /** Exactly the stocks that were sold are stamped, each with its latest sale, in whatever order the rows come. */
  lemma {:induction false} LastSellIsLatest(rows: seq<Row>, code: string)
    ensures code in LastSellsIn(rows) ==> IsLastSell(rows, code, LastSellsIn(rows)[code])
    ensures forall k :: 0 <= k < |rows| && rows[k].tradeType.Sell? && rows[k].code == code ==> code in LastSellsIn(rows)
  {
    if rows != [] {
      var front := rows[..|rows| - 1];
      LastSellIsLatest(front, code);
      assert forall k :: 0 <= k < |front| ==> front[k] == rows[k];
      if code in LastSellsIn(front) {
        var k :| 0 <= k < |front| && front[k].tradeType.Sell? && front[k].code == code
                 && front[k].tradedAt == LastSellsIn(front)[code];
        assert rows[k] == front[k];
      }
    }
  }

  function Replay<R>(step: (R, real) -> R, market: Market, risk: R, results: seq<Row>): R
    requires forall k :: 0 <= k < |results| ==> HasResult(results[k])
  {
    if results == [] then risk
    else
      var last := results[|results| - 1];
      assert HasResult(last);
      step(Replay(step, market, risk, results[..|results| - 1]), Replayed(market, last.profit.value))
  }

  /** `sells`, sorted by time once more. */
  function SortedResults(rows: seq<Row>): (sells: seq<Row>)
    ensures |sells| == |Results(rows)| && forall k :: 0 <= k < |sells| ==> HasResult(sells[k])
  {
    TimeIsTotalPreorder();
    SortedByTime(Results(rows))
  }

  /** What the restart leaves, given the rows the query returned and the results among them. */
  function RestoredFrom<R>(step: (R, real) -> R, reset: R, market: Market, b: Book<R>, rows: seq<Row>, sells: seq<Row>): Book<R>
    requires forall k :: 0 <= k < |sells| ==> HasResult(sells[k])
  {
    Book(BuysIn(rows), LossSellsIn(rows),
         if sells == [] then b.risk else Replay(step, market, reset, sells),
         if sells == [] then b.count else |rows|)
  }

  function Restored<R>(step: (R, real) -> R, reset: R, market: Market, b: Book<R>, rows: seq<Row>): Book<R> {
    RestoredFrom(step, reset, market, b, rows, SortedResults(rows))
  }

  // ---------- the query leaves out nothing ----------

  lemma {:induction false} OwnKeepsAll(rows: seq<Row>, market: Market, r: Row)
    ensures multiset(Own(rows, market))[r] == if r.market == market then multiset(rows)[r] else 0
  {
    if rows != [] {
      var front, last := rows[..|rows| - 1], rows[|rows| - 1];
      OwnKeepsAll(front, market, r);
      assert rows == front + [last];
    }
  }

  /** The query returns each row of this market as often as the table holds it, and no other row. */
  lemma QueryKeepsAll(table: seq<Row>, market: Market, r: Row)
    ensures multiset(Query(table, market))[r] == if r.market == market then multiset(table)[r] else 0
  {
    TimeIsTotalPreorder();
    RearrangedKeepsAll(table, StableOrder(table, TimeLeq));
    OwnKeepsAll(SortedByTime(table), market, r);
  }

  lemma QueryMembers(table: seq<Row>, market: Market, r: Row)
    ensures r in Query(table, market) <==> r in table && r.market == market
  {
    QueryKeepsAll(table, market, r);
    assert r in Query(table, market) <==> multiset(Query(table, market))[r] > 0;
    assert r in table <==> multiset(table)[r] > 0;
  }

  /** How many rows satisfy p. */
  ghost function Count(rows: seq<Row>, p: Row -> bool): nat {
    if rows == [] then 0
    else Count(rows[..|rows| - 1], p) + (if p(rows[|rows| - 1]) then 1 else 0)
  }

  ghost function Positions(rows: seq<Row>, p: Row -> bool): set<int> {
    set k | 0 <= k < |rows| && p(rows[k])
  }

  lemma {:induction false} CountIsPositions(rows: seq<Row>, p: Row -> bool)
    ensures Count(rows, p) == |Positions(rows, p)|
  {
    if rows == [] {
      assert Positions(rows, p) == {};
    } else {
      var n := |rows| - 1;
      CountIsPositions(rows[..n], p);
      assert Positions(rows, p) == Positions(rows[..n], p) + (if p(rows[n]) then {n} else {});
    }
  }

  lemma {:induction false} CountAdds(a: seq<Row>, b: seq<Row>, p: Row -> bool)
    ensures Count(a + b, p) == Count(a, p) + Count(b, p)
    decreases |b|
  {
    if b == [] {
      assert a + b == a;
    } else {
      CountAdds(a, b[..|b| - 1], p);
      assert (a + b)[..|a + b| - 1] == a + b[..|b| - 1];
    }
  }

  lemma CountWithout(rows: seq<Row>, k: nat, p: Row -> bool)
    requires k < |rows|
    ensures Count(rows, p) == Count(rows[..k] + rows[k + 1..], p) + (if p(rows[k]) then 1 else 0)
  {
    var a, b := rows[..k], rows[k + 1..];
    WithItem(rows, k);
    CountAdds(a, b, p);
    CountOneMore(a, rows[k], p);
    CountAdds(a + [rows[k]], b, p);
  }

  lemma CountOneMore(rows: seq<Row>, r: Row, p: Row -> bool)
    ensures Count(rows + [r], p) == Count(rows, p) + (if p(r) then 1 else 0)
  {
    assert (rows + [r])[..|rows|] == rows;
  }

  lemma {:induction false} CountOfSameRows(a: seq<Row>, b: seq<Row>, p: Row -> bool)
    requires multiset(a) == multiset(b)
    ensures Count(a, p) == Count(b, p)
    decreases |a|
  {
    if a == [] {
      assert |multiset(b)| == |b| && |multiset(a)| == 0;
    } else {
      var n := |a| - 1;
      var k := SameRowsWithoutLast(a, b);
      CountWithout(b, k, p);
      CountOfSameRows(a[..n], b[..k] + b[k + 1..], p);
    }
  }

  lemma SameRowsWithoutLast(a: seq<Row>, b: seq<Row>) returns (k: nat)
    requires a != [] && multiset(a) == multiset(b)
    ensures k < |b| && b[k] == a[|a| - 1] && multiset(a[..|a| - 1]) == multiset(b[..k] + b[k + 1..])
  {
    var last := a[|a| - 1];
    WithLast(a);
    assert last in multiset(b);
    assert last in b;
    k :| k < |b| && b[k] == last;
    WithItem(b, k);
    Cancelled(multiset(a[..|a| - 1]), multiset(b[..k] + b[k + 1..]), last);
  }

  lemma Cancelled(a: multiset<Row>, b: multiset<Row>, r: Row)
    requires a + multiset{r} == b + multiset{r}
    ensures a == b
  {
    assert a == (a + multiset{r}) - multiset{r} && b == (b + multiset{r}) - multiset{r};
  }

  ghost function OwnWith(market: Market, p: Row -> bool): Row -> bool {
    (r: Row) => r.market == market && p(r)
  }

  ghost function BuyOf(code: string): Row -> bool {
    (r: Row) => r.tradeType.Buy? && r.code == code
  }

  lemma {:induction false} CountOfOwn(rows: seq<Row>, market: Market, p: Row -> bool)
    ensures Count(Own(rows, market), p) == Count(rows, OwnWith(market, p))
  {
    if rows != [] {
      var n := |rows| - 1;
      CountOfOwn(rows[..n], market, p);
      var before := Own(rows[..n], market);
      assert (before + [rows[n]])[..|before|] == before;
    }
  }

  /** Rows of this market with p, counted in the query or by their positions in the table. */
  lemma CountOfQuery(table: seq<Row>, market: Market, p: Row -> bool)
    ensures Count(Query(table, market), p) == |set k | 0 <= k < |table| && table[k].market == market && p(table[k])|
  {
    var q := OwnWith(market, p);
    TimeIsTotalPreorder();
    RearrangedKeepsAll(table, StableOrder(table, TimeLeq));
    CountOfOwn(SortedByTime(table), market, p);
    CountOfSameRows(SortedByTime(table), table, q);
    CountIsPositions(table, q);
    assert Positions(table, q) == set k | 0 <= k < |table| && table[k].market == market && p(table[k]);
  }

  function Bought(buys: map<string, int>, code: string): int {
    if code in buys then buys[code] else 0
  }

  lemma {:induction false} BuysAreCounted(rows: seq<Row>, code: string)
    ensures Bought(BuysIn(rows), code) == Count(rows, BuyOf(code))
  {
    if rows != [] {
      BuysAreCounted(rows[..|rows| - 1], code);
    }
  }

  lemma {:induction false} LossSellsMean(rows: seq<Row>, code: string)
    ensures code in LossSellsIn(rows) <==>
            exists r :: r in rows && r.tradeType.Sell? && r.profit.Some? && r.profit.value < 0.0 && r.code == code
  {
    if rows != [] {
      var front, last := rows[..|rows| - 1], rows[|rows| - 1];
      LossSellsMean(front, code);
      assert last in rows && forall r :: r in rows <==> r in front || r == last;
    }
  }

  /** What the restart's counters say about the table itself. */
  ghost predicate CountersOf(table: seq<Row>, market: Market, buys: map<string, int>, lossSells: set<string>, lastSells: map<string, int>) {
    && (forall c :: Bought(buys, c) == |set k | 0 <= k < |table| && table[k].market == market && table[k].tradeType.Buy? && table[k].code == c|)
    && (forall c :: c in lossSells <==> exists k :: 0 <= k < |table| && IsLossSell(table[k], market, c))
    && (forall c :: c in lastSells <==> exists k :: 0 <= k < |table| && IsSell(table[k], market, c))
    && (forall c, k :: c in lastSells && 0 <= k < |table| && IsSell(table[k], market, c) ==> table[k].tradedAt <= lastSells[c])
    && (forall c :: c in lastSells ==> exists k :: 0 <= k < |table| && IsSell(table[k], market, c) && table[k].tradedAt == lastSells[c])
  }

  predicate IsSell(r: Row, market: Market, code: string) {
    r.market == market && r.tradeType.Sell? && r.code == code
  }

  predicate IsLossSell(r: Row, market: Market, code: string) {
    IsSell(r, market, code) && r.profit.Some? && r.profit.value < 0.0
  }

  lemma BuysOfTable(table: seq<Row>, market: Market, c: string)
    ensures Bought(BuysIn(Query(table, market)), c)
            == |set k | 0 <= k < |table| && table[k].market == market && table[k].tradeType.Buy? && table[k].code == c|
  {
    var p := BuyOf(c);
    BuysAreCounted(Query(table, market), c);
    CountOfQuery(table, market, p);
    assert (set k | 0 <= k < |table| && table[k].market == market && p(table[k]))
        == set k | 0 <= k < |table| && table[k].market == market && table[k].tradeType.Buy? && table[k].code == c;
  }

  lemma LossSellsOfTable(table: seq<Row>, market: Market, c: string)
    ensures c in LossSellsIn(Query(table, market)) <==> exists k :: 0 <= k < |table| && IsLossSell(table[k], market, c)
  {
    LossSellsMean(Query(table, market), c);
    forall r ensures r in Query(table, market) <==> r in table && r.market == market { QueryMembers(table, market, r); }
  }

  lemma LastSellsOfTable(table: seq<Row>, market: Market, c: string)
    ensures var lastSells := LastSellsIn(Query(table, market));
      && (c in lastSells <==> exists k :: 0 <= k < |table| && IsSell(table[k], market, c))
      && (c in lastSells ==>
            && (forall k :: 0 <= k < |table| && IsSell(table[k], market, c) ==> table[k].tradedAt <= lastSells[c])
            && (exists k :: 0 <= k < |table| && IsSell(table[k], market, c) && table[k].tradedAt == lastSells[c]))
  {
    var rows := Query(table, market);
    LastSellIsLatest(rows, c);
    forall r ensures r in rows <==> r in table && r.market == market { QueryMembers(table, market, r); }
    forall k | 0 <= k < |table| && IsSell(table[k], market, c)
      ensures exists j :: 0 <= j < |rows| && rows[j] == table[k]
    {
      assert table[k] in table && table[k] in rows;
    }
    if c in LastSellsIn(rows) {
      var j :| 0 <= j < |rows| && rows[j].tradeType.Sell? && rows[j].code == c && rows[j].tradedAt == LastSellsIn(rows)[c];
      assert rows[j] in rows && rows[j] in table;
    }
  }

  /** The counters rebuilt from the query are those of the market's rows in the table, whatever their order. */
  lemma RestoredCounters(table: seq<Row>, market: Market)
    ensures var rows := Query(table, market);
      CountersOf(table, market, BuysIn(rows), LossSellsIn(rows), LastSellsIn(rows))
  {
    forall c ensures Bought(BuysIn(Query(table, market)), c)
      == |set k | 0 <= k < |table| && table[k].market == market && table[k].tradeType.Buy? && table[k].code == c| {
      BuysOfTable(table, market, c);
    }
    forall c ensures c in LossSellsIn(Query(table, market)) <==> exists k :: 0 <= k < |table| && IsLossSell(table[k], market, c) {
      LossSellsOfTable(table, market, c);
    }
    var lastSells := LastSellsIn(Query(table, market));
    forall c ensures c in lastSells <==> exists k :: 0 <= k < |table| && IsSell(table[k], market, c) {
      LastSellsOfTable(table, market, c);
    }
    forall c, k | c in lastSells && 0 <= k < |table| && IsSell(table[k], market, c) ensures table[k].tradedAt <= lastSells[c] {
      LastSellsOfTable(table, market, c);
    }
    forall c | c in lastSells
      ensures exists k :: 0 <= k < |table| && IsSell(table[k], market, c) && table[k].tradedAt == lastSells[c]
    {
      LastSellsOfTable(table, market, c);
    }
  }

  // ---------- replaying equals having lived ----------

  lemma TimeIsTotalPreorder()
    ensures TotalPreorder(TimeLeq)
  {
  }

  ghost predicate Increasing(rows: seq<Row>) {
    forall j, k :: 0 <= j < k < |rows| ==> rows[j].tradedAt < rows[k].tradedAt
  }

  predicate TimeLess(a: Row, b: Row) {
    a.tradedAt < b.tradedAt
  }

  /** Sorting any arrangement of trades with increasing times recovers their order. */
  lemma SortRecoversOrder(rows: seq<Row>, arrangement: seq<nat>)
    requires Increasing(rows) && IsPermutation(arrangement, |rows|)
    ensures SortedByTime(Rearranged(rows, arrangement)) == rows
  {
    TimeIsTotalPreorder();
    var table := Rearranged(rows, arrangement);
    var order := StableOrder(table, TimeLeq);
    var sorted := Rearranged(table, order);
    forall j, k | 0 <= j < k < |sorted| ensures TimeLess(sorted[j], sorted[k]) {
      assert Before(table, TimeLeq, order[j], order[k]);
      var a, b := arrangement[order[j]], arrangement[order[k]];
      assert sorted[j] == rows[a] && sorted[k] == rows[b];
      assert order[j] != order[k];
      assert a != b by {
        if order[j] < order[k] { assert arrangement[order[j]] != arrangement[order[k]]; }
        else { assert arrangement[order[k]] != arrangement[order[j]]; }
      }
    }
    SortedFromElements(sorted, rows, TimeLess);
  }

  lemma IdentityPermutation(n: nat) returns (order: seq<nat>)
    ensures IsPermutation(order, n) && forall k :: 0 <= k < n ==> order[k] == k
  {
    order := seq(n, k requires 0 <= k < n => k);
    forall i | 0 <= i < n ensures i in order { assert order[i] == i; }
  }

  lemma SortOfSorted(rows: seq<Row>)
    requires Increasing(rows)
    ensures SortedByTime(rows) == rows
  {
    var order := IdentityPermutation(|rows|);
    assert Rearranged(rows, order) == rows;
    SortRecoversOrder(rows, order);
  }

  ghost predicate AllBy(rows: seq<Row>, t: int) {
    forall k :: 0 <= k < |rows| ==> rows[k].tradedAt <= t
  }

  lemma {:induction false} ResultsIncrease(rows: seq<Row>, t: int)
    requires Increasing(rows) && AllBy(rows, t)
    ensures Increasing(Results(rows)) && AllBy(Results(rows), t)
  {
    if rows != [] {
      ResultsIncrease(rows[..|rows| - 1], rows[|rows| - 1].tradedAt - 1);
    }
  }

  lemma {:induction false} OwnIncreases(rows: seq<Row>, market: Market, t: int)
    requires Increasing(rows) && AllBy(rows, t)
    ensures Increasing(Own(rows, market)) && AllBy(Own(rows, market), t)
  {
    if rows != [] {
      OwnIncreases(rows[..|rows| - 1], market, rows[|rows| - 1].tradedAt - 1);
    }
  }

  lemma {:induction false} OwnWellRecorded(rows: seq<Row>, market: Market)
    requires AllRecorded(rows)
    ensures AllRecorded(Own(rows, market))
  {
    if rows != [] {
      var front, last := rows[..|rows| - 1], rows[|rows| - 1];
      OwnWellRecorded(front, market);
    }
  }

  /** The restart's separate passes over well-recorded rows give what living through them gave. */
  lemma {:induction false} PassesAgreeWithLive<R>(step: (R, real) -> R, reset: R, market: Market, rows: seq<Row>)
    requires AllRecorded(rows) && AllOf(rows, market)
    ensures var live := Live(step, Opening(reset), rows);
      && live.buys == BuysIn(rows) && live.lossSells == LossSellsIn(rows)
      && live.risk == Replay(step, market, reset, Results(rows)) && live.count == |rows|
  {
    if rows != [] {
      var front, last := rows[..|rows| - 1], rows[|rows| - 1];
      assert WellRecorded(last);
      PassesAgreeWithLive(step, reset, market, front);
      if HasResult(last) {
        var results := Results(rows);
        assert results[..|results| - 1] == Results(front) && results[|results| - 1] == last;
        assert Replayed(market, last.profit.value) == last.profit.value;
      }
    }
  }

  /** The restart on rows in order. */
  lemma RestoredInOrder<R>(step: (R, real) -> R, reset: R, boot: R, market: Market, own: seq<Row>)
    requires AllRecorded(own) && AllOf(own, market)
    ensures var live := Live(step, Opening(reset), own);
      var restored := RestoredFrom(step, reset, market, Opening(boot), own, Results(own));
      && restored.buys == live.buys && restored.lossSells == live.lossSells
      && restored.risk == (if Results(own) == [] then boot else live.risk)
      && (Results(own) == [] ==> live.risk == reset)
      && restored.count == (if Results(own) == [] then 0 else live.count) && live.count == |own|
  {
    PassesAgreeWithLive(step, reset, market, own);
  }

  lemma QueryInOrder(all: seq<Row>, arrangement: seq<nat>, market: Market)
    requires Increasing(all) && IsPermutation(arrangement, |all|)
    ensures Query(Rearranged(all, arrangement), market) == Own(all, market)
    ensures SortedResults(Own(all, market)) == Results(Own(all, market))
  {
    var end := if all == [] then 0 else all[|all| - 1].tradedAt;
    SortRecoversOrder(all, arrangement);
    OwnIncreases(all, market, end);
    ResultsIncrease(Own(all, market), end);
    SortOfSorted(Results(Own(all, market)));
  }

  lemma {:induction false} LivingThroughOwn<R>(step: (R, real) -> R, market: Market, b: Book<R>, all: seq<Row>)
    ensures LiveThrough(step, market, b, all) == Live(step, b, Own(all, market))
  {
    if all != [] {
      var n := |all| - 1;
      LivingThroughOwn(step, market, b, all[..n]);
      var before := Own(all[..n], market);
      assert (before + [all[n]])[..|before|] == before;
    }
  }

  ghost predicate Traded(all: seq<Row>, market: Market) {
    exists k :: 0 <= k < |all| && all[k].market == market
  }

  ghost predicate SoldWithResult(all: seq<Row>, market: Market) {
    exists k :: 0 <= k < |all| && all[k].market == market && all[k].tradeType.Sell? && all[k].profit.Some?
  }

  lemma {:induction false} ResultsOfAll(all: seq<Row>, market: Market)
    ensures Own(all, market) != [] <==> Traded(all, market)
    ensures Results(Own(all, market)) != [] <==> SoldWithResult(all, market)
  {
    if all != [] {
      var n := |all| - 1;
      ResultsOfAll(all[..n], market);
      var before := Own(all[..n], market);
      assert (before + [all[n]])[..|before|] == before;
      assert forall k :: 0 <= k < n ==> all[..n][k] == all[k];
    }
  }

  /** After a crash with a drained queue, the restart rebuilds the per-stock buy counts and the loss marks
      that the uninterrupted run had, for any arrangement of the shared table and any trades of the other
      market in between; the risk state exactly if some sale of the day carried a result or a new risk manager
      starts out reset; the trade count exactly if some sale carried a result or nothing was traded. */
  lemma RestartRebuildsState<R>(step: (R, real) -> R, reset: R, boot: R, market: Market,
      all: seq<Row>, arrangement: seq<nat>)
    requires Increasing(all) && IsPermutation(arrangement, |all|)
    requires AllRecorded(all)
    ensures var live := LiveThrough(step, market, Opening(reset), all);
      var restored := Restored(step, reset, market, Opening(boot), Query(Rearranged(all, arrangement), market));
      && restored.buys == live.buys && restored.lossSells == live.lossSells
      && (restored.risk == live.risk <==> (SoldWithResult(all, market) || boot == reset))
      && (restored.count == live.count <==> (SoldWithResult(all, market) || !Traded(all, market)))
  {
    QueryInOrder(all, arrangement, market);
    OwnWellRecorded(all, market);
    RestoredInOrder(step, reset, boot, market, Own(all, market));
    LivingThroughOwn(step, market, Opening(reset), all);
    ResultsOfAll(all, market);
  }

  // ---------- the program ----------

  class RiskBook<R> {
    const market: Market
    const reset: R
    const step: (R, real) -> R
    var todayBuysPerStock: map<string, int>
    var lossSellDates: set<string>
    var risk: R
    var todayTradeCount: nat
    var lastSellAt: map<string, int>
    var peakPrices: map<string, real>
    var restored: bool

    function View(): Book<R>
      reads this
    {
      Book(todayBuysPerStock, lossSellDates, risk, todayTradeCount)
    }

    /** `pre_market`, after which no restore is due; `peaks` are the peak prices in the database. */
    constructor PreMarket(market: Market, reset: R, step: (R, real) -> R, peaks: map<string, real>)
      ensures View() == Opening(reset) && restored && lastSellAt == map[] && peakPrices == peaks
      ensures this.market == market && this.reset == reset && this.step == step
    {
      this.market, this.reset, this.step := market, reset, step;
      todayBuysPerStock, lossSellDates, risk, todayTradeCount, restored := map[], {}, reset, 0, true;
      lastSellAt, peakPrices := map[], peaks;
    }

    /** A process that starts again in the middle of the day. */
    constructor Restarted(market: Market, reset: R, step: (R, real) -> R, boot: R)
      ensures View() == Opening(boot) && !restored && lastSellAt == map[] && peakPrices == map[]
      ensures this.market == market && this.reset == reset && this.step == step
    {
      this.market, this.reset, this.step := market, reset, step;
      todayBuysPerStock, lossSellDates, risk, todayTradeCount, restored := map[], {}, boot, 0, false;
      lastSellAt, peakPrices := map[], map[];
    }

    /** Counting a confirmed trade and `_record_trade_to_db`; `avgPrice` is None when not given. */
    method RecordTrade(code: string, tradeType: TradeType, quantity: int, price: real, avgPrice: Option<real>, now: int)
      returns (row: Row)
      modifies `todayTradeCount, `todayBuysPerStock, `risk, `lossSellDates
      ensures View() == LiveStep(step, old(View()), row) && WellRecorded(row)
      ensures row.market == market && row.code == code && row.tradeType == tradeType && row.tradedAt == now
      ensures row.profit == RealisedProfit(market, tradeType, quantity, price, avgPrice)
    {
      todayTradeCount := todayTradeCount + 1;
      if tradeType.Buy? {
        todayBuysPerStock := Counted(todayBuysPerStock, code);
      }
      var profit := RealisedProfit(market, tradeType, quantity, price, avgPrice);
      if profit.Some? {
        ReplayedAsRecorded(market, Gain(NormPrice(market, price), avgPrice.value, quantity));
        risk := step(risk, profit.value);
        if profit.value < 0.0 {
          lossSellDates := lossSellDates + {code};
        }
      }
      row := Row(market, code, tradeType, profit, now);
    }

    /** `_restore_risk_state_if_needed` over the trades table; `peaks` are the peak prices in the database. */
    method RestoreIfNeeded(table: seq<Row>, peaks: map<string, real>)
      modifies this
      ensures restored
      ensures lastSellAt == if old(restored) then old(lastSellAt) else LastSellsIn(Query(table, market))
      ensures !old(restored) ==> CountersOf(table, market, todayBuysPerStock, lossSellDates, lastSellAt)
      ensures peakPrices == if old(restored) || Results(Query(table, market)) == [] then old(peakPrices) else peaks
      ensures View() == if old(restored) then old(View())
                        else Restored(step, reset, market, old(View()), Query(table, market))
    {
      if restored {
        return;
      }
      restored := true;
      var trades := Query(table, market);
      RestoreFrom(trades, SortedResults(trades), peaks);
      RestoredCounters(table, market);
    }

    method RestoreFrom(trades: seq<Row>, sells: seq<Row>, peaks: map<string, real>)
      requires forall k :: 0 <= k < |sells| ==> HasResult(sells[k])
      modifies `todayBuysPerStock, `lossSellDates, `lastSellAt, `risk, `todayTradeCount, `peakPrices
      ensures lastSellAt == LastSellsIn(trades) && peakPrices == if sells == [] then old(peakPrices) else peaks
      ensures View() == RestoredFrom(step, reset, market, old(View()), trades, sells)
    {
      RestoreCounters(trades);
      if sells == [] {
        return;
      }
      risk := reset;
      for k := 0 to |sells|
        invariant todayBuysPerStock == BuysIn(trades) && lossSellDates == LossSellsIn(trades)
        invariant lastSellAt == LastSellsIn(trades)
        invariant risk == Replay(step, market, reset, sells[..k])
      {
        assert sells[..k + 1][..k] == sells[..k];
        risk := step(risk, Replayed(market, sells[k].profit.value));
      }
      assert sells[..|sells|] == sells;
      todayTradeCount := |trades|;
      peakPrices := peaks;
    }

    method RestoreCounters(trades: seq<Row>)
      modifies `todayBuysPerStock, `lossSellDates, `lastSellAt
      ensures todayBuysPerStock == BuysIn(trades) && lossSellDates == LossSellsIn(trades)
      ensures lastSellAt == LastSellsIn(trades)
    {
      todayBuysPerStock, lossSellDates, lastSellAt := map[], {}, map[];
      for k := 0 to |trades|
        invariant todayBuysPerStock == BuysIn(trades[..k]) && lossSellDates == LossSellsIn(trades[..k])
        invariant lastSellAt == LastSellsIn(trades[..k])
      {
        var t := trades[k];
        assert trades[..k + 1][..k] == trades[..k];
        if t.tradeType.Buy? {
          todayBuysPerStock := Counted(todayBuysPerStock, t.code);
        } else {
          if t.code !in lastSellAt || t.tradedAt > lastSellAt[t.code] {
            lastSellAt := lastSellAt[t.code := t.tradedAt];
          }
          if t.profit.Some? && t.profit.value < 0.0 {
            lossSellDates := lossSellDates + {t.code};
          }
        }
      }
      assert trades[..|trades|] == trades;
    }
  }
}
