/** The virtual broker of src/backtest/broker.py, on reals.  Each operation is a function on the
    account and a method that performs it; the accounting is proved for the functions. */
module BacktestBroker {
  import opened Options

  datatype Config = Config(
    initialCapital: int,
    commissionRate: real,
    slippageRate: real,
    maxPositionRatio: real,
    maxLossRate: real,
    takeProfitRatio: real)

  datatype Position = Position(quantity: int, avgPrice: real, entryDate: string)

  datatype Side = Buy | Sell

  datatype Trade = Trade(date: string, code: string, side: Side, price: real, quantity: int,
                         commission: real, profitLoss: real, profitRate: real)

  datatype Account = Account(cash: real, positions: map<string, Position>, history: seq<Trade>)

  function Open(c: Config): Account {
    Account(c.initialCapital as real, map[], [])
  }

  /** Python's `int(x)`. */
  function Truncate(x: real): int {
    if x >= 0.0 then x.Floor else -(-x).Floor
  }

  // ---------- valuation ----------

  function Value(code: string, p: Position, prices: map<string, real>): real {
    p.quantity as real * (if code in prices then prices[code] else p.avgPrice)
  }

  /** The value of all positions, at the given prices or else at their average price. */
  ghost function Worth(positions: map<string, Position>, prices: map<string, real>): real {
    if positions == map[] then 0.0
    else
      var code :| code in positions;
      Value(code, positions[code], prices) + Worth(positions - {code}, prices)
  }

  /** The sum may start with any position. */
  lemma {:induction false} WorthSplits(positions: map<string, Position>, prices: map<string, real>, code: string)
    requires code in positions
    ensures Worth(positions, prices) == Value(code, positions[code], prices) + Worth(positions - {code}, prices)
    decreases |positions|
  {
    var first :| code in positions && first in positions
      && Worth(positions, prices) == Value(first, positions[first], prices) + Worth(positions - {first}, prices);
    if first != code {
      assert positions.Keys == (positions - {first}).Keys + {first};
      assert positions.Keys == (positions - {code}).Keys + {code};
      WorthSplits(positions - {first}, prices, code);
      WorthSplits(positions - {code}, prices, first);
      assert (positions - {first}) - {code} == (positions - {code}) - {first};
    }
  }

  lemma WorthAdds(positions: map<string, Position>, prices: map<string, real>, code: string, p: Position)
    requires code !in positions
    ensures Worth(positions[code := p], prices) == Worth(positions, prices) + Value(code, p, prices)
  {
    WorthSplits(positions[code := p], prices, code);
    assert positions[code := p] - {code} == positions;
  }

  // ---------- operations ----------

  function BuyPrice(c: Config, price: real): real {
    price * (1.0 + c.slippageRate)
  }

  function SellPrice(c: Config, price: real): real {
    price * (1.0 - c.slippageRate)
  }

  function Commission(c: Config, price: real, quantity: int): real {
    price * quantity as real * c.commissionRate
  }

  function Cost(c: Config, price: real, quantity: int): real {
    price * quantity as real + Commission(c, price, quantity)
  }

  /** The shares that the investable part of the cash pays for, commission aside. */
  function Affordable(c: Config, cash: real, price: real): int
    requires price != 0.0
  {
    WholeShares(Investable(c, cash), price)
  }

  function Investable(c: Config, cash: real): real {
    cash * c.maxPositionRatio
  }

  function WholeShares(total: real, price: real): int
    requires price != 0.0
  {
    Truncate(total / price)
  }

  /** How many shares `buy` takes: the affordable share of the cash, one less if the commission does not
      fit, none if that does not fit either. */
  function BuyQuantity(c: Config, cash: real, price: real): (quantity: int)
    requires price != 0.0
    ensures quantity >= 0 && (quantity > 0 ==> Cost(c, price, quantity) <= cash)
  {
    var wanted := Affordable(c, cash, price);
    if wanted <= 0 then 0
    else if Cost(c, price, wanted) <= cash then wanted
    else if wanted > 1 && Cost(c, price, wanted - 1) <= cash then wanted - 1
    else 0
  }

  function Amount(price: real, quantity: int): real {
    price * quantity as real
  }

  /** The purchase keeps within the investable part of the cash and, with commission, within the cash. */
  predicate Fits(c: Config, cash: real, price: real, quantity: int) {
    Amount(price, quantity) <= Investable(c, cash) && Cost(c, price, quantity) <= cash
  }

  lemma AmountGrows(price: real, m: int, n: int)
    requires price > 0.0 && m <= n
    ensures Amount(price, m) <= Amount(price, n)
  {
    Scales(price, m as real, n as real);
  }

  lemma Scales(price: real, a: real, b: real)
    requires price > 0.0
    ensures a <= b ==> price * a <= price * b
    ensures a < b ==> price * a < price * b
  {
  }

  lemma DivisionUndone(total: real, price: real)
    requires price > 0.0 && total >= 0.0
    ensures price * (total / price) == total && total / price >= 0.0
  {
  }

  lemma FloorBounds(shares: real, n: int)
    requires shares >= 0.0 && n == Truncate(shares)
    ensures n >= 0 && n as real <= shares < (n + 1) as real
  {
  }

  lemma AmountOfFewer(total: real, price: real, shares: real, m: int)
    requires price > 0.0 && total == price * shares
    ensures m as real <= shares ==> Amount(price, m) <= total
    ensures shares < m as real ==> total < Amount(price, m)
  {
    Scales(price, m as real, shares);
    Scales(price, shares, m as real);
  }

  lemma WholeSharesBounds(total: real, price: real)
    requires price > 0.0 && total >= 0.0
    ensures WholeShares(total, price) >= 0
    ensures Amount(price, WholeShares(total, price)) <= total
    ensures total < Amount(price, WholeShares(total, price) + 1)
  {
    var shares, n := total / price, WholeShares(total, price);
    DivisionUndone(total, price);
    FloorBounds(shares, n);
    AmountOfFewer(total, price, shares, n);
    AmountOfFewer(total, price, shares, n + 1);
  }

  /** No larger purchase fits, down to one share below what the investable cash pays for; when that share
      does not fit either nothing is bought. If the ratio leaves room for the commission nothing is given up. */
  lemma QuantityIsLargest(c: Config, cash: real, price: real)
    requires price > 0.0 && cash >= 0.0 && c.maxPositionRatio >= 0.0 && c.commissionRate >= 0.0
    ensures var n, q := Affordable(c, cash, price), BuyQuantity(c, cash, price);
      && (q > 0 ==> Fits(c, cash, price, q))
      && (forall m :: m > q && m > 0 && m >= n - 1 ==> !Fits(c, cash, price, m))
      && (c.maxPositionRatio * (1.0 + c.commissionRate) <= 1.0 ==> q == n)
  {
    var n, q := Affordable(c, cash, price), BuyQuantity(c, cash, price);
    assert Investable(c, cash) >= 0.0;
    WholeSharesBounds(Investable(c, cash), price);
    AmountGrows(price, n - 1, n);
    forall m | m > q && m > 0 && m >= n - 1
      ensures !Fits(c, cash, price, m)
    {
      if m > n {
        AmountGrows(price, n + 1, m);
      }
    }
    if c.maxPositionRatio * (1.0 + c.commissionRate) <= 1.0 {
      CommissionFits(c, cash, price, n);
    }
  }

  lemma CommissionFits(c: Config, cash: real, price: real, n: int)
    requires cash >= 0.0 && c.commissionRate >= 0.0 && Amount(price, n) <= Investable(c, cash)
    requires c.maxPositionRatio * (1.0 + c.commissionRate) <= 1.0
    ensures Cost(c, price, n) <= cash
  {
    RoomForCommission(cash, c.maxPositionRatio, c.commissionRate, Amount(price, n));
  }

  lemma RoomForCommission(cash: real, ratio: real, rate: real, spent: real)
    requires cash >= 0.0 && rate >= 0.0 && spent <= cash * ratio && ratio * (1.0 + rate) <= 1.0
    ensures spent + spent * rate <= cash
  {
    var f := 1.0 + rate;
    assert spent + spent * rate == spent * f;
    assert (cash * ratio - spent) * f >= 0.0;
    assert cash * ratio * f == cash * (ratio * f);
    assert cash * (1.0 - ratio * f) >= 0.0;
  }

  function BuyTrade(c: Config, a: Account, code: string, price: real, date: string): Option<Trade>
    requires BuyPrice(c, price) != 0.0
  {
    var paid := BuyPrice(c, price);
    var quantity := BuyQuantity(c, a.cash, paid);
    if code in a.positions || quantity == 0 then None
    else Some(Trade(date, code, Buy, paid, quantity, Commission(c, paid, quantity), 0.0, 0.0))
  }

  function Bought(c: Config, a: Account, code: string, price: real, date: string): Account
    requires BuyPrice(c, price) != 0.0
  {
    match BuyTrade(c, a, code, price, date)
    case None => a
    case Some(t) =>
      Account(a.cash - Cost(c, t.price, t.quantity),
              a.positions[code := Position(t.quantity, t.price, date)],
              a.history + [t])
  }

  function SellTrade(c: Config, a: Account, code: string, price: real, date: string): Option<Trade>
    requires code in a.positions ==> a.positions[code].avgPrice != 0.0
  {
    if code !in a.positions then None
    else
      var p, got := a.positions[code], SellPrice(c, price);
      var commission := Commission(c, got, p.quantity);
      Some(Trade(date, code, Sell, got, p.quantity, commission,
                 Profit(got, p, commission), ProfitRate(got, p)))
  }

  function Proceeds(price: real, quantity: int, commission: real): real {
    price * quantity as real - commission
  }

  function Profit(got: real, p: Position, commission: real): real {
    (got - p.avgPrice) * p.quantity as real - commission
  }

  function ProfitRate(got: real, p: Position): real
    requires p.avgPrice != 0.0
  {
    (got - p.avgPrice) / p.avgPrice * 100.0
  }

  function Sold(c: Config, a: Account, code: string, price: real, date: string): Account
    requires code in a.positions ==> a.positions[code].avgPrice != 0.0
  {
    match SellTrade(c, a, code, price, date)
    case None => a
    case Some(t) =>
      Account(a.cash + Proceeds(t.price, t.quantity, t.commission), a.positions - {code}, a.history + [t])
  }

  // ---------- the terms of a trade ----------

  /** Slippage makes every trade dearer by its rate. */
  lemma SlippageCosts(c: Config, price: real)
    ensures BuyPrice(c, price) - price == price * c.slippageRate
    ensures price - SellPrice(c, price) == price * c.slippageRate
  {
  }

  /** A buy: the cash pays for the shares and for the commission on them, and they are held at the price paid. A stock
      that is held, or of which no share fits, is not bought. */
  lemma PurchaseTerms(c: Config, a: Account, code: string, price: real, date: string)
    requires BuyPrice(c, price) != 0.0
    ensures var b, paid := Bought(c, a, code, price, date), BuyPrice(c, price);
      var quantity := BuyQuantity(c, a.cash, paid);
      if code in a.positions || quantity == 0 then b == a
      else
        var fee := paid * quantity as real * c.commissionRate;
        && a.cash - b.cash == paid * quantity as real + fee
        && b.positions == a.positions[code := Position(quantity, paid, date)]
        && b.history == a.history + [Trade(date, code, Buy, paid, quantity, fee, 0.0, 0.0)]
  {
  }

  lemma ShareOf(x: real, a: real)
    requires a != 0.0
    ensures x / a * 100.0 * a == x * 100.0
  {
    assert x / a * a == x;
  }

  lemma SplitGain(got: real, cost: real, quantity: real)
    ensures (got - cost) * quantity == got * quantity - cost * quantity
  {
  }

  /** A sale of the whole position: the result is the cash received, after the commission, less what the position
      cost; its rate is the gain per share in percent of the price paid. */
  lemma SaleTerms(c: Config, a: Account, code: string, price: real, date: string)
    requires code in a.positions && a.positions[code].avgPrice != 0.0
    ensures var b, p, got := Sold(c, a, code, price, date), a.positions[code], SellPrice(c, price);
      && b.positions == a.positions - {code} && |b.history| == |a.history| + 1 && b.history[..|a.history|] == a.history
      && (var t := b.history[|a.history|];
          && t.date == date && t.code == code && t.side == Sell && t.price == got && t.quantity == p.quantity
          && t.commission == got * p.quantity as real * c.commissionRate
          && b.cash - a.cash == got * p.quantity as real - t.commission
          && t.profitLoss == (b.cash - a.cash) - p.avgPrice * p.quantity as real
          && t.profitRate * p.avgPrice == (got - p.avgPrice) * 100.0)
  {
    var p, got := a.positions[code], SellPrice(c, price);
    ShareOf(got - p.avgPrice, p.avgPrice);
    SplitGain(got, p.avgPrice, p.quantity as real);
  }

  // ---------- accounting ----------

  /** Realised profits and losses of the sales less the commissions of the buys. */
  function Realized(history: seq<Trade>): real {
    if history == [] then 0.0
    else
      var t := history[|history| - 1];
      Realized(history[..|history| - 1]) + (if t.side.Sell? then t.profitLoss else -t.commission)
  }

  /** The position that the trades of a stock leave open. */
  function OpenPosition(history: seq<Trade>, code: string): Option<Position> {
    if history == [] then None
    else
      var t := history[|history| - 1];
      OpenAfter(OpenPosition(history[..|history| - 1], code), t, code)
  }

  function OpenAfter(before: Option<Position>, t: Trade, code: string): Option<Position> {
    if t.code != code then before
    else if t.side.Buy? then Some(Position(t.quantity, t.price, t.date))
    else None
  }

  /** A buy finds the stock not held; a sale finds it held and sells all of it. */
  ghost predicate Alternates(history: seq<Trade>, k: int) {
    0 <= k < |history| ==>
      var t, open := history[k], OpenPosition(history[..k], history[k].code);
      if t.side.Buy? then open == None else open.Some? && open.value.quantity == t.quantity
  }

  ghost predicate Sound(c: Config, a: Account) {
    && a.cash + Worth(a.positions, map[]) == c.initialCapital as real + Realized(a.history)
    && Explained(a)
  }

  ghost predicate PositionOk(a: Account, code: string) {
    && OpenPosition(a.history, code) == (if code in a.positions then Some(a.positions[code]) else None)
    && (code in a.positions ==> a.positions[code].quantity > 0 && a.positions[code].avgPrice != 0.0)
  }

  lemma OpenIsSound(c: Config)
    ensures Sound(c, Open(c))
  {
  }

  lemma TradeAppended(history: seq<Trade>, t: Trade)
    ensures Realized(history + [t]) == Realized(history) + (if t.side.Sell? then t.profitLoss else -t.commission)
    ensures forall code :: OpenPosition(history + [t], code) == OpenAfter(OpenPosition(history, code), t, code)
    ensures (forall k :: Alternates(history, k)) && Alternates(history + [t], |history|)
      ==> forall k :: Alternates(history + [t], k)
  {
    var longer := history + [t];
    assert longer[..|history|] == history;
    if forall k :: Alternates(history, k) {
      forall k | k != |history| ensures Alternates(longer, k) {
        assert Alternates(history, k);
        if 0 <= k < |history| { assert longer[..k] == history[..k]; }
      }
    }
  }

  /** The trades of every stock still alternate, and explain the positions. */
  ghost predicate Explained(a: Account) {
    (forall code :: PositionOk(a, code)) && forall k :: Alternates(a.history, k)
  }

  lemma BuyExplained(a: Account, t: Trade, cash: real)
    requires Explained(a) && t.side.Buy? && t.code !in a.positions && t.quantity > 0 && t.price != 0.0
    ensures Explained(Account(cash, a.positions[t.code := Position(t.quantity, t.price, t.date)], a.history + [t]))
  {
    var b := Account(cash, a.positions[t.code := Position(t.quantity, t.price, t.date)], a.history + [t]);
    assert b.history[..|a.history|] == a.history;
    assert PositionOk(a, t.code);
    assert Alternates(b.history, |a.history|);
    TradeAppended(a.history, t);
    forall s ensures PositionOk(b, s) { assert PositionOk(a, s); }
  }

  lemma SellExplained(a: Account, t: Trade, cash: real)
    requires Explained(a) && t.side.Sell? && t.code in a.positions && t.quantity == a.positions[t.code].quantity
    ensures Explained(Account(cash, a.positions - {t.code}, a.history + [t]))
  {
    var b := Account(cash, a.positions - {t.code}, a.history + [t]);
    assert b.history[..|a.history|] == a.history;
    assert PositionOk(a, t.code);
    assert Alternates(b.history, |a.history|);
    TradeAppended(a.history, t);
    forall s ensures PositionOk(b, s) { assert PositionOk(a, s); }
  }

  lemma PurchaseBalances(c: Config, cash: real, worth: real, code: string, p: Position)
    ensures (cash - Cost(c, p.avgPrice, p.quantity)) + (worth + Value(code, p, map[]))
         == cash + worth - Commission(c, p.avgPrice, p.quantity)
  {
  }

  /** A buy moves cash into a position at cost; only its commission is spent. */
  lemma BuyKeepsSound(c: Config, a: Account, code: string, price: real, date: string)
    requires Sound(c, a) && BuyPrice(c, price) != 0.0
    ensures Sound(c, Bought(c, a, code, price, date))
    ensures a.cash >= 0.0 ==> Bought(c, a, code, price, date).cash >= 0.0
  {
    var trade := BuyTrade(c, a, code, price, date);
    if trade.Some? {
      var t := trade.value;
      BuyExplained(a, t, a.cash - Cost(c, t.price, t.quantity));
      TradeAppended(a.history, t);
      WorthAdds(a.positions, map[], code, Position(t.quantity, t.price, date));
      PurchaseBalances(c, a.cash, Worth(a.positions, map[]), code, Position(t.quantity, t.price, date));
    }
  }

  lemma SaleBalances(got: real, p: Position, commission: real)
    ensures Proceeds(got, p.quantity, commission) - p.quantity as real * p.avgPrice == Profit(got, p, commission)
  {
  }

  /** A sale turns a position into cash; what it gains or loses is its profit_loss. */
  lemma SellKeepsSound(c: Config, a: Account, code: string, price: real, date: string)
    requires Sound(c, a)
    ensures code in a.positions ==> a.positions[code].avgPrice != 0.0
    ensures Sound(c, Sold(c, a, code, price, date)) && code !in Sold(c, a, code, price, date).positions
  {
    assert PositionOk(a, code);
    if code in a.positions {
      var t, p := SellTrade(c, a, code, price, date).value, a.positions[code];
      SellExplained(a, t, a.cash + Proceeds(t.price, t.quantity, t.commission));
      TradeAppended(a.history, t);
      WorthSplits(a.positions, map[], code);
      SaleBalances(t.price, p, t.commission);
    }
  }

  /** A purchase or sale appends one trade of its stock, or nothing. */
  lemma TradesAppend(c: Config, a: Account, code: string, price: real, date: string)
    requires BuyPrice(c, price) != 0.0 && (code in a.positions ==> a.positions[code].avgPrice != 0.0)
    ensures var b := Bought(c, a, code, price, date).history;
      b == a.history || (b != [] && b[..|b| - 1] == a.history && b[|b| - 1].code == code)
    ensures var s := Sold(c, a, code, price, date).history;
      s == a.history || (s != [] && s[..|s| - 1] == a.history && s[|s| - 1].code == code)
  {
  }

  /** Rates under which money cannot appear from charges: no negative fee, none above the whole price. */
  predicate SaneRates(c: Config) {
    0.0 <= c.commissionRate <= 1.0 && 0.0 <= c.slippageRate <= 1.0
  }

  lemma SaleNotNegative(c: Config, price: real, quantity: int)
    requires SaneRates(c) && price >= 0.0 && quantity >= 0
    ensures Proceeds(SellPrice(c, price), quantity, Commission(c, SellPrice(c, price), quantity)) >= 0.0
  {
    var got, q, r := SellPrice(c, price), quantity as real, c.commissionRate;
    assert got >= 0.0;
    assert got * q >= 0.0;
    assert (got * q) * (1.0 - r) >= 0.0;
    assert (got * q) * (1.0 - r) == got * q - got * q * r;
  }

  /** With sane rates and a price that is not negative a sale never lowers the cash. */
  lemma SellKeepsCash(c: Config, a: Account, code: string, price: real, date: string)
    requires Sound(c, a) && SaneRates(c) && price >= 0.0
    requires code in a.positions ==> a.positions[code].avgPrice != 0.0
    ensures Sold(c, a, code, price, date).cash >= a.cash
  {
    assert PositionOk(a, code);
    if code in a.positions {
      SaleNotNegative(c, price, a.positions[code].quantity);
    }
  }

  class VirtualBroker {
    const config: Config
    var cash: real
    var positions: map<string, Position>
    var tradeHistory: seq<Trade>

    function View(): Account
      reads this
    {
      Account(cash, positions, tradeHistory)
    }

    ghost predicate Valid()
      reads this
    {
      Sound(config, View())
    }

    constructor (config: Config)
      ensures Valid() && View() == Open(config) && this.config == config
    {
      this.config := config;
      cash, positions, tradeHistory := config.initialCapital as real, map[], [];
      new;
      OpenIsSound(config);
    }

    method ChooseQuantity(adjusted: real) returns (quantity: int)
      requires adjusted != 0.0
      ensures quantity == BuyQuantity(config, cash, adjusted)
    {
      quantity := Affordable(config, cash, adjusted);
      if quantity <= 0 {
        return 0;
      }
      if Cost(config, adjusted, quantity) > cash {
        quantity := quantity - 1;
        if quantity <= 0 || Cost(config, adjusted, quantity) > cash {
          return 0;
        }
      }
    }

    method Buy(code: string, price: real, date: string) returns (record: Option<Trade>)
      requires Valid() && BuyPrice(config, price) != 0.0
      modifies this
      ensures Valid() && View() == Bought(config, old(View()), code, price, date)
      ensures record == BuyTrade(config, old(View()), code, price, date)
    {
      BuyKeepsSound(config, View(), code, price, date);
      record := ExecuteBuy(code, price, date);
    }

    /** The body of `buy`. */
    method ExecuteBuy(code: string, price: real, date: string) returns (record: Option<Trade>)
      requires BuyPrice(config, price) != 0.0
      modifies this
      ensures View() == Bought(config, old(View()), code, price, date)
      ensures record == BuyTrade(config, old(View()), code, price, date)
    {
      if code in positions {
        return None;
      }
      var adjusted := BuyPrice(config, price);
      var quantity := ChooseQuantity(adjusted);
      if quantity <= 0 {
        return None;
      }
      record := Some(Trade(date, code, Side.Buy, adjusted, quantity, Commission(config, adjusted, quantity), 0.0, 0.0));
      cash := cash - Cost(config, adjusted, quantity);
      positions := positions[code := Position(quantity, adjusted, date)];
      tradeHistory := tradeHistory + [record.value];
    }

    method Sell(code: string, price: real, date: string) returns (record: Option<Trade>)
      requires Valid()
      modifies this
      ensures old(code in positions ==> positions[code].avgPrice != 0.0)
      ensures Valid() && View() == Sold(config, old(View()), code, price, date)
      ensures record == SellTrade(config, old(View()), code, price, date)
    {
      SellKeepsSound(config, View(), code, price, date);
      record := ExecuteSell(code, price, date);
    }

    /** The body of `sell`. */
    method ExecuteSell(code: string, price: real, date: string) returns (record: Option<Trade>)
      requires code in positions ==> positions[code].avgPrice != 0.0
      modifies this
      ensures View() == Sold(config, old(View()), code, price, date)
      ensures record == SellTrade(config, old(View()), code, price, date)
    {
      if code !in positions {
        return None;
      }
      var p, adjusted := positions[code], SellPrice(config, price);
      var commission := Commission(config, adjusted, p.quantity);
      record := Some(Trade(date, code, Side.Sell, adjusted, p.quantity, commission,
                           Profit(adjusted, p, commission), ProfitRate(adjusted, p)));
      cash := cash + Proceeds(adjusted, p.quantity, commission);
      positions := positions - {code};
      tradeHistory := tradeHistory + [record.value];
    }

    /** `portfolio_value`, summing over the positions in any order. */
    method PortfolioValue(prices: map<string, real>) returns (value: real)
      ensures value == cash + Worth(positions, prices)
    {
      var sum, rest := 0.0, positions;
      while rest != map[]
        invariant sum + Worth(rest, prices) == Worth(positions, prices)
        decreases |rest|
      {
        var code :| code in rest;
        WorthSplits(rest, prices, code);
        assert rest.Keys == (rest - {code}).Keys + {code};
        sum := sum + Value(code, rest[code], prices);
        rest := rest - {code};
      }
      value := cash + sum;
    }
  }
}
