/** One trading day as a value: what the broker holds, what it accepted, what the engine of
    src/engine.py tracks and what it recorded.  The elementary events of the day and the
    accounting they keep. */
module OrderLedger {
  import opened Options

  datatype Side = Buy | Sell

  datatype Order = Order(code: string, side: Side, quantity: int)

  /** What became of an accepted order; fills are all-or-nothing. */
  datatype Fate = Working | Filled | Cancelled

  /** PendingOrder, with the fields the protocol uses. */
  datatype Pending = Pending(orderNo: nat, side: Side, quantity: int, placedCycle: int, qtyBefore: int)

  /** A recorded trade; the program's row has no order number, the model keeps it. */
  datatype Trade = Trade(orderNo: nat, code: string, side: Side, quantity: int)

  /** `tracked` holds the orders in `_pending_orders`, and the one being confirmed right now. */
  datatype Day = Day(
    opening: map<string, int>,
    holdings: map<string, int>,
    orders: map<nat, Order>,
    fate: map<nat, Fate>,
    tracked: map<string, Pending>,
    ledger: seq<Trade>,
    buys: map<string, int>,
    cache: Option<map<string, int>>)

  function Held(m: map<string, int>, code: string): int {
    if code in m then m[code] else 0
  }

  function Signed(side: Side, quantity: int): int {
    if side.Buy? then quantity else -quantity
  }

  function Last<T>(s: seq<T>): T
    requires s != []
  {
    s[|s| - 1]
  }

  function Front<T>(s: seq<T>): seq<T>
    requires s != []
  {
    s[..|s| - 1]
  }

  /** Shares bought minus shares sold, as recorded. */
  function Net(ledger: seq<Trade>, code: string): int {
    if ledger == [] then 0
    else
      var t := Last(ledger);
      Net(Front(ledger), code) + (if t.code == code then Signed(t.side, t.quantity) else 0)
  }

  /** How many recorded trades carry this order number. */
  function TradesOf(ledger: seq<Trade>, no: nat): nat {
    if ledger == [] then 0
    else TradesOf(Front(ledger), no) + (if Last(ledger).orderNo == no then 1 else 0)
  }

  /** How many recorded trades bought this stock. */
  function BuysOf(ledger: seq<Trade>, code: string): nat {
    if ledger == [] then 0
    else BuysOf(Front(ledger), code) + (if Last(ledger).code == code && Last(ledger).side.Buy? then 1 else 0)
  }

  /** The holding that the recorded trades explain. */
  function Position(d: Day, code: string): int {
    Held(d.opening, code) + Net(d.ledger, code)
  }

  function FateOf(d: Day, no: nat): Fate {
    if no in d.fate then d.fate[no] else Cancelled
  }

  /** A fill of the tracked order that the engine has not seen yet. */
  function LateFill(d: Day, code: string): int {
    if code in d.tracked && FateOf(d, d.tracked[code].orderNo).Filled?
    then Signed(d.tracked[code].side, d.tracked[code].quantity) else 0
  }

  predicate IsTracked(d: Day, no: nat)
    requires no in d.orders
  {
    var code := d.orders[no].code;
    code in d.tracked && d.tracked[code].orderNo == no
  }

  /** The order is in exactly one state: recorded as one trade, tracked, or cancelled. */
  ghost predicate OneState(d: Day, no: nat) {
    no in d.orders ==>
      match FateOf(d, no)
      case Working => IsTracked(d, no) && TradesOf(d.ledger, no) == 0
      case Filled => if IsTracked(d, no) then TradesOf(d.ledger, no) == 0 else TradesOf(d.ledger, no) == 1
      case Cancelled => !IsTracked(d, no) && TradesOf(d.ledger, no) == 0
  }

  ghost predicate TrackedOk(d: Day, code: string) {
    code in d.tracked ==>
      var p := d.tracked[code];
      && p.orderNo in d.orders && d.orders[p.orderNo] == Order(code, p.side, p.quantity)
      && !FateOf(d, p.orderNo).Cancelled?
      && p.quantity > 0 && p.qtyBefore == Position(d, code)
      && (p.side.Sell? ==> p.quantity <= p.qtyBefore)
  }

  /** Broker holding = opening + net recorded + late fill of the tracked order; nothing oversold. */
  ghost predicate Conserved(d: Day, code: string) {
    Held(d.holdings, code) == Position(d, code) + LateFill(d, code) && Position(d, code) >= 0
  }

  ghost predicate TradeOk(d: Day, k: int) {
    0 <= k < |d.ledger| ==>
      var t := d.ledger[k];
      t.orderNo in d.orders && d.orders[t.orderNo] == Order(t.code, t.side, t.quantity)
      && FateOf(d, t.orderNo).Filled?
  }

  /** A cached balance can only lack the late fill of a tracked order. */
  ghost predicate CacheOk(d: Day, code: string) {
    d.cache.Some? ==>
      || Held(d.cache.value, code) == Held(d.holdings, code)
      || (code in d.tracked && Held(d.cache.value, code) == Position(d, code))
  }

  /** `_today_buys_per_stock` counts the recorded buys. */
  ghost predicate BuysOk(d: Day, code: string) {
    Held(d.buys, code) == BuysOf(d.ledger, code)
  }

  ghost predicate Accounted(d: Day) {
    && d.fate.Keys == d.orders.Keys
    && (forall no :: OneState(d, no))
    && (forall code :: TrackedOk(d, code))
    && (forall code :: Conserved(d, code))
    && (forall code :: CacheOk(d, code))
    && (forall k :: TradeOk(d, k))
    && (forall code :: BuysOk(d, code))
  }

  /** Recorded buys plus a tracked BUY stay within the per-stock limit. */
  ghost predicate WithinLimit(d: Day, limit: int) {
    forall code :: Committed(d, code) <= (if limit > 0 then limit else 0)
  }

  function Committed(d: Day, code: string): int {
    Held(d.buys, code) + (if code in d.tracked && d.tracked[code].side.Buy? then 1 else 0)
  }

  // ---------- events ----------

  function Adding(m: map<string, int>, code: string, delta: int): map<string, int> {
    m[code := Held(m, code) + delta]
  }

  /** The broker accepts an order of the engine. */
  function Accept(d: Day, no: nat, code: string, p: Pending): Day {
    d.(orders := d.orders[no := Order(code, p.side, p.quantity)],
       fate := d.fate[no := Working],
       tracked := d.tracked[code := p],
       cache := None)
  }

  /** The broker fills a working order, at a time of its choosing. */
  function Fill(d: Day, no: nat): Day
    requires no in d.orders
  {
    var o := d.orders[no];
    d.(fate := d.fate[no := Filled], holdings := Adding(d.holdings, o.code, Signed(o.side, o.quantity)))
  }

  /** The engine reads the balance. */
  function Observe(d: Day): Day {
    d.(cache := Some(d.holdings))
  }

  /** The change of the holding since the order was placed, in the order's direction. */
  function Observed(d: Day, code: string): int
    requires code in d.tracked
  {
    var p := d.tracked[code];
    if p.side.Buy? then Held(d.holdings, code) - p.qtyBefore else p.qtyBefore - Held(d.holdings, code)
  }

  /** The engine records a trade of `quantity` shares and stops tracking the order. */
  function Record(d: Day, code: string, quantity: int): Day
    requires code in d.tracked
  {
    var p := d.tracked[code];
    d.(ledger := d.ledger + [Trade(p.orderNo, code, p.side, quantity)],
       tracked := d.tracked - {code},
       buys := if p.side.Buy? then Adding(d.buys, code, 1) else d.buys)
  }

  /** The engine stops tracking the order without recording it. */
  function Drop(d: Day, code: string): Day {
    d.(tracked := d.tracked - {code})
  }

  /** What happens to the stock `code` leaves every other stock's orders and trades alone. */
  ghost predicate OthersKept(d: Day, e: Day, code: string) {
    forall c :: c != code ==> StockKept(d, e, c)
  }

  ghost predicate StockKept(d: Day, e: Day, c: string) {
    && (c in d.tracked <==> c in e.tracked)
    && (c in d.tracked ==> d.tracked[c] == e.tracked[c])
    && Position(d, c) == Position(e, c) && Held(d.buys, c) == Held(e.buys, c)
  }

  /** The broker cancels a working order. */
  function Cancel(d: Day, no: nat): Day {
    d.(fate := d.fate[no := Cancelled])
  }

  /** What goes wrong around one cancellation: is the balance poll answered, does the order fill
      between the poll and the cancel request, does the broker act on the request. */
  datatype CancelOutcome = CancelOutcome(pollAnswered: bool, fillsInGap: bool, requestAccepted: bool)

  const CLEAN := CancelOutcome(true, false, true)

  /** An order given up without being recorded: a fill in the gap, the cancel request, then untracked. */
  function Abandon(d: Day, code: string, outcome: CancelOutcome): Day
    requires code in d.tracked && d.tracked[code].orderNo in d.orders
  {
    var no := d.tracked[code].orderNo;
    var asked := if outcome.fillsInGap && FateOf(d, no).Working? then Fill(d, no) else d;
    Drop(if FateOf(asked, no).Working? && outcome.requestAccepted then Cancel(asked, no) else asked, code)
  }

  /** `_cancel_pending_order` as a whole: poll if reconciliation is on, record a fill that was seen,
      otherwise give the order up. */
  function Cancelling(d: Day, code: string, reconcile: bool, outcome: CancelOutcome): Day
    requires code in d.tracked && d.tracked[code].orderNo in d.orders
  {
    if reconcile && outcome.pollAnswered then
      if Observed(d, code) > 0 then Record(Observe(d), code, Observed(d, code)) else Abandon(Observe(d), code, outcome)
    else Abandon(d, code, outcome)
  }

  /** The cancellation does not lose the order: a fill before it is seen by the reconciling poll, or
      the order still works when the broker acts on the request. */
  predicate CancelHolds(d: Day, code: string, reconcile: bool, outcome: CancelOutcome)
    requires code in d.tracked
  {
    if FateOf(d, d.tracked[code].orderNo).Filled? then reconcile && outcome.pollAnswered
    else !outcome.fillsInGap && outcome.requestAccepted
  }

  // ---------- what the events keep ----------

  lemma LedgerAppend(ledger: seq<Trade>, t: Trade)
    ensures forall code :: Net(ledger + [t], code) == Net(ledger, code) + (if t.code == code then Signed(t.side, t.quantity) else 0)
    ensures forall no :: TradesOf(ledger + [t], no) == TradesOf(ledger, no) + (if t.orderNo == no then 1 else 0)
    ensures forall code :: BuysOf(ledger + [t], code) == BuysOf(ledger, code) + (if t.code == code && t.side.Buy? then 1 else 0)
  {
    assert Front(ledger + [t]) == ledger && Last(ledger + [t]) == t;
  }

  lemma {:induction false} UnknownNumberHasNoTrades(d: Day, ledger: seq<Trade>, no: nat)
    requires forall k :: 0 <= k < |ledger| ==> ledger[k].orderNo != no
    ensures TradesOf(ledger, no) == 0
  {
    if ledger != [] { UnknownNumberHasNoTrades(d, Front(ledger), no); }
  }

  /** Placing an order keeps the accounts, if the snapshot before it was exact and no order
      of the stock is outstanding. */
  lemma AcceptKeepsAccounts(d: Day, no: nat, code: string, p: Pending)
    requires Accounted(d) && no !in d.orders && code !in d.tracked
    requires p.orderNo == no && p.quantity > 0 && p.qtyBefore == Position(d, code)
    requires p.side.Sell? ==> p.quantity <= p.qtyBefore
    ensures Accounted(Accept(d, no, code, p))
  {
    var e := Accept(d, no, code, p);
    forall k | 0 <= k < |d.ledger| ensures d.ledger[k].orderNo != no { assert TradeOk(d, k); }
    UnknownNumberHasNoTrades(d, d.ledger, no);
    forall n: nat ensures OneState(e, n) { assert OneState(d, n); }
    forall c ensures TrackedOk(e, c) && Conserved(e, c) && CacheOk(e, c) {
      assert TrackedOk(d, c) && Conserved(d, c) && CacheOk(d, c);
    }
    forall k ensures TradeOk(e, k) { assert TradeOk(d, k); }
    forall c ensures BuysOk(e, c) { assert BuysOk(d, c); }
  }

  /** A fill at any moment keeps the accounts: it becomes the late fill of a tracked order. */
  lemma FillKeepsAccounts(d: Day, no: nat)
    requires Accounted(d) && no in d.orders && FateOf(d, no).Working?
    ensures Accounted(Fill(d, no))
  {
    var e := Fill(d, no);
    assert OneState(d, no);
    forall n: nat ensures OneState(e, n) { assert OneState(d, n); }
    forall c ensures TrackedOk(e, c) && Conserved(e, c) && CacheOk(e, c) {
      assert TrackedOk(d, c) && Conserved(d, c) && CacheOk(d, c);
    }
    forall k ensures TradeOk(e, k) { assert TradeOk(d, k); }
    forall c ensures BuysOk(e, c) { assert BuysOk(d, c); }
  }

  lemma ObserveKeepsAccounts(d: Day)
    requires Accounted(d)
    ensures Accounted(Observe(d))
  {
    var e := Observe(d);
    forall n: nat ensures OneState(e, n) { assert OneState(d, n); }
    forall c ensures TrackedOk(e, c) && Conserved(e, c) && CacheOk(e, c) {
      assert TrackedOk(d, c) && Conserved(d, c);
    }
    forall k ensures TradeOk(e, k) { assert TradeOk(d, k); }
    forall c ensures BuysOk(e, c) { assert BuysOk(d, c); }
  }

  lemma ForgetKeepsAccounts(d: Day)
    requires Accounted(d)
    ensures Accounted(d.(cache := None))
  {
    var e := d.(cache := None);
    forall n: nat ensures OneState(e, n) { assert OneState(d, n); }
    forall c ensures TrackedOk(e, c) && Conserved(e, c) && CacheOk(e, c) {
      assert TrackedOk(d, c) && Conserved(d, c);
    }
    forall k ensures TradeOk(e, k) { assert TradeOk(d, k); }
    forall c ensures BuysOk(e, c) { assert BuysOk(d, c); }
  }

  /** For a stock without a tracked order even a cached balance is exact. */
  lemma SnapshotIsExact(d: Day, code: string)
    requires Accounted(d) && code !in d.tracked
    ensures Held(d.holdings, code) == Position(d, code) >= 0
    ensures d.cache.Some? ==> Held(d.cache.value, code) == Position(d, code)
  {
    assert Conserved(d, code) && CacheOk(d, code);
  }

  /** Comparing the holding with the snapshot sees a fill exactly when there is one, and its size. */
  lemma ObservedIsFill(d: Day, code: string)
    requires Accounted(d) && code in d.tracked
    ensures Observed(d, code) > 0 <==> FateOf(d, d.tracked[code].orderNo).Filled?
    ensures Observed(d, code) > 0 ==> Observed(d, code) == d.tracked[code].quantity
  {
    assert TrackedOk(d, code) && Conserved(d, code);
  }

  /** Recording what was observed moves the order from tracked to recorded. */
  lemma RecordKeepsAccounts(d: Day, code: string)
    requires Accounted(d) && code in d.tracked && d.cache == Some(d.holdings)
    requires FateOf(d, d.tracked[code].orderNo).Filled?
    ensures Accounted(Record(d, code, d.tracked[code].quantity))
  {
    var p := d.tracked[code];
    var e := Record(d, code, p.quantity);
    LedgerAppend(d.ledger, Last(e.ledger));
    assert Front(e.ledger) == d.ledger;
    assert TrackedOk(d, code) && Conserved(d, code);
    forall n: nat ensures OneState(e, n) {
      assert OneState(d, n);
    }
    forall c ensures TrackedOk(e, c) && Conserved(e, c) && CacheOk(e, c) {
      assert TrackedOk(d, c) && Conserved(d, c) && CacheOk(d, c);
    }
    forall k ensures TradeOk(e, k) { assert TradeOk(d, k); }
    forall c ensures BuysOk(e, c) { assert BuysOk(d, c); }
  }

  /** Cancelling an order that still works moves it from tracked to cancelled. */
  lemma CancelKeepsAccounts(d: Day, code: string)
    requires Accounted(d) && code in d.tracked
    requires FateOf(d, d.tracked[code].orderNo).Working?
    ensures Accounted(Drop(Cancel(d, d.tracked[code].orderNo), code))
  {
    var e := Drop(Cancel(d, d.tracked[code].orderNo), code);
    assert TrackedOk(d, code);
    forall n: nat ensures OneState(e, n) {
      assert OneState(d, n);
    }
    forall c ensures TrackedOk(e, c) && Conserved(e, c) && CacheOk(e, c) {
      assert TrackedOk(d, c) && Conserved(d, c) && CacheOk(d, c);
    }
    forall k ensures TradeOk(e, k) {
      assert TradeOk(d, k);
      assert OneState(d, d.tracked[code].orderNo);
    }
    forall c ensures BuysOk(e, c) { assert BuysOk(d, c); }
  }

  /** Dropping an order that was neither recorded nor cancelled loses it. */
  lemma DropLosesAccounts(d: Day, code: string)
    requires Accounted(d) && code in d.tracked
    ensures !Accounted(Drop(d, code))
  {
    var no := d.tracked[code].orderNo;
    assert TrackedOk(d, code) && OneState(d, no);
    assert !OneState(Drop(d, code), no);
  }

  /** Recording a tracked order turns a tracked buy into a counted one. */
  lemma RecordOthersKept(d: Day, code: string, quantity: int)
    requires code in d.tracked
    ensures OthersKept(d, Record(d, code, quantity), code)
    ensures Committed(Record(d, code, quantity), code) == Committed(d, code)
  {
    var e := Record(d, code, quantity);
    LedgerAppend(d.ledger, Last(e.ledger));
    forall c | c != code ensures StockKept(d, e, c) {}
  }

  /** The engine's own records agree; only the broker or the cached balance moved. */
  ghost predicate SameRecords(d: Day, e: Day) {
    d.opening == e.opening && d.tracked == e.tracked && d.ledger == e.ledger && d.buys == e.buys
  }

  lemma SameRecordsKeep(d: Day, e: Day, limit: int)
    requires SameRecords(d, e)
    ensures WithinLimit(d, limit) ==> WithinLimit(e, limit)
    ensures forall code :: OthersKept(d, e, code)
    ensures forall code :: Position(d, code) == Position(e, code) && Committed(d, code) == Committed(e, code)
  {
    forall code ensures OthersKept(d, e, code) {
      forall c ensures StockKept(d, e, c) {}
    }
    if WithinLimit(d, limit) {
      forall c ensures Committed(e, c) <= (if limit > 0 then limit else 0) {
        assert Committed(d, c) <= (if limit > 0 then limit else 0);
      }
    }
  }

  lemma OthersKeptTransitive(d: Day, e: Day, f: Day, code: string)
    requires OthersKept(d, e, code) && OthersKept(e, f, code)
    ensures OthersKept(d, f, code)
  {
    forall c | c != code ensures StockKept(d, f, c) {
      assert StockKept(d, e, c) && StockKept(e, f, c);
    }
  }

  /** After an order is accepted, market moves and polls leave the engine's own records as they were. */
  lemma PlacedOthersKept(d: Day, no: nat, code: string, p: Pending, e: Day)
    requires code !in d.tracked && e.opening == d.opening && e.ledger == d.ledger && e.buys == d.buys
    requires e.tracked == Accept(d, no, code, p).tracked
    ensures OthersKept(d, e, code)
    ensures Committed(e, code) == Committed(d, code) + (if p.side.Buy? then 1 else 0)
  {
    forall c | c != code ensures StockKept(d, e, c) {}
  }

  lemma AbandonOthersKept(d: Day, code: string, outcome: CancelOutcome)
    requires code in d.tracked && d.tracked[code].orderNo in d.orders
    ensures OthersKept(d, Abandon(d, code, outcome), code)
    ensures Committed(Abandon(d, code, outcome), code) <= Committed(d, code)
  {
    forall c | c != code ensures StockKept(d, Abandon(d, code, outcome), c) {}
  }

  /** However it turns out, a cancellation commits the stock to no more buys and touches no other stock. */
  lemma CancellingCommitsNoMore(d: Day, code: string, reconcile: bool, outcome: CancelOutcome)
    requires code in d.tracked && d.tracked[code].orderNo in d.orders
    ensures var e := Cancelling(d, code, reconcile, outcome);
      OthersKept(d, e, code) && Committed(e, code) <= Committed(d, code)
  {
    var polled := if reconcile && outcome.pollAnswered then Observe(d) else d;
    AbandonOthersKept(polled, code, outcome);
    RecordOthersKept(polled, code, Observed(d, code));
    var e := Cancelling(d, code, reconcile, outcome);
    forall c | c != code ensures StockKept(d, e, c) { assert StockKept(polled, e, c); }
  }

  /** Giving up an order keeps the accounts exactly when it was working and the cancellation held. */
  lemma AbandonAccounts(d: Day, code: string, outcome: CancelOutcome)
    requires Accounted(d) && code in d.tracked
    ensures d.tracked[code].orderNo in d.orders
    ensures Accounted(Abandon(d, code, outcome)) <==>
            FateOf(d, d.tracked[code].orderNo).Working? && !outcome.fillsInGap && outcome.requestAccepted
  {
    var no := d.tracked[code].orderNo;
    assert TrackedOk(d, code);
    var asked := if outcome.fillsInGap && FateOf(d, no).Working? then Fill(d, no) else d;
    if asked != d { FillKeepsAccounts(d, no); }
    if FateOf(asked, no).Working? && outcome.requestAccepted {
      CancelKeepsAccounts(asked, code);
    } else {
      DropLosesAccounts(asked, code);
    }
  }

  /** Cancelling a tracked order keeps the accounts exactly when the cancellation does not lose it. */
  lemma CancellingAccounts(d: Day, code: string, reconcile: bool, outcome: CancelOutcome)
    requires Accounted(d) && code in d.tracked
    ensures d.tracked[code].orderNo in d.orders
    ensures Accounted(Cancelling(d, code, reconcile, outcome)) <==> CancelHolds(d, code, reconcile, outcome)
  {
    assert TrackedOk(d, code);
    ObserveKeepsAccounts(d);
    ObservedIsFill(d, code);
    var polled := if reconcile && outcome.pollAnswered then Observe(d) else d;
    if reconcile && outcome.pollAnswered && FateOf(d, d.tracked[code].orderNo).Filled? {
      RecordKeepsAccounts(polled, code);
    } else {
      AbandonAccounts(polled, code, outcome);
    }
  }

  /** A change to one stock that commits it to no more buys keeps the limit. */
  lemma LimitKept(d: Day, e: Day, code: string, limit: int)
    requires WithinLimit(d, limit) && OthersKept(d, e, code)
    requires Committed(e, code) <= Committed(d, code) || Committed(e, code) <= limit
    ensures WithinLimit(e, limit)
  {
    forall c ensures Committed(e, c) <= (if limit > 0 then limit else 0) {
      assert Committed(d, c) <= (if limit > 0 then limit else 0);
      assert c != code ==> StockKept(d, e, c);
    }
  }

  /** Why the clean-up must run before the stocks are processed: replacing a stale buy at the limit
      keeps the limit exactly when the stale order had not filled meanwhile. */
  lemma ReplacingAtTheLimit(d: Day, code: string, limit: int, no: nat, p: Pending)
    requires Accounted(d) && WithinLimit(d, limit) && code in d.tracked && d.tracked[code].side.Buy?
    requires Committed(d, code) == limit && p.side.Buy?
    ensures d.tracked[code].orderNo in d.orders
    ensures WithinLimit(Accept(Cancelling(d, code, true, CLEAN), no, code, p), limit)
       <==> FateOf(d, d.tracked[code].orderNo).Working?
  {
    assert TrackedOk(d, code);
    CancellingCommitsNoMore(d, code, true, CLEAN);
    ObservedIsFill(d, code);
    var e := Cancelling(d, code, true, CLEAN);
    var f := Accept(e, no, code, p);
    if FateOf(d, d.tracked[code].orderNo).Filled? {
      RecordOthersKept(Observe(d), code, d.tracked[code].quantity);
      assert Committed(f, code) == limit + 1;
    } else {
      assert TrackedOk(d, code) && BuysOk(d, code);
      PlacedOthersKept(e, no, code, p, f);
      OthersKeptTransitive(d, e, f, code);
      LimitKept(d, f, code, limit);
    }
  }

  /** With nothing tracked, holdings are the opening ones plus the net recorded quantity, and every
      accepted order is recorded exactly once or cancelled. */
  lemma SettledDay(d: Day)
    requires Accounted(d) && d.tracked == map[]
    ensures forall code :: Held(d.holdings, code) == Held(d.opening, code) + Net(d.ledger, code)
    ensures forall no :: no in d.orders ==>
      if FateOf(d, no).Cancelled? then TradesOf(d.ledger, no) == 0 else TradesOf(d.ledger, no) == 1
  {
    forall code ensures Held(d.holdings, code) == Held(d.opening, code) + Net(d.ledger, code) {
      assert Conserved(d, code);
    }
    forall no | no in d.orders
      ensures if FateOf(d, no).Cancelled? then TradesOf(d.ledger, no) == 0 else TradesOf(d.ledger, no) == 1
    {
      assert OneState(d, no);
    }
  }
}
