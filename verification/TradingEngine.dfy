/** The order protocol of src/engine.py: place, poll for a fill, record or track as pending,
    then suppress, reconcile or cancel.  The broker is an adversary: it may fill any working
    order whenever the engine waits, and cancellations may go wrong. */
module TradingEngine {
  import opened LostOrders
  import opened Options
  import opened OrderLedger

  class Broker {
    var holdings: map<string, int>
    var orders: map<nat, Order>
    var fate: map<nat, Fate>
    var nextOrderNo: nat

    constructor (holdings: map<string, int>)
      ensures this.holdings == holdings && orders == map[] && fate == map[] && nextOrderNo == 0
    {
      this.holdings, orders, fate, nextOrderNo := holdings, map[], map[], 0;
    }

    ghost predicate Valid()
      reads this
    {
      fate.Keys == orders.Keys && forall no :: no in orders ==> no < nextOrderNo
    }

    method Accept(code: string, side: Side, quantity: int) returns (no: nat)
      requires Valid()
      modifies this
      ensures Valid() && no == old(nextOrderNo) && no !in old(orders)
      ensures orders == old(orders)[no := Order(code, side, quantity)] && fate == old(fate)[no := Working]
      ensures holdings == old(holdings)
    {
      no := nextOrderNo;
      nextOrderNo := no + 1;
      orders, fate := orders[no := Order(code, side, quantity)], fate[no := Working];
    }

    method Fill(no: nat)
      requires Valid() && no in orders
      modifies this
      ensures Valid() && orders == old(orders) && nextOrderNo == old(nextOrderNo)
      ensures fate == old(fate)[no := Filled]
      ensures holdings == Adding(old(holdings), orders[no].code, Signed(orders[no].side, orders[no].quantity))
    {
      fate := fate[no := Filled];
      holdings := Adding(holdings, orders[no].code, Signed(orders[no].side, orders[no].quantity));
    }

    /** A cancel request: refused for an order that no longer works, or when `accepted` is false. */
    method Cancel(no: nat, accepted: bool)
      requires Valid() && no in orders
      modifies this
      ensures Valid() && orders == old(orders) && nextOrderNo == old(nextOrderNo) && holdings == old(holdings)
      ensures fate == if old(fate[no].Working?) && accepted then old(fate)[no := Cancelled] else old(fate)
    {
      if fate[no].Working? && accepted {
        fate := fate[no := Cancelled];
      }
    }
  }

  lemma AddThenRemove(m: map<string, Pending>, code: string, p: Pending)
    ensures m[code := p] - {code} == m - {code}
  {
  }

  class TradingEngine {
    const broker: Broker
    const maxBuysPerStock: int
    const pendingTimeout: int
    const reconcileOrphanFills: bool
    /** The market's side of the day: every poll before a cancellation is answered, no fill slips in
        between, and the broker accepts the request. */
    const cancelsAreClean: bool
    ghost const opening: map<string, int>
    var pendingOrders: map<string, Pending>
    var todayBuysPerStock: map<string, int>
    var todayTradeCount: int
    var cycleCount: int
    var balanceCache: Option<map<string, int>>
    var tradeQueue: seq<Trade>
    /** The pending orders, and the order that is placed but neither recorded nor registered yet. */
    ghost var tracked: map<string, Pending>
    /** No cancellation of the day has lost its order. */
    ghost var clean: bool

    ghost function Snapshot(): Day
      reads this, broker
    {
      Day(opening, broker.holdings, broker.orders, broker.fate, tracked,
          tradeQueue, todayBuysPerStock, balanceCache)
    }

    ghost predicate Valid()
      reads this, broker
    {
      && Counted() && Kept(Snapshot())
      && (clean <==> NoneLost(Snapshot()))
      && (reconcileOrphanFills && cancelsAreClean ==> clean)
    }

    ghost predicate Counted()
      reads this, broker
    {
      broker.Valid() && todayTradeCount == |tradeQueue|
    }

    ghost predicate TrackedOrder(code: string)
      reads this, broker
    {
      var d := Snapshot();
      code in d.tracked && d.tracked[code].orderNo in d.orders
    }

    /** Between two steps of a cycle: no order is halfway, and the per-stock limit holds. */
    ghost predicate AtRest()
      reads this, broker
    {
      Valid() && tracked == pendingOrders && WithinLimit(Snapshot(), maxBuysPerStock)
    }

    predicate Stale(p: Pending)
      reads this
    {
      cycleCount - p.placedCycle >= pendingTimeout
    }

    /** `pre_market`: nothing pending, nothing counted, the balance as the broker holds it. */
    constructor (broker: Broker, maxBuysPerStock: int, pendingTimeout: int, reconcileOrphanFills: bool, cancelsAreClean: bool)
      requires broker.Valid() && broker.orders == map[]
      requires forall code :: Held(broker.holdings, code) >= 0
      ensures AtRest() && this.broker == broker && this.opening == broker.holdings
      ensures this.maxBuysPerStock == maxBuysPerStock && this.pendingTimeout == pendingTimeout
      ensures this.reconcileOrphanFills == reconcileOrphanFills && this.cancelsAreClean == cancelsAreClean
      ensures pendingOrders == map[] && todayBuysPerStock == map[] && balanceCache == None
      ensures todayTradeCount == cycleCount == 0 && tradeQueue == [] && clean
    {
      this.broker, this.opening := broker, broker.holdings;
      this.maxBuysPerStock, this.pendingTimeout := maxBuysPerStock, pendingTimeout;
      this.reconcileOrphanFills, this.cancelsAreClean := reconcileOrphanFills, cancelsAreClean;
      pendingOrders, todayBuysPerStock, todayTradeCount, cycleCount := map[], map[], 0, 0;
      balanceCache, tradeQueue, tracked, clean := None, [], map[], true;
      new;
      AccountedLosesNone(Snapshot());
    }

    /** While the engine waits, any number of working orders may fill. */
    method MarketMoves()
      requires Valid()
      modifies broker
      ensures Valid() && broker.orders == old(broker.orders) && cycleCount == old(cycleCount)
    {
      var steps: nat := *;
      while steps > 0
        invariant Valid() && broker.orders == old(broker.orders) && cycleCount == old(cycleCount)
      {
        var no: nat := *;
        if no in broker.orders && broker.fate[no].Working? {
          FillCarries(Snapshot(), no);
          ghost var before := Snapshot();
          broker.Fill(no);
          assert Snapshot() == Fill(before, no);
        }
        steps := steps - 1;
      }
    }

    /** How a cancellation will go. */
    method CancelGoes() returns (outcome: CancelOutcome)
      ensures cancelsAreClean ==> outcome == CLEAN
    {
      outcome := *;
      if cancelsAreClean {
        outcome := CLEAN;
      }
    }

    /** `_get_balance`: the cache if it may be used, else a query that fails when it is not answered. */
    method GetBalance(force: bool, cacheFresh: bool, answered: bool) returns (balance: Option<map<string, int>>)
      requires Valid()
      modifies `balanceCache
      ensures Valid()
      ensures if !force && cacheFresh && old(balanceCache).Some? then balance == balanceCache == old(balanceCache)
              else if answered then balance == balanceCache == Some(broker.holdings)
              else balance == None && balanceCache == old(balanceCache)
    {
      if !force && balanceCache.Some? && cacheFresh {
        return balanceCache;
      }
      if !answered {
        return None;
      }
      ObserveCarries(Snapshot());
      ghost var before := Snapshot();
      balanceCache := Some(broker.holdings);
      assert Snapshot() == Observe(before);
      return balanceCache;
    }

    method HoldingQuantity(code: string, force: bool, cacheFresh: bool, answered: bool) returns (quantity: Option<int>)
      requires Valid()
      modifies `balanceCache
      ensures Valid()
      ensures if !force && cacheFresh && old(balanceCache).Some?
              then balanceCache == old(balanceCache) && quantity == Some(Held(balanceCache.value, code))
              else if answered then balanceCache == Some(broker.holdings) && quantity == Some(Held(broker.holdings, code))
              else balanceCache == old(balanceCache) && quantity == None
    {
      var balance := GetBalance(force, cacheFresh, answered);
      quantity := if balance.Some? then Some(Held(balance.value, code)) else None;
    }

    /** `_confirm_fill`: poll, `answers[k]` telling whether poll k is answered; 0 means not filled. */
    method ConfirmFill(code: string, side: Side, qtyBefore: int, answers: seq<bool>) returns (filled: int)
      requires Valid() && code in tracked && side == tracked[code].side && qtyBefore == tracked[code].qtyBefore
      modifies `balanceCache, broker
      ensures Valid() && broker.orders == old(broker.orders) && filled >= 0 && cycleCount == old(cycleCount)
      ensures filled > 0 ==> balanceCache == Some(broker.holdings) && filled == Observed(Snapshot(), code)
      ensures answers != [] && answers[0] && Observed(old(Snapshot()), code) > 0 ==>
        Snapshot() == Observe(old(Snapshot())) && filled == Observed(old(Snapshot()), code)
      ensures answers != [] && answers[|answers| - 1] && Observed(Snapshot(), code) > 0 ==> filled > 0
      ensures |answers| == 1 ==> Snapshot() == if answers[0] then Observe(old(Snapshot())) else old(Snapshot())
      ensures |answers| == 1 && filled > 0 ==> answers[0]
    {
      var attempt := 0;
      while attempt < |answers|
        invariant Valid() && 0 <= attempt <= |answers| && broker.orders == old(broker.orders)
        invariant attempt == 0 ==> Snapshot() == old(Snapshot())
        invariant attempt > 0 ==> !(answers[0] && Observed(old(Snapshot()), code) > 0)
        invariant attempt == |answers| > 0 && answers[attempt - 1] ==> Observed(Snapshot(), code) <= 0
        invariant attempt == |answers| == 1 ==> Snapshot() == if answers[0] then Observe(old(Snapshot())) else old(Snapshot())
      {
        var answer := HoldingQuantity(code, true, false, answers[attempt]);
        var qtyAfter := if answer.Some? then answer.value else qtyBefore;
        filled := if side.Buy? then qtyAfter - qtyBefore else qtyBefore - qtyAfter;
        if filled > 0 {
          return;
        }
        attempt := attempt + 1;
        if attempt < |answers| {
          MarketMoves();
        }
      }
      return 0;
    }

    /** On a day that lost no order, a positive balance difference is the whole fill of the order. */
    lemma ConfirmedIsFill(code: string)
      requires Valid() && clean && code in tracked
      ensures Observed(Snapshot(), code) > 0 <==> FateOf(Snapshot(), tracked[code].orderNo).Filled?
      ensures Observed(Snapshot(), code) > 0 ==> Observed(Snapshot(), code) == tracked[code].quantity
    {
      ObservedIsFill(Snapshot(), code);
    }

    /** Recording a confirmed fill: counters, tracking and the trade queue. */
    method RecordFill(code: string, p: Pending, filled: int)
      requires Valid() && code in tracked && p == tracked[code] && filled == Observed(Snapshot(), code) > 0
      requires balanceCache == Some(broker.holdings)
      requires tracked - {code} == pendingOrders - {code}
      modifies `todayTradeCount, `todayBuysPerStock, `pendingOrders, `tradeQueue, `tracked
      ensures Valid() && tracked == pendingOrders && cycleCount == old(cycleCount)
      ensures Snapshot() == Record(old(Snapshot()), code, filled)
      ensures pendingOrders == old(pendingOrders) - {code}
      ensures tradeQueue == old(tradeQueue) + [Trade(p.orderNo, code, p.side, filled)]
    {
      RecordCarries(Snapshot(), code);
      pendingOrders, tracked := pendingOrders - {code}, tracked - {code};
      todayTradeCount, tradeQueue := todayTradeCount + 1, tradeQueue + [Trade(p.orderNo, code, p.side, filled)];
      todayBuysPerStock := if p.side.Buy? then Adding(todayBuysPerStock, code, 1) else todayBuysPerStock;
    }

    /** `_reconcile_orphan_fill`: one poll; a change of the holding is recorded instead of cancelled. */
    method ReconcileOrphanFill(code: string, answered: bool) returns (recorded: bool)
      requires Valid() && tracked == pendingOrders && code in pendingOrders
      modifies `todayTradeCount, `todayBuysPerStock, `pendingOrders, `tradeQueue, `tracked, `balanceCache, broker
      ensures Valid() && tracked == pendingOrders
      ensures recorded == (answered && Observed(old(Snapshot()), code) > 0)
      ensures recorded ==> Snapshot() == Record(Observe(old(Snapshot())), code, Observed(old(Snapshot()), code))
      ensures !recorded ==> Snapshot() == if answered then Observe(old(Snapshot())) else old(Snapshot())
      ensures pendingOrders == if recorded then old(pendingOrders) - {code} else old(pendingOrders)
    {
      var p := pendingOrders[code];
      ghost var before := Snapshot();
      var filled := ConfirmFill(code, p.side, p.qtyBefore, [answered]);
      if filled <= 0 {
        return false;
      }
      assert Snapshot() == Observe(before);
      RecordFill(code, p, filled);
      return true;
    }

    /** The end of `_cancel_pending_order`: ask for the cancellation, stop tracking whatever came of it. */
    method AbandonOrder(code: string, outcome: CancelOutcome)
      requires broker.Valid() && tracked == pendingOrders && code in pendingOrders
      requires pendingOrders[code].orderNo in broker.orders
      modifies `pendingOrders, `tracked, broker
      ensures broker.Valid() && tracked == pendingOrders == old(pendingOrders) - {code}
      ensures code in old(Snapshot()).tracked && Snapshot() == Abandon(old(Snapshot()), code, outcome)
    {
      var no := pendingOrders[code].orderNo;
      if outcome.fillsInGap && broker.fate[no].Working? {
        broker.Fill(no);
      }
      broker.Cancel(no, outcome.requestAccepted);
      pendingOrders, tracked := pendingOrders - {code}, tracked - {code};
    }

    /** `_cancel_pending_order`: reconcile a late fill, or give the order up. */
    method CancelPendingOrder(code: string, outcome: CancelOutcome)
      requires Valid() && tracked == pendingOrders && code in pendingOrders
      requires cancelsAreClean ==> outcome == CLEAN
      modifies this, broker
      ensures Valid() && tracked == pendingOrders && pendingOrders == old(pendingOrders) - {code} && cycleCount == old(cycleCount)
      ensures old(TrackedOrder(code))
      ensures Snapshot() == Cancelling(old(Snapshot()), code, reconcileOrphanFills, outcome)
      ensures clean == (old(clean) && CancelHolds(old(Snapshot()), code, reconcileOrphanFills, outcome))
    {
      ghost var start := Snapshot();
      assert Known(start, code);
      CancellingLoses(start, code, reconcileOrphanFills, outcome);
      CancelTracked(code, outcome);
      clean := clean && CancelHolds(start, code, reconcileOrphanFills, outcome);
    }

    /** The body of `_cancel_pending_order`. */
    method CancelTracked(code: string, outcome: CancelOutcome)
      requires Valid() && tracked == pendingOrders && code in pendingOrders && TrackedOrder(code)
      modifies `todayTradeCount, `todayBuysPerStock, `pendingOrders, `tradeQueue, `tracked, `balanceCache, broker
      ensures Counted() && tracked == pendingOrders == old(pendingOrders) - {code}
      ensures Snapshot() == Cancelling(old(Snapshot()), code, reconcileOrphanFills, outcome)
    {
      if reconcileOrphanFills {
        var recorded := ReconcileOrphanFill(code, outcome.pollAnswered);
        if recorded {
          return;
        }
      }
      AbandonOrder(code, outcome);
    }

    /** `_suppress_or_replace_pending`: hold back a new order behind a young pending one, cancel an old one. */
    method SuppressOrReplacePending(code: string, outcome: CancelOutcome) returns (suppress: bool)
      requires Valid() && tracked == pendingOrders && (cancelsAreClean ==> outcome == CLEAN)
      modifies this, broker
      ensures (clean ==> old(clean)) && Valid() && tracked == pendingOrders && cycleCount == old(cycleCount)
      ensures suppress == (code in old(pendingOrders) && cycleCount - old(pendingOrders)[code].placedCycle < pendingTimeout)
      ensures suppress || code !in old(pendingOrders) ==>
        Snapshot() == old(Snapshot()) && pendingOrders == old(pendingOrders) && clean == old(clean)
      ensures !suppress && code in old(pendingOrders) ==>
        old(TrackedOrder(code)) && Snapshot() == Cancelling(old(Snapshot()), code, reconcileOrphanFills, outcome)
    {
      if code !in pendingOrders {
        return false;
      }
      if !Stale(pendingOrders[code]) {
        return true;
      }
      CancelPendingOrder(code, outcome);
      return false;
    }

    /** On a day that lost no order the engine knows what it holds: the premises of a new order. */
    ghost predicate Exact(code: string, side: Side, quantity: int, qtyBefore: int)
      reads this, broker
    {
      clean ==> qtyBefore == Position(Snapshot(), code) && (side.Sell? ==> quantity <= qtyBefore)
    }

    /** `_place_buy` and `_place_sell`, when the broker accepts. */
    method PlaceOrder(code: string, side: Side, quantity: int, qtyBefore: int) returns (p: Pending)
      requires Valid() && tracked == pendingOrders && code !in pendingOrders
      requires quantity > 0 && Exact(code, side, quantity, qtyBefore)
      modifies `tracked, `balanceCache, broker
      ensures cycleCount == old(cycleCount)
      ensures Valid() && tracked == pendingOrders[code := p]
      ensures p == Pending(old(broker.nextOrderNo), side, quantity, cycleCount, qtyBefore)
      ensures Snapshot() == Accept(old(Snapshot()), p.orderNo, code, p)
    {
      ghost var start := Snapshot();
      var no := broker.Accept(code, side, quantity);
      p := Pending(no, side, quantity, cycleCount, qtyBefore);
      AcceptCarries(start, no, code, p);
      balanceCache, tracked := None, tracked[code := p];
    }

    /** The unfilled order goes into `_pending_orders`. */
    method RegisterPending(code: string, p: Pending)
      requires Valid() && tracked == pendingOrders[code := p]
      modifies `pendingOrders
      ensures Valid() && tracked == pendingOrders && Snapshot() == old(Snapshot())
    {
      pendingOrders := pendingOrders[code := p];
    }

    /** From an accepted order, for the quantity asked, to a recorded trade or a pending entry. */
    method PlaceAndConfirm(code: string, side: Side, quantity: int, qtyBefore: int, answers: seq<bool>)
      requires Valid() && tracked == pendingOrders && code !in pendingOrders
      requires quantity > 0 && Exact(code, side, quantity, qtyBefore)
      modifies this, broker
      ensures Valid() && tracked == pendingOrders && cycleCount == old(cycleCount) && clean == old(clean)
      ensures OthersKept(old(Snapshot()), Snapshot(), code)
      ensures Committed(Snapshot(), code) == Committed(old(Snapshot()), code) + (if side.Buy? then 1 else 0)
      ensures broker.orders == old(broker.orders)[old(broker.nextOrderNo) := Order(code, side, quantity)]
      ensures code in pendingOrders ==>
        pendingOrders[code] == Pending(old(broker.nextOrderNo), side, quantity, cycleCount, qtyBefore)
      ensures var change := Held(broker.holdings, code) - qtyBefore;
        if code in pendingOrders
        then tradeQueue == old(tradeQueue) && (answers != [] && answers[|answers| - 1] ==> Signed(side, change) <= 0)
        else Signed(side, change) > 0 && (clean ==> Signed(side, change) == quantity)
             && tradeQueue == old(tradeQueue) + [Trade(old(broker.nextOrderNo), code, side, Signed(side, change))]
    {
      ghost var start := Snapshot();
      var p := PlaceOrder(code, side, quantity, qtyBefore);
      ghost var placed := Snapshot();
      ConfirmPlaced(code, p, answers);
      PlacedAndSettled(start, p.orderNo, code, p, placed, Snapshot());
    }

    /** From the acceptance to the end of the confirmation. */
    method ConfirmPlaced(code: string, p: Pending, answers: seq<bool>)
      requires Valid() && tracked == pendingOrders[code := p]
      modifies this, broker
      ensures Valid() && tracked == pendingOrders && cycleCount == old(cycleCount) && clean == old(clean)
      ensures OthersKept(old(Snapshot()), Snapshot(), code)
      ensures Committed(Snapshot(), code) == Committed(old(Snapshot()), code)
      ensures broker.orders == old(broker.orders)
      ensures var change := Signed(p.side, Held(broker.holdings, code) - p.qtyBefore);
        if code in pendingOrders
        then pendingOrders[code] == p && tradeQueue == old(tradeQueue)
             && (answers != [] && answers[|answers| - 1] ==> change <= 0)
        else change > 0 && (clean ==> change == p.quantity)
             && tradeQueue == old(tradeQueue) + [Trade(p.orderNo, code, p.side, change)]
    {
      ghost var placed := Snapshot();
      var filled := AwaitFill(code, p, answers);
      ghost var confirmed := Snapshot();
      SameRecordsKeep(placed, confirmed, maxBuysPerStock);
      SettleOrder(code, p, filled);
      OthersKeptTransitive(placed, confirmed, Snapshot(), code);
    }

    /** From the acceptance to the last poll. */
    method AwaitFill(code: string, p: Pending, answers: seq<bool>) returns (filled: int)
      requires Valid() && code in tracked && p == tracked[code]
      modifies `balanceCache, broker
      ensures Valid() && broker.orders == old(broker.orders)
      ensures filled > 0 ==> balanceCache == Some(broker.holdings) && filled == Observed(Snapshot(), code)
      ensures var change := Signed(p.side, Held(broker.holdings, code) - p.qtyBefore);
        if filled > 0 then filled == change && (clean ==> change == p.quantity)
        else answers != [] && answers[|answers| - 1] ==> change <= 0
    {
      MarketMoves();
      filled := ConfirmFill(code, p.side, p.qtyBefore, answers);
      if clean {
        ConfirmedIsFill(code);
      }
    }

    /** After the polls: a trade is recorded, or the order goes into `_pending_orders`. */
    method SettleOrder(code: string, p: Pending, filled: int)
      requires Valid() && tracked == pendingOrders[code := p]
      requires filled > 0 ==> balanceCache == Some(broker.holdings) && filled == Observed(Snapshot(), code)
      modifies `todayTradeCount, `todayBuysPerStock, `pendingOrders, `tradeQueue, `tracked
      ensures Valid() && tracked == pendingOrders && cycleCount == old(cycleCount)
      ensures OthersKept(old(Snapshot()), Snapshot(), code)
      ensures Committed(Snapshot(), code) == Committed(old(Snapshot()), code)
      ensures filled <= 0 ==> pendingOrders == old(pendingOrders)[code := p] && tradeQueue == old(tradeQueue)
      ensures filled > 0 ==> code !in pendingOrders && tradeQueue == old(tradeQueue) + [Trade(p.orderNo, code, p.side, filled)]
    {
      SameRecordsKeep(Snapshot(), Snapshot(), maxBuysPerStock);
      if filled <= 0 {
        RegisterPending(code, p);
      } else {
        RecordOthersKept(Snapshot(), code, filled);
        AddThenRemove(pendingOrders, code, p);
        RecordFill(code, p, filled);
      }
    }

    /** The holding just before an order, from the cache or a query, else the caller's own figure. */
    method SnapshotBefore(code: string, fallback: int, turn: Turn) returns (qtyBefore: int)
      requires Valid() && tracked == pendingOrders && code !in pendingOrders
      requires clean ==> fallback == Position(Snapshot(), code)
      modifies `balanceCache, broker
      ensures Valid() && tracked == pendingOrders && cycleCount == old(cycleCount)
      ensures SameRecords(old(Snapshot()), Snapshot()) && (clean ==> qtyBefore == fallback)
      ensures broker.orders == old(broker.orders) && pendingOrders == old(pendingOrders) && tradeQueue == old(tradeQueue)
      ensures if turn.cacheFresh && old(balanceCache).Some?
              then balanceCache == old(balanceCache) && qtyBefore == Held(balanceCache.value, code)
              else if turn.answered then balanceCache == Some(broker.holdings) && qtyBefore == Held(broker.holdings, code)
              else qtyBefore == fallback
    {
      MarketMoves();
      var snapshot := HoldingQuantity(code, false, turn.cacheFresh, turn.answered);
      if clean {
        SnapshotIsExact(Snapshot(), code);
      }
      qtyBefore := if snapshot.Some? then snapshot.value else fallback;
    }

    /** The common part of `_execute_buy` and `_execute_sell` for a stock without a pending order: one order
        for the quantity asked, unless the placement raises. */
    method Execute(code: string, side: Side, quantity: int, fallback: int, turn: Turn)
      requires AtRest() && code !in pendingOrders && quantity > 0 && (clean ==> fallback == Position(Snapshot(), code))
      requires match side case Sell => quantity == fallback case Buy => Held(todayBuysPerStock, code) < maxBuysPerStock
      modifies this, broker
      ensures AtRest() && cycleCount == old(cycleCount) && clean == old(clean)
      ensures OthersKept(old(Snapshot()), Snapshot(), code)
      ensures Ordered(old(broker.orders), broker.orders, Order(code, side, quantity), if turn.accepted then 1 else 0)
      ensures !turn.accepted ==> pendingOrders == old(pendingOrders) && tradeQueue == old(tradeQueue)
      ensures !turn.accepted && !(side.Buy? && turn.untradable) ==> balanceCache == None
      ensures !turn.accepted && side.Buy? && turn.untradable && turn.answered ==> balanceCache.Some?
      ensures turn.accepted && code !in pendingOrders ==> |tradeQueue| == |old(tradeQueue)| + 1
      ensures turn.accepted && code in pendingOrders && turn.cacheFresh && old(balanceCache).Some? ==>
        pendingOrders[code].qtyBefore == Held(old(balanceCache).value, code)
      ensures turn.accepted && code in pendingOrders && !(turn.cacheFresh && old(balanceCache).Some?) && !turn.answered ==>
        pendingOrders[code].qtyBefore == fallback
    {
      ghost var start := Snapshot();
      var qtyBefore := SnapshotBefore(code, fallback, turn);
      ghost var ready := Snapshot();
      SameRecordsKeep(start, ready, maxBuysPerStock);
      if !turn.accepted {
        PlacementRaised(side, turn.untradable);
        OthersKeptTransitive(start, ready, Snapshot(), code);
      } else {
        var a: bool, b: bool, c: bool := *, *, *;
        ghost var no := broker.nextOrderNo;
        assert no !in broker.orders;
        PlaceAndConfirm(code, side, quantity, qtyBefore, [a, b, c]);
        LimitKept(ready, Snapshot(), code, maxBuysPerStock);
        OthersKeptTransitive(start, ready, Snapshot(), code);
        assert broker.orders == old(broker.orders)[no := Order(code, side, quantity)];
      }
    }

    /** The placement raised: the cached balance is dropped, except when a buy was refused as untradable. */
    method PlacementRaised(side: Side, untradable: bool)
      requires AtRest()
      modifies `balanceCache
      ensures AtRest() && (forall code :: OthersKept(old(Snapshot()), Snapshot(), code))
      ensures balanceCache == if side.Buy? && untradable then old(balanceCache) else None
    {
      ghost var ready := Snapshot();
      if side.Sell? || !untradable {
        ForgetCarries(ready);
        balanceCache := None;
      }
      SameRecordsKeep(ready, Snapshot(), maxBuysPerStock);
    }

    /** `_execute_buy`.  The caller saw no holding of the stock; the clean-up at the start of the cycle
        left no stale order, so a pending one suppresses the new one. */
    method ExecuteBuy(code: string, turn: Turn)
      requires AtRest() && turn.quantity > 0
      requires code in pendingOrders ==> !Stale(pendingOrders[code])
      requires code !in pendingOrders ==>
        (clean ==> Position(Snapshot(), code) == 0) && Held(todayBuysPerStock, code) < maxBuysPerStock
      modifies this, broker
      ensures AtRest() && cycleCount == old(cycleCount) && (clean ==> old(clean))
      ensures OthersKept(old(Snapshot()), Snapshot(), code)
      ensures Ordered(old(broker.orders), broker.orders, Order(code, Buy, turn.quantity),
                      if !turn.blocked && code !in old(pendingOrders) && turn.databaseUp && turn.accepted then 1 else 0)
    {
      SameRecordsKeep(Snapshot(), Snapshot(), maxBuysPerStock);
      if turn.blocked {
        return;
      }
      var outcome := CancelGoes();
      var suppress := SuppressOrReplacePending(code, outcome);
      if suppress {
        return;
      }
      if !turn.databaseUp {
        return;
      }
      Execute(code, Buy, turn.quantity, 0, turn);
    }

    /** `_execute_sell` of the whole holding that the cycle's balance showed. */
    method ExecuteSell(code: string, quantity: int, turn: Turn)
      requires AtRest() && quantity > 0
      requires code in pendingOrders ==> !Stale(pendingOrders[code])
      requires code !in pendingOrders && clean ==> quantity == Position(Snapshot(), code)
      modifies this, broker
      ensures AtRest() && cycleCount == old(cycleCount) && (clean ==> old(clean))
      ensures OthersKept(old(Snapshot()), Snapshot(), code)
      ensures Ordered(old(broker.orders), broker.orders, Order(code, Sell, quantity),
                      if code !in old(pendingOrders) && turn.databaseUp && turn.accepted then 1 else 0)
    {
      SameRecordsKeep(Snapshot(), Snapshot(), maxBuysPerStock);
      var outcome := CancelGoes();
      var suppress := SuppressOrReplacePending(code, outcome);
      if suppress {
        return;
      }
      if !turn.databaseUp {
        return;
      }
      Execute(code, Sell, quantity, quantity, turn);
    }

    /** One order of a clean-up, at the moment of its cancellation. */
    method CancelNow(code: string)
      requires AtRest() && code in pendingOrders
      modifies this, broker
      ensures AtRest() && pendingOrders == old(pendingOrders) - {code} && cycleCount == old(cycleCount)
      ensures broker.orders == old(broker.orders) && (clean ==> old(clean))
      ensures OthersKept(old(Snapshot()), Snapshot(), code)
    {
      ghost var start := Snapshot();
      var outcome := CancelGoes();
      assert Known(start, code);
      CancellingCommitsNoMore(start, code, reconcileOrphanFills, outcome);
      CancelPendingOrder(code, outcome);
      LimitKept(start, Snapshot(), code, maxBuysPerStock);
    }

    method CancelOne(code: string)
      requires AtRest() && code in pendingOrders
      modifies this, broker
      ensures AtRest() && pendingOrders == old(pendingOrders) - {code} && cycleCount == old(cycleCount)
      ensures broker.orders == old(broker.orders) && (clean ==> old(clean))
      ensures OthersKept(old(Snapshot()), Snapshot(), code)
    {
      ghost var resting := Snapshot();
      MarketMoves();
      ghost var start := Snapshot();
      SameRecordsKeep(resting, start, maxBuysPerStock);
      CancelNow(code);
      OthersKeptTransitive(resting, start, Snapshot(), code);
    }

    /** `_cleanup_stale_pending_orders` */
    method CleanupStalePendingOrders()
      requires AtRest()
      modifies this, broker
      ensures AtRest() && cycleCount == old(cycleCount) && broker.orders == old(broker.orders) && (clean ==> old(clean))
      ensures pendingOrders == map c | c in old(pendingOrders) && cycleCount - old(pendingOrders)[c].placedCycle < pendingTimeout
                               :: old(pendingOrders)[c]
      ensures forall c :: c !in old(pendingOrders) || c in pendingOrders ==> StockKept(old(Snapshot()), Snapshot(), c)
      ensures pendingOrders == old(pendingOrders) ==> balanceCache == old(balanceCache)
    {
      var stale := set c | c in pendingOrders && Stale(pendingOrders[c]);
      CancelAll(stale);
    }

    /** The cancellations of a clean-up. */
    method CancelAll(codes: set<string>)
      requires AtRest() && codes <= pendingOrders.Keys
      modifies this, broker
      ensures AtRest() && cycleCount == old(cycleCount) && broker.orders == old(broker.orders) && (clean ==> old(clean))
      ensures pendingOrders == old(pendingOrders) - codes && StocksKept(old(Snapshot()), Snapshot(), codes)
      ensures codes == {} ==> balanceCache == old(balanceCache)
    {
      ghost var start := Snapshot();
      SameRecordsKeep(start, start, maxBuysPerStock);
      var left := codes;
      while left != {}
        invariant AtRest() && cycleCount == old(cycleCount) && broker.orders == old(broker.orders) && (clean ==> old(clean))
        invariant left <= codes && pendingOrders == old(pendingOrders) - (codes - left)
        invariant StocksKept(start, Snapshot(), codes) && (codes == {} ==> balanceCache == old(balanceCache))
        decreases left
      {
        var code :| code in left;
        ghost var before := Snapshot();
        CancelOne(code);
        StillKept(start, before, Snapshot(), codes, code);
        left := left - {code};
      }
    }

    /** `_cancel_all_pending_orders`, called by post_market. */
    method CancelAllPendingOrders()
      requires AtRest()
      modifies this, broker
      ensures AtRest() && pendingOrders == map[] && broker.orders == old(broker.orders)
    {
      CancelAll(pendingOrders.Keys);
    }

    /** `_process_stock`: a held stock may be sold, always whole; another may be bought past the gates, as long
        as it was bought fewer times than the limit. */
    method ProcessStock(code: string, holding: int, turn: Turn)
      requires AtRest()
      requires code in pendingOrders ==> !Stale(pendingOrders[code])
      requires code !in pendingOrders && clean ==> holding == Position(Snapshot(), code)
      modifies this, broker
      ensures AtRest() && cycleCount == old(cycleCount) && (clean ==> old(clean))
      ensures OthersKept(old(Snapshot()), Snapshot(), code)
      ensures Ordered(old(broker.orders), broker.orders,
        if holding > 0 then Order(code, Sell, holding) else Order(code, Buy, turn.quantity),
        if turn.acts && turn.databaseUp && turn.accepted && code !in old(pendingOrders)
           && (holding > 0 || (Held(old(todayBuysPerStock), code) < maxBuysPerStock && turn.quantity > 0 && !turn.blocked))
        then 1 else 0)
    {
      ghost var start := Snapshot();
      MarketMoves();
      ghost var quoted := Snapshot();
      SameRecordsKeep(start, quoted, maxBuysPerStock);
      if !turn.acts {
        return;
      }
      if holding > 0 {
        ExecuteSell(code, holding, turn);
      } else {
        var buysToday := Held(todayBuysPerStock, code);
        if buysToday >= maxBuysPerStock || turn.quantity <= 0 {
          return;
        }
        if code !in pendingOrders && clean {
          SnapshotIsExact(quoted, code);
        }
        ExecuteBuy(code, turn);
      }
      OthersKeptTransitive(start, quoted, Snapshot(), code);
    }

    /** `run_trading_cycle` over the monitored stocks, each listed once (`_build_monitor_targets` and
        `sorted(held_codes)` both drop duplicates). */
    method RunTradingCycle(cycle: Cycle)
      requires AtRest() && Distinct(cycle.targets) && |cycle.turns| <= |cycle.targets|
      modifies this, broker
      ensures AtRest() && cycleCount == old(cycleCount) + 1
      ensures cycle.stopped ==> broker.orders == old(broker.orders) && pendingOrders == old(pendingOrders)
      ensures !cycle.stopped && cycle.answered ==> exists ready: Day, balance ::
        && ready.orders == old(broker.orders) && ready.tracked == Young(old(pendingOrders), cycleCount, pendingTimeout)
        && (forall c :: c !in old(pendingOrders) || c in ready.tracked ==> StockKept(old(Snapshot()), ready, c))
        && (!cycle.cacheFresh ==> balance == ready.holdings) && (clean ==> BalanceShows(balance, ready))
        && TurnsTaken(ready, broker.orders, cycle.targets, cycle.turns, balance, maxBuysPerStock)
    {
      cycleCount := cycleCount + 1;
      if cycle.stopped {
        return;
      }
      var balance := OpenCycle(cycle.cacheFresh, cycle.answered);
      if balance.None? {
        return;
      }
      ProcessTargets(cycle.targets, cycle.turns, balance.value);
    }

    /** The cycle up to the balance: no stale order is left. */
    method OpenCycle(cacheFresh: bool, answered: bool) returns (balance: Option<map<string, int>>)
      requires AtRest()
      modifies this, broker
      ensures AtRest() && cycleCount == old(cycleCount) && broker.orders == old(broker.orders) && (clean ==> old(clean))
      ensures pendingOrders == Young(old(pendingOrders), cycleCount, pendingTimeout)
      ensures forall c :: c !in old(pendingOrders) || c in pendingOrders ==> StockKept(old(Snapshot()), Snapshot(), c)
      ensures if pendingOrders == old(pendingOrders) && cacheFresh && old(balanceCache).Some?
              then balance == old(balanceCache) else answered ==> balance.Some?
      ensures balance.Some? ==>
        (!cacheFresh ==> balance.value == broker.holdings) && (clean ==> BalanceShows(balance.value, Snapshot()))
    {
      CleanupStalePendingOrders();
      ghost var cleaned := Snapshot();
      MarketMoves();
      balance := GetBalance(false, cacheFresh, answered);
      SameRecordsKeep(cleaned, Snapshot(), maxBuysPerStock);
      SameStocksKept(cleaned, Snapshot());
      if balance.Some? && clean {
        BalanceIsExact(Snapshot(), balance.value);
      }
    }

    /** The loop over the monitored stocks.  It is left early when the circuit breaker opened or the daily API
        limit was hit; there are fewer turns than stocks then. */
    method ProcessTargets(targets: seq<string>, turns: seq<Turn>, balance: map<string, int>)
      requires AtRest() && Distinct(targets) && |turns| <= |targets|
      requires forall code :: code in pendingOrders ==> !Stale(pendingOrders[code])
      requires clean ==> BalanceShows(balance, Snapshot())
      modifies this, broker
      ensures AtRest() && cycleCount == old(cycleCount) && (clean ==> old(clean))
      ensures TurnsTaken(old(Snapshot()), broker.orders, targets, turns, balance, maxBuysPerStock)
    {
      ghost var day, cleanBefore := Snapshot(), clean;
      SameRecordsKeep(day, day, maxBuysPerStock);
      for i := 0 to |turns|
        invariant AtRest() && cycleCount == old(cycleCount)
        invariant UntouchedFrom(day, Snapshot(), targets, i) && (clean ==> cleanBefore)
        invariant TurnsTaken(day, broker.orders, targets, turns[..i], balance, maxBuysPerStock)
      {
        ghost var before := Snapshot();
        assert StockKept(day, before, targets[i]);
        ProcessStock(targets[i], Held(balance, targets[i]), turns[i]);
        StillUntouched(day, before, Snapshot(), targets, i);
        TurnAdded(day, before.orders, broker.orders, targets, turns, i, balance, maxBuysPerStock);
      }
      assert turns[..|turns|] == turns;
    }
  }

  /** What market, gates and broker make of one stock's turn: whether it comes to an order at all (no data, a hold
      signal and an error do not), the shares the gates leave of a buy, whether a buy is blocked (untradable
      today, price floor, market action or disclosure), who answers, and whether a refusal names the stock untradable. */
  datatype Turn = Turn(acts: bool, quantity: int, blocked: bool, databaseUp: bool, accepted: bool, untradable: bool,
                       cacheFresh: bool, answered: bool)

  /** One cycle; `stopped`: kill switch, daily API limit, portfolio halt or open circuit breaker. */
  datatype Cycle = Cycle(targets: seq<string>, turns: seq<Turn>, stopped: bool, cacheFresh: bool, answered: bool)

  /** The pending orders that are not stale. */
  function Young(pending: map<string, Pending>, cycle: int, timeout: int): map<string, Pending> {
    map c | c in pending && cycle - pending[c].placedCycle < timeout :: pending[c]
  }

  /** The balance shows of every stock without a pending order what the records say. */
  ghost predicate BalanceShows(balance: map<string, int>, d: Day) {
    forall code :: code !in d.tracked ==> Held(balance, code) == Position(d, code)
  }

  ghost function OrdersOf(orders: map<nat, Order>, code: string): map<nat, Order> {
    map no | no in orders && orders[no].code == code :: orders[no]
  }

  /** Whether a stock's turn sends an order: a held stock is sold, another one bought while that is allowed. */
  ghost predicate Sends(turn: Turn, holding: int, pending: bool, bought: int, limit: int) {
    && turn.acts && turn.databaseUp && turn.accepted && !pending
    && (holding > 0 || (bought < limit && turn.quantity > 0 && !turn.blocked))
  }

  /** Of this stock exactly the order of its turn was added: the whole holding sold, or the turn's quantity bought. */
  ghost predicate TurnTaken(day: Day, orders: map<nat, Order>, code: string, turn: Turn, holding: int, limit: int) {
    Ordered(OrdersOf(day.orders, code), OrdersOf(orders, code),
      if holding > 0 then Order(code, Sell, holding) else Order(code, Buy, turn.quantity),
      if Sends(turn, holding, code in day.tracked, Held(day.buys, code), limit) then 1 else 0)
  }

  /** Every stock had its turn on the figures of `day`; of the other stocks no order was added. */
  ghost predicate TurnsTaken(day: Day, orders: map<nat, Order>, targets: seq<string>, turns: seq<Turn>,
                             balance: map<string, int>, limit: int)
    requires |turns| <= |targets|
  {
    && (forall i :: 0 <= i < |turns| ==> TurnTaken(day, orders, targets[i], turns[i], Held(balance, targets[i]), limit))
    && (forall c :: c !in targets[..|turns|] ==> OrdersOf(orders, c) == OrdersOf(day.orders, c))
  }

  lemma OrderedOf(before: map<nat, Order>, after: map<nat, Order>, order: Order, count: nat)
    requires Ordered(before, after, order, count)
    ensures Ordered(OrdersOf(before, order.code), OrdersOf(after, order.code), order, count)
    ensures forall c :: c != order.code ==> OrdersOf(after, c) == OrdersOf(before, c)
  {
    if count != 0 {
      var no: nat :| no !in before && after == before[no := order];
      assert no !in OrdersOf(before, order.code);
      assert OrdersOf(after, order.code) == OrdersOf(before, order.code)[no := order];
    }
  }

  lemma TurnAdded(day: Day, before: map<nat, Order>, after: map<nat, Order>, targets: seq<string>, turns: seq<Turn>,
                  i: nat, balance: map<string, int>, limit: int)
    requires Distinct(targets) && i < |turns| <= |targets|
    requires TurnsTaken(day, before, targets, turns[..i], balance, limit)
    requires var code, turn, holding := targets[i], turns[i], Held(balance, targets[i]);
      Ordered(before, after, if holding > 0 then Order(code, Sell, holding) else Order(code, Buy, turn.quantity),
              if Sends(turn, holding, code in day.tracked, Held(day.buys, code), limit) then 1 else 0)
    ensures TurnsTaken(day, after, targets, turns[..i + 1], balance, limit)
  {
    var code, turn, holding := targets[i], turns[i], Held(balance, targets[i]);
    OrderedOf(before, after, if holding > 0 then Order(code, Sell, holding) else Order(code, Buy, turn.quantity),
              if Sends(turn, holding, code in day.tracked, Held(day.buys, code), limit) then 1 else 0);
    assert code !in targets[..i];
    assert TurnTaken(day, after, code, turn, holding, limit);
    forall j | 0 <= j < i ensures TurnTaken(day, after, targets[j], turns[j], Held(balance, targets[j]), limit) {
      assert turns[..i][j] == turns[j] && targets[j] != code;
    }
    assert targets[..i + 1] == targets[..i] + [code];
  }

  /** `count` orders like this one, at most one, were added and none was changed. */
  ghost predicate Ordered(before: map<nat, Order>, after: map<nat, Order>, order: Order, count: nat) {
    if count == 0 then after == before else exists no: nat :: no !in before && after == before[no := order]
  }

  ghost predicate Distinct(targets: seq<string>) {
    forall i, j :: 0 <= i < j < |targets| ==> targets[i] != targets[j]
  }

  /** The stocks not reached yet are as they were when the cycle read the balance. */
  ghost predicate UntouchedFrom(day: Day, now: Day, targets: seq<string>, i: int) {
    forall j :: 0 <= i <= j < |targets| ==> StockKept(day, now, targets[j])
  }

  lemma StillUntouched(day: Day, before: Day, after: Day, targets: seq<string>, i: nat)
    requires Distinct(targets) && i < |targets|
    requires UntouchedFrom(day, before, targets, i) && OthersKept(before, after, targets[i])
    ensures UntouchedFrom(day, after, targets, i + 1)
  {
    forall j | i < j < |targets| ensures StockKept(day, after, targets[j]) {
      assert StockKept(day, before, targets[j]) && StockKept(before, after, targets[j]);
    }
  }

  /** The other stocks' records are as they were. */
  ghost predicate StocksKept(d: Day, e: Day, codes: set<string>) {
    forall c :: c !in codes ==> StockKept(d, e, c)
  }

  lemma StillKept(day: Day, before: Day, after: Day, codes: set<string>, code: string)
    requires StocksKept(day, before, codes) && OthersKept(before, after, code) && code in codes
    ensures StocksKept(day, after, codes)
  {
    forall c | c !in codes ensures StockKept(day, after, c) {
      assert StockKept(day, before, c) && StockKept(before, after, c);
    }
  }

  lemma PlacedAndSettled(d: Day, no: nat, code: string, p: Pending, confirmed: Day, settled: Day)
    requires code !in d.tracked && confirmed.opening == d.opening && confirmed.ledger == d.ledger && confirmed.buys == d.buys
    requires confirmed.tracked == Accept(d, no, code, p).tracked
    requires OthersKept(confirmed, settled, code) && Committed(settled, code) == Committed(confirmed, code)
    ensures OthersKept(d, settled, code)
    ensures Committed(settled, code) == Committed(d, code) + (if p.side.Buy? then 1 else 0)
  {
    PlacedOthersKept(d, no, code, p, confirmed);
    OthersKeptTransitive(d, confirmed, settled, code);
  }

  lemma SameStocksKept(before: Day, after: Day)
    requires SameRecords(before, after)
    ensures forall day, c :: StockKept(day, before, c) ==> StockKept(day, after, c)
  {
  }

  lemma BalanceIsExact(d: Day, balance: map<string, int>)
    requires Accounted(d) && d.cache == Some(balance)
    ensures BalanceShows(balance, d)
  {
    forall code | code !in d.tracked ensures Held(balance, code) == Position(d, code) {
      SnapshotIsExact(d, code);
    }
  }

  /** A whole trading day: pre_market, any number of cycles, post_market, whatever the polls, fills and
      cancellations.  No stock is bought more often than the limit allows; no order is recorded twice or
      recorded and cancelled; the day is accounted for exactly when no cancellation lost its order, as with
      reconciliation on and clean cancellations; then holdings are the opening ones plus the net recorded
      quantity and every order that was not cancelled is recorded. */
  method RunDay(broker: Broker, maxBuysPerStock: int, pendingTimeout: int, reconcile: bool, cancelsAreClean: bool,
                cycles: seq<Cycle>)
      returns (engine: TradingEngine)
    requires broker.Valid() && broker.orders == map[]
    requires forall code :: Held(broker.holdings, code) >= 0
    requires forall k :: 0 <= k < |cycles| ==> Distinct(cycles[k].targets) && |cycles[k].turns| <= |cycles[k].targets|
    modifies broker
    ensures fresh(engine) && engine.broker == broker && engine.todayTradeCount == |engine.tradeQueue|
    ensures forall code :: BuysOf(engine.tradeQueue, code) <= if maxBuysPerStock > 0 then maxBuysPerStock else 0
    ensures forall no :: no in broker.orders ==>
      TradesOf(engine.tradeQueue, no) <= if FateOf(engine.Snapshot(), no).Cancelled? then 0 else 1
    ensures reconcile && cancelsAreClean ==> engine.clean
    ensures engine.clean <==> Accounted(engine.Snapshot())
    ensures engine.clean <==> forall no :: no in broker.orders && !FateOf(engine.Snapshot(), no).Cancelled? ==>
      TradesOf(engine.tradeQueue, no) == 1
    ensures engine.clean ==> forall code ::
      0 <= Held(broker.holdings, code) == Held(old(broker.holdings), code) + Net(engine.tradeQueue, code)
  {
    engine := new TradingEngine(broker, maxBuysPerStock, pendingTimeout, reconcile, cancelsAreClean);
    for k := 0 to |cycles|
      invariant fresh(engine) && engine.broker == broker && engine.AtRest()
      invariant engine.reconcileOrphanFills == reconcile && engine.cancelsAreClean == cancelsAreClean
      invariant engine.opening == old(broker.holdings) && engine.maxBuysPerStock == maxBuysPerStock
    {
      engine.RunTradingCycle(cycles[k]);
    }
    engine.CancelAllPendingOrders();
    DayEnds(engine.Snapshot(), maxBuysPerStock);
  }

  lemma DayEnds(d: Day, limit: int)
    requires Kept(d) && WithinLimit(d, limit) && d.tracked == map[]
    ensures forall code :: BuysOf(d.ledger, code) <= if limit > 0 then limit else 0
    ensures forall no :: no in d.orders ==> TradesOf(d.ledger, no) <= if FateOf(d, no).Cancelled? then 0 else 1
    ensures Accounted(d) <==> NoneLost(d)
    ensures NoneLost(d) <==> forall no :: no in d.orders && !FateOf(d, no).Cancelled? ==> TradesOf(d.ledger, no) == 1
    ensures NoneLost(d) ==> forall code :: 0 <= Held(d.holdings, code) == Held(d.opening, code) + Net(d.ledger, code)
  {
    forall code ensures BuysOf(d.ledger, code) <= if limit > 0 then limit else 0 {
      assert BuysOk(d, code) && Committed(d, code) <= if limit > 0 then limit else 0;
    }
    forall no | no in d.orders
      ensures TradesOf(d.ledger, no) <= if FateOf(d, no).Cancelled? then 0 else 1
      ensures Lost(d, no) <==> !FateOf(d, no).Cancelled? && TradesOf(d.ledger, no) != 1
    {
      EveryOrderEnds(d, no);
    }
    AccountedMeansNoneLost(d);
    if NoneLost(d) {
      SettledDay(d);
      forall code ensures Held(d.holdings, code) >= 0 {
        SnapshotIsExact(d, code);
      }
    }
  }
}
