/** Days on which a cancellation may go wrong.  An order that the engine gave up without recording it,
    and that the broker did not cancel, is lost for good; without one the day is accounted for. */
module LostOrders {
  import opened Options
  import opened OrderLedger

  ghost predicate Lost(d: Day, no: nat) {
    no in d.orders && !IsTracked(d, no) && TradesOf(d.ledger, no) == 0 && !FateOf(d, no).Cancelled?
  }

  ghost predicate NoneLost(d: Day) {
    forall no :: !Lost(d, no)
  }

  /** At most one trade records an order; a tracked order is not recorded, and neither is a cancelled one. */
  ghost predicate OneEnd(d: Day, no: nat) {
    no in d.orders ==>
      && TradesOf(d.ledger, no) <= 1
      && (IsTracked(d, no) ==> TradesOf(d.ledger, no) == 0)
      && (FateOf(d, no).Cancelled? ==> !IsTracked(d, no) && TradesOf(d.ledger, no) == 0)
  }

  ghost predicate Known(d: Day, code: string) {
    code in d.tracked ==> d.tracked[code].orderNo in d.orders && d.orders[d.tracked[code].orderNo].code == code
  }

  ghost predicate TradeKnown(d: Day, k: int) {
    0 <= k < |d.ledger| ==> d.ledger[k].orderNo in d.orders
  }

  /** What every day keeps, whatever becomes of its cancellations. */
  ghost predicate Sane(d: Day) {
    && d.fate.Keys == d.orders.Keys
    && (forall no :: OneEnd(d, no))
    && (forall code :: Known(d, code))
    && (forall k :: TradeKnown(d, k))
    && (forall code :: BuysOk(d, code))
  }

  ghost predicate Kept(d: Day) {
    Sane(d) && (NoneLost(d) ==> Accounted(d))
  }

  /** The day goes on sane, and no order was lost on the way. */
  ghost predicate Carried(d: Day, e: Day) {
    Kept(e) && (NoneLost(e) <==> NoneLost(d))
  }

  lemma AccountedLosesNone(d: Day)
    requires Accounted(d)
    ensures NoneLost(d) && Sane(d)
  {
    forall no ensures !Lost(d, no) && OneEnd(d, no) { assert OneState(d, no); }
    forall code ensures Known(d, code) { assert TrackedOk(d, code); }
    forall k ensures TradeKnown(d, k) { assert TradeOk(d, k); }
  }

  /** The accounts hold exactly when no order is lost. */
  lemma AccountedMeansNoneLost(d: Day)
    requires Kept(d)
    ensures Accounted(d) <==> NoneLost(d)
  {
    if Accounted(d) { AccountedLosesNone(d); }
  }

  /** An event that keeps the accounts and finds no lost order again carries the day on. */
  lemma CarriedBy(d: Day, e: Day)
    requires Kept(d) && Sane(e)
    requires forall no :: Lost(d, no) ==> Lost(e, no)
    requires NoneLost(d) ==> Accounted(e)
    ensures Carried(d, e)
  {
    if NoneLost(d) { AccountedLosesNone(e); }
  }

  lemma AcceptCarries(d: Day, no: nat, code: string, p: Pending)
    requires Kept(d) && no !in d.orders && code !in d.tracked && p.orderNo == no
    requires NoneLost(d) ==> p.quantity > 0 && p.qtyBefore == Position(d, code) && (p.side.Sell? ==> p.quantity <= p.qtyBefore)
    ensures Carried(d, Accept(d, no, code, p))
  {
    var e := Accept(d, no, code, p);
    forall k | 0 <= k < |d.ledger| ensures d.ledger[k].orderNo != no { assert TradeKnown(d, k); }
    UnknownNumberHasNoTrades(d, d.ledger, no);
    forall n: nat ensures OneEnd(e, n) { assert OneEnd(d, n); }
    forall c ensures Known(e, c) && BuysOk(e, c) { assert Known(d, c) && BuysOk(d, c); }
    forall k ensures TradeKnown(e, k) { assert TradeKnown(d, k); }
    if NoneLost(d) { AcceptKeepsAccounts(d, no, code, p); }
    CarriedBy(d, e);
  }

  lemma FillCarries(d: Day, no: nat)
    requires Kept(d) && no in d.orders && FateOf(d, no).Working?
    ensures Carried(d, Fill(d, no))
  {
    var e := Fill(d, no);
    forall n: nat ensures OneEnd(e, n) { assert OneEnd(d, n); }
    forall c ensures Known(e, c) && BuysOk(e, c) { assert Known(d, c) && BuysOk(d, c); }
    forall k ensures TradeKnown(e, k) { assert TradeKnown(d, k); }
    if NoneLost(d) { FillKeepsAccounts(d, no); }
    CarriedBy(d, e);
  }

  /** The cached balance has no part in what is lost. */
  lemma CacheIrrelevant(d: Day, cache: Option<map<string, int>>)
    requires Kept(d)
    ensures Sane(d.(cache := cache)) && forall no :: Lost(d, no) ==> Lost(d.(cache := cache), no)
  {
    var e := d.(cache := cache);
    forall n: nat ensures OneEnd(e, n) { assert OneEnd(d, n); }
    forall c ensures Known(e, c) && BuysOk(e, c) { assert Known(d, c) && BuysOk(d, c); }
    forall k ensures TradeKnown(e, k) { assert TradeKnown(d, k); }
  }

  lemma ObserveCarries(d: Day)
    requires Kept(d)
    ensures Carried(d, Observe(d))
  {
    CacheIrrelevant(d, Some(d.holdings));
    if NoneLost(d) { ObserveKeepsAccounts(d); }
    CarriedBy(d, Observe(d));
  }

  lemma ForgetCarries(d: Day)
    requires Kept(d)
    ensures Carried(d, d.(cache := None))
  {
    CacheIrrelevant(d, None);
    if NoneLost(d) { ForgetKeepsAccounts(d); }
    CarriedBy(d, d.(cache := None));
  }

  lemma RecordSane(d: Day, code: string, quantity: int)
    requires Sane(d) && code in d.tracked
    ensures Sane(Record(d, code, quantity))
    ensures forall no :: Lost(d, no) ==> Lost(Record(d, code, quantity), no)
  {
    var e := Record(d, code, quantity);
    LedgerAppend(d.ledger, Last(e.ledger));
    assert Known(d, code) && OneEnd(d, d.tracked[code].orderNo);
    forall n: nat ensures OneEnd(e, n) { assert OneEnd(d, n); }
    forall c ensures Known(e, c) && BuysOk(e, c) { assert Known(d, c) && BuysOk(d, c); }
    forall k ensures TradeKnown(e, k) { assert TradeKnown(d, k); }
  }

  /** Recording what the balance shows, right or wrong, loses no order. */
  lemma RecordCarries(d: Day, code: string)
    requires Kept(d) && code in d.tracked && d.cache == Some(d.holdings) && Observed(d, code) > 0
    ensures Carried(d, Record(d, code, Observed(d, code)))
  {
    RecordSane(d, code, Observed(d, code));
    if NoneLost(d) {
      ObservedIsFill(d, code);
      RecordKeepsAccounts(d, code);
    }
    CarriedBy(d, Record(d, code, Observed(d, code)));
  }

  lemma AbandonSane(d: Day, code: string, outcome: CancelOutcome)
    requires Sane(d) && code in d.tracked
    ensures d.tracked[code].orderNo in d.orders
    ensures Sane(Abandon(d, code, outcome))
    ensures forall no :: Lost(d, no) ==> Lost(Abandon(d, code, outcome), no)
  {
    var own := d.tracked[code].orderNo;
    assert Known(d, code) && OneEnd(d, own);
    var e := Abandon(d, code, outcome);
    forall n: nat ensures OneEnd(e, n) { assert OneEnd(d, n); }
    forall c ensures Known(e, c) && BuysOk(e, c) { assert Known(d, c) && BuysOk(d, c); }
    forall k ensures TradeKnown(e, k) { assert TradeKnown(d, k); }
  }

  /** Giving up an order that the broker did not cancel loses it. */
  lemma AbandonLoses(d: Day, code: string, outcome: CancelOutcome)
    requires Sane(d) && code in d.tracked
    requires !(FateOf(d, d.tracked[code].orderNo).Working? && !outcome.fillsInGap && outcome.requestAccepted)
    ensures d.tracked[code].orderNo in d.orders
    ensures !NoneLost(Abandon(d, code, outcome))
  {
    var no := d.tracked[code].orderNo;
    assert Known(d, code) && OneEnd(d, no);
    assert Lost(Abandon(d, code, outcome), no);
  }

  /** A cancellation loses no order exactly when it holds, and none is ever found again. */
  lemma CancellingLoses(d: Day, code: string, reconcile: bool, outcome: CancelOutcome)
    requires Kept(d) && code in d.tracked
    ensures d.tracked[code].orderNo in d.orders
    ensures var e := Cancelling(d, code, reconcile, outcome);
      Kept(e) && (NoneLost(e) <==> NoneLost(d) && CancelHolds(d, code, reconcile, outcome))
  {
    assert Known(d, code);
    var e := Cancelling(d, code, reconcile, outcome);
    CancellingSane(d, code, reconcile, outcome);
    if NoneLost(d) {
      CancellingAccounts(d, code, reconcile, outcome);
      ObservedIsFill(d, code);
      if CancelHolds(d, code, reconcile, outcome) {
        AccountedLosesNone(e);
      } else {
        var polled := if reconcile && outcome.pollAnswered then Observe(d) else d;
        CacheIrrelevant(d, Some(d.holdings));
        AbandonLoses(polled, code, outcome);
      }
    }
  }

  lemma CancellingSane(d: Day, code: string, reconcile: bool, outcome: CancelOutcome)
    requires Kept(d) && code in d.tracked
    ensures d.tracked[code].orderNo in d.orders
    ensures Sane(Cancelling(d, code, reconcile, outcome))
    ensures forall no :: Lost(d, no) ==> Lost(Cancelling(d, code, reconcile, outcome), no)
  {
    assert Known(d, code);
    CacheIrrelevant(d, Some(d.holdings));
    var polled := if reconcile && outcome.pollAnswered then Observe(d) else d;
    if reconcile && outcome.pollAnswered && Observed(d, code) > 0 {
      RecordSane(polled, code, Observed(d, code));
    } else {
      AbandonSane(polled, code, outcome);
    }
  }

  /** With nothing tracked every accepted order was recorded once, cancelled or lost, and no two of these. */
  lemma EveryOrderEnds(d: Day, no: nat)
    requires Kept(d) && d.tracked == map[] && no in d.orders
    ensures TradesOf(d.ledger, no) <= 1
    ensures FateOf(d, no).Cancelled? ==> TradesOf(d.ledger, no) == 0
    ensures Lost(d, no) <==> !FateOf(d, no).Cancelled? && TradesOf(d.ledger, no) != 1
  {
    assert OneEnd(d, no);
  }
}
