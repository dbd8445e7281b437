# Verified model of the auto-trading system

This project models the parts of the trading system whose correctness depends on whole runs, and proves
what they keep. Each module covers one source file or one protocol:

- **UnionFind, DependencyGroups, DependencyOrder** — proposals that touch the same files are grouped with an
  in-place union-find. The groups are proved to be the classes of "linked by a chain of shared files", and the
  printed order is proved not to depend on the order of the input.
- **OrderLedger, LostOrders, TradingEngine** — one trading day of the engine: clean-up of stale orders, gates, placing,
  polling, recording, tracking, suppressing, reconciling, cancelling. The broker may fill any working order
  whenever the engine waits, polls may fail and cancellations may go wrong. The buy limit is kept in every case;
  orders, recorded trades and holdings are accounted for exactly as long as no cancellation loses its order.
- **RestartReplay** — after a crash the day's recorded trades rebuild the state of the uninterrupted run, for
  any risk step function. **ScreeningUniverse** — the bounded set of screened stocks.
- **TokenBucket, RateLimiter, ApiClient** — the bucket over real time, concurrent callers with spacing and a
  daily counter, the circuit breaker, and the retry loop that must not repeat an order.
- **BacktestBroker, BacktestEngine, BacktestReport, Analytics** — money conservation, absence of look-ahead,
  and one-pass loops against quadratic definitions.
- **Numerals, FlowText, FlowFilter, MarketStats** — printed flow texts, the patterns that read them back, and the
  score computed from them.
- **TickerMatcher** — leftmost-longest stock names in a text. **NewsChunks** — deduplicating batch insert against a
  concurrent writer.
- **Sorting, Options** — Python's string order and stable sort, and optional values, used by the others.

Objects that the program changes in place are classes here, with the same branches; their contracts equate the
new state with a function of the old one, and the laws are proved about those functions. Clock readings,
network replies, fills and a second writer's rows are parameters or free choices, so every statement holds for
all of them.

## Results that differ from the documentation

- `CircuitBreaker` is described as waiting longer after a failure in the half-open state
  (src/api/client.py:31). Half-opening resets the failure count (src/api/client.py:93), so that failure opens the
  breaker again, and lengthens the wait below its cap, if and only if the threshold is at most 1
  (`ApiClient.FailureAfterHalfOpen`); the default is higher. On the other hand every failure at or above the threshold
  counts as a trip, not only an opening (`ApiClient.TripsPerFailure`). For a base timeout above 300 seconds the first
  trip makes the wait shorter, for a negative one the second (`ApiClient.WaitNeverShrinks`).
- The comment on the selection loop of the matcher accepts a match that starts where the last one ended
  (src/rag/ticker_matcher.py:60); end positions are inclusive there and the code rejects it
  (src/rag/ticker_matcher.py:65), which is what makes the accepted matches disjoint.
- `BacktestEngine.run` promises an error below 21 rows only (src/backtest/engine.py:55), but with exactly 21 rows
  building the result reads a row that does not exist (src/backtest/engine.py:165). The model has both failures.
- The restored risk state is said to be rebuilt deterministically (src/engine.py:688-697). On a day without
  priced sells the code returns before the reset and before the trade count
  (src/engine.py:740-742); `RestartReplay.RestartRebuildsState` states exactly when both come out right.
- The reported backtest drawdown is measured from the running peak. A lower bound on the equity makes it the maximum
  over all pairs if and only if the bound is not below zero (`BacktestReport.MaximumNeedsNoDebt`).
- A row of the investor frame is read in place of an amount if and only if a pattern of the parser matches at the start
  of its name, a caption with a number behind it (`MarketStats.RoundTripNeedsPlainNames`); a caption alone does no harm.
- With reconciliation off, or when a poll, a fill or the broker's answer comes at the wrong moment, a cancellation loses
  its order: the engine forgets it (src/engine.py:2265-2266). `TradingEngine.RunDay` states that the day's accounts hold
  if and only if no cancellation did; the per-stock buy limit holds in any case.

## Model

| member | source | states |
|---|---|---|
| UnionFind.DisjointSets.Find | src/harness/dependency.py:12-16 | Ends on every forest that unions build and returns the root of x; halving paths in place changes no element's root. |
| UnionFind.DisjointSets.Union | src/harness/dependency.py:19-22 | Afterwards the classes are the old ones with those of a and b merged, and nothing else changed. |
| UnionFind.HalvingKeepsRoots | src/harness/dependency.py:13-15 | Redirecting a node to its grandparent keeps the ranking and every element's root. |
| UnionFind.LinkingMergesRoots | src/harness/dependency.py:20-22 | Linking one root under another merges exactly their two classes and keeps the forest acyclic. |
| DependencyGroups.ConnectedMeans | src/harness/dependency.py:33-45 | Linked through any chain means: both without files, or joined by a chain of pairwise file-sharing proposals; both directions. |
| DependencyGroups.ConnectedTransitive | src/harness/dependency.py:34-45 | Chains compose, so connection is an equivalence that groups can represent. |
| DependencyGroups.MergingIsSound | src/harness/dependency.py:34-45 | Merging the classes of two connected proposals never puts unconnected ones together. |
| DependencyGroups.ClassesAreConnection | src/harness/dependency.py:34-45 | Classes that merge only connected proposals and all linked ones are exactly the connection classes. |
| DependencyGroups.FiledIsComplete | src/harness/dependency.py:39-45 | Uniting each proposal with the first one seen for each of its files suffices to unite every pair that shares a file. |
| DependencyGroups.JoinEmpties | src/harness/dependency.py:33-36 | After the loop all proposals without files share a class, and only connected ones were merged. |
| DependencyGroups.JoinSharers | src/harness/dependency.py:38-45 | After the loop two proposals share a class if and only if they are connected. |
| DependencyGroups.CollectGroups | src/harness/dependency.py:47-50 | The collected lists are the classes, each index in exactly one list, in order of appearance. |
| DependencyGroups.SortingIsCanonical | src/harness/dependency.py:52-54 | Sorting members by path and groups by their first member yields a partition with both orders and the connection property intact. |
| DependencyGroups.ComputeIndependentGroups | src/harness/dependency.py:25-55 | The result partitions the input, two proposals are in one group exactly when connected, members and groups are in path order. |
| Sorting.TextLessMeans | src/harness/dependency.py:52-54 | One path sorts before another exactly when it is a proper prefix or has the smaller character at the first difference. |
| DependencyOrder.ConnectedTransfers | src/harness/dependency.py:38-45 | Connection depends on which files are listed, not on the order of proposals or of files. |
| DependencyOrder.GroupPathsSorted | src/harness/dependency.py:52-54 | With distinct paths the path lists of the groups are strictly sorted, so their set determines the output. |
| DependencyOrder.OutputIgnoresOrder | src/harness/dependency.py:25-55 | With distinct paths, inputs with the same proposals up to order and to order and repetition in file lists give the same paths in the same groups. |
| DependencyOrder.PermutedInputSameOutput | src/harness/dependency.py:25-55 | With distinct paths, any permutation of the proposals gives the identical output. |
| OrderLedger.AcceptKeepsAccounts | src/engine.py:1864-1870 | Accepting an order for a stock without one keeps every order in one state and every holding explained. |
| OrderLedger.FillKeepsAccounts | src/engine.py:2187-2198 | A fill at any moment keeps the accounts: the holding moves by the late fill of the tracked order. |
| OrderLedger.ObservedIsFill | src/engine.py:2187-2198 | A balance difference seen for a tracked order is positive exactly when it filled, and is then its whole quantity. |
| OrderLedger.RecordKeepsAccounts | src/engine.py:1893-1903 | Recording an observed fill keeps the accounts and counts one buy for a buy. |
| OrderLedger.DropLosesAccounts | src/engine.py:2237-2270 | Forgetting an order that the broker did not cancel always breaks the accounts. |
| OrderLedger.AbandonAccounts | src/engine.py:2252-2270 | Cancelling and forgetting keeps the accounts exactly when the order was working, did not fill in between and the request went through. |
| OrderLedger.CancellingAccounts | src/engine.py:2237-2349 | A cancellation keeps the accounts exactly when it does not lose its order: a fill before it is seen by the reconciling poll, or the order still works and the broker acts on the request. |
| OrderLedger.CancellingCommitsNoMore | src/engine.py:2237-2349 | However a cancellation turns out, reconciled or not, the stock is committed to no more buys and no other stock is touched. |
| OrderLedger.LimitKept | src/engine.py:1402-1418 | A step that touches one stock and commits it to no more buys, or at most to the limit, keeps the per-stock limit everywhere. |
| OrderLedger.ReplacingAtTheLimit | src/engine.py:2202-2235 | Replacing a stale buy at the limit keeps the limit exactly when the stale order had not filled; this is why clean-up precedes the stock loop. |
| OrderLedger.SnapshotIsExact | src/engine.py:2077-2088 | For a stock without a tracked order any cached or fresh holding is the position that the recorded trades explain. |
| OrderLedger.SettledDay | src/engine.py:1041-1046 | With nothing tracked, holdings are opening plus net recorded quantity, and each order is recorded once or cancelled. |
| LostOrders.AccountedMeansNoneLost | src/engine.py:2237-2349 | On every day, whatever went wrong, the accounts hold if and only if no order was given up unrecorded and uncancelled. |
| LostOrders.CancellingLoses | src/engine.py:2237-2349 | A cancellation loses no order exactly when it holds, for any poll, fill and answer of the broker, and a lost order is never found again. |
| LostOrders.RecordCarries | src/engine.py:2283-2314 | Recording what the balance shows, right or wrong, loses no order and counts one buy for a buy. |
| LostOrders.EveryOrderEnds | src/engine.py:1041-1046 | With nothing tracked every accepted order was recorded once, cancelled or lost, and no two of these. |
| TradingEngine.TradingEngine.constructor | src/engine.py:774-829 | A new day starts at cycle 0 with nothing pending, counted, cached, recorded or lost. |
| TradingEngine.TradingEngine.MarketMoves | src/engine.py:2187-2198 | While the engine waits any working orders may fill, and no order is lost by it. |
| TradingEngine.TradingEngine.GetBalance | src/engine.py:611-636 | The cached balance is returned exactly when it may be used and is fresh; otherwise the broker's holdings, which are cached, or a failure. |
| TradingEngine.TradingEngine.ConfirmFill | src/engine.py:2162-2198 | A positive answer is the change of the holding that the last poll showed; a change that the first or the last poll could see is never missed. |
| TradingEngine.TradingEngine.ConfirmedIsFill | src/engine.py:2187-2198 | While no order is lost, that change is positive exactly when the order filled, and is then its whole quantity. |
| TradingEngine.TradingEngine.RecordFill | src/engine.py:1893-1903 | A confirmed change adds one trade and one counted buy and ends tracking. |
| TradingEngine.TradingEngine.ReconcileOrphanFill | src/engine.py:2272-2349 | A change of the holding found by the poll is recorded, everything else is left as it was. |
| TradingEngine.TradingEngine.CancelPendingOrder | src/engine.py:2237-2270 | Performs the cancellation for any outcome, always ends tracking, and notes whether the order was lost. |
| TradingEngine.TradingEngine.SuppressOrReplacePending | src/engine.py:2202-2235 | Holds back a new order exactly behind a pending one placed fewer than the timeout's cycles ago; an older one is cancelled first. |
| TradingEngine.TradingEngine.PlaceAndConfirm | src/engine.py:1864-1903 | When the broker accepts, exactly one order is added, for the stock, side and quantity asked. It ends recorded with the change of the holding, on a clean day its whole quantity, or pending with the cycle of its placement, the latter if the last poll saw no change; no other stock is touched and its own is committed to one more buy. |
| TradingEngine.TradingEngine.SettleOrder | src/engine.py:1873-1903 | After the polls the order becomes a recorded trade or a pending one; either way the stock stays committed to the same number of buys. |
| TradingEngine.TradingEngine.SnapshotBefore | src/engine.py:1823-1828 | The holding before an order is the cached one, else the broker's, else the caller's figure; on a clean day all three agree. |
| TradingEngine.TradingEngine.Execute | src/engine.py:1823-1903 | From the holding snapshot to the outcome: one order for the quantity asked, pending on that snapshot or recorded as one trade; none if the placement raises, which drops the cached balance unless a buy was refused as untradable. The day stays at rest: limit kept, accounted for unless an order was lost. |
| TradingEngine.TradingEngine.ExecuteBuy | src/engine.py:1750-1903 | A buy that no check blocks, with nothing pending, a database and an accepting broker, sends exactly one order for the quantity asked; otherwise none; the day stays at rest. |
| TradingEngine.TradingEngine.ExecuteSell | src/engine.py:1948-2026 | With nothing pending, a database and an accepting broker exactly one sell order for the quantity asked, on a clean day the whole position; otherwise none; the day stays at rest. |
| TradingEngine.TradingEngine.CleanupStalePendingOrders | src/engine.py:2351-2359 | Exactly the stale orders are gone afterwards, with reconciliation on or off and however the cancellations went; the limit holds and no other stock's record changed. |
| TradingEngine.TradingEngine.CancelAllPendingOrders | src/engine.py:2361-2364 | Nothing is pending afterwards, with reconciliation on or off and however the cancellations went, and the day is at rest. |
| TradingEngine.TradingEngine.OpenCycle | src/engine.py:880-925 | Before the first stock no stale order is left, and the balance is the fresh cached one or the broker's. |
| TradingEngine.TradingEngine.ProcessStock | src/engine.py:1264-1543 | One stock's turn sends exactly one order if the gates, the database and the broker let it and nothing is pending: a sell of the whole holding if it is held, else a buy of the quantity left by the gates, and only below the limit; otherwise none. It keeps the day at rest and touches no other stock. |
| TradingEngine.TradingEngine.ProcessTargets | src/engine.py:967-979 | Each stock that the loop reaches gets exactly the order of its turn, on the figures with which the loop began, and no other stock gets one; left at any point the day is at rest. |
| TradingEngine.TradingEngine.RunTradingCycle | src/engine.py:831-1039 | Every cycle, ended anywhere, with any polls, fills and cancellations, keeps the per-stock limit and every order in one state, and the accounts unless an order was lost. A stopped cycle does nothing; another one drops exactly the stale orders and sends exactly the orders of its stocks' turns, on a balance that on a clean day agrees with the records. |
| TradingEngine.RunDay | src/engine.py:774-1046 | After any day: no stock was bought beyond the limit and no order is recorded twice or recorded and cancelled, whatever the switch, polls, fills and cancellations. The day is accounted for if and only if no cancellation lost its order, always so with reconciliation on and clean cancellations; then holdings equal opening plus net recorded quantity and every order not cancelled is recorded. |
| RestartReplay.ReplayedAsRecorded | src/engine.py:332-340 | A profit normalised when recorded is replayed unchanged: the second truncation of the replay loses nothing. |
| RestartReplay.NormPriceSize | src/engine.py:332-340 | A normalised KRX amount is whole, on the same side of zero and short of the exact one by less than 1; a US amount is in cents, off by at most half a cent. |
| RestartReplay.ResultIsTheGain | src/engine.py:2462-2475 | Exactly a sale whose average price is above zero has a result: the gain, cut to a whole amount on KRX and rounded to cents on the US market. |
| RestartReplay.WholePricesBalance | src/engine.py:2464-2475 | On whole KRX prices the recorded result of a sale is exactly the gain per share times the shares. |
| RestartReplay.SortRecoversOrder | src/engine.py:714 | Sorting by trade time undoes any arrangement of the stored rows when times increase strictly. |
| RestartReplay.QueryKeepsAll | src/db/repository.py:744-748 | The query returns each row of this market as often as the table holds it, and no other row. |
| RestartReplay.QueryInOrder | src/db/repository.py:724-748 | The query returns this market's rows in the order in which they happened, whatever the other market traded between them. |
| RestartReplay.PassesAgreeWithLive | src/engine.py:721-749 | The separate passes over buys, loss sells and results together equal the one live run. |
| RestartReplay.RestartRebuildsState | src/engine.py:688-770 | Replay after a crash gives the buy counts and loss marks of the run that lived through the day's trades, those of the other market passing by; the risk state and the trade count exactly when the stated conditions hold. |
| RestartReplay.LastSellIsLatest | src/engine.py:728-732 | Whatever the order of the rows, exactly the stocks sold are stamped, each with the time of its latest sale. |
| RestartReplay.RestoredCounters | src/engine.py:717-739 | In terms of the table alone: a stock's restored buy count is the number of this market's buys of it, it is marked exactly if this market sold it at a loss, and stamped with this market's latest sale of it. |
| RestartReplay.RiskBook.PreMarket | src/engine.py:774-829 | The day opens with empty counters and sale times, the reset risk state and the stored peak prices, and nothing to restore. |
| RestartReplay.RiskBook.RecordTrade | src/engine.py:2431-2505 | Recording a trade is one live step, and the stored row is well recorded. |
| RestartReplay.RiskBook.RestoreIfNeeded | src/engine.py:688-770 | Restores once, from this market's rows of the table, whatever their order: buys counted by position, loss marks, sale times, and with priced sells the risk state, the trade count and the peak prices; after pre_market it changes nothing. |
| RestartReplay.RiskBook.RestoreCounters | src/engine.py:721-739 | The loop over the day's trades rebuilds buy counts, same-day loss marks and latest sale times from scratch. |
| ScreeningUniverse.Universe.ScreenStocks | src/engine.py:1144-1221 | With fresh codes the universe becomes a subset of them of size min(cap, number), keeps members that are still fresh and admits the rest in rank order; with none it is unchanged. |
| ScreeningUniverse.Universe.Latest | src/engine.py:1173-1181 | Each code is mapped to its latest screening time, and every code is mapped. |
| ScreeningUniverse.Universe.Fresh | src/engine.py:1183-1201 | The candidates are, in rank order and once each, the codes whose first row converted, that are not watched and were screened recently. |
| ScreeningUniverse.Universe.Rotate | src/engine.py:1203-1221 | Removing stale members and admitting up to the cap performs the rotation. |
| ScreeningUniverse.RotationIsDetermined | src/engine.py:1203-1221 | The rotation rules leave one possible universe, so the contract fixes the result. |
| TokenBucket.TokenBucket.Refill | src/api/rate_limiter.py:37-42 | Adds what accrued since the last reading, up to the capacity, and keeps the tokens within bounds. |
| TokenBucket.TokenBucket.Acquire | src/api/rate_limiter.py:44-52 | Grants at once or after one full-length sleep when the capacity is at least 1, never below that; a grant takes exactly one token from the level that the readings leave; without a grant less than one token is there. |
| TokenBucket.Burst | src/api/rate_limiter.py:44-52 | At one reading of the clock as many calls are granted at once as whole tokens are there, and that many tokens are gone. |
| TokenBucket.WindowIsSuffix | src/api/rate_limiter.py:44-52 | The grants in an interval that holds the last one are those from some index on. |
| TokenBucket.GrantsBounded | src/api/rate_limiter.py:37-52 | In any interval at most capacity + rate x length grants fall. |
| TokenBucket.OneSleepAccrues | src/api/rate_limiter.py:49-52 | A sleep of (1 - tokens) / rate seconds brings the bucket to one token. |
| TokenBucket.Run | src/api/rate_limiter.py:21-52 | Every run of acquire calls, with any clock that does not go back, obeys that bound for every interval; as many tokens are granted as calls are served, and with room for a token every call that sleeps 1 / rate is served. |
| RateLimiter.StepKeepsInv | src/api/rate_limiter.py:88-128 | Every step of every caller keeps the invariant: spacing, lock holder, and counter plus callers past the check. |
| RateLimiter.StampKeepsInv | src/api/rate_limiter.py:112-125 | A call is stamped at least one interval after the previous one and counted as its caller leaves. |
| RateLimiter.SleepIsShortest | src/api/rate_limiter.py:112-119 | A caller that takes the lock sleeps until one interval after the last call, or not at all. |
| RateLimiter.RunKeepsInv | src/api/rate_limiter.py:88-128 | The invariant holds in every reachable state. |
| RateLimiter.CallsAreSpacedAndCounted | src/api/rate_limiter.py:96-128 | Under any interleaving of N callers, across dates too: calls at least 1/per_second apart, daily count at most limit + N - 1, the limit itself for one caller. |
| RateLimiter.OvershootIsReached | src/api/rate_limiter.py:105-125 | The bound is tight: some run counts limit + N - 1 calls. |
| RateLimiter.NewDateStartsAfresh | src/api/rate_limiter.py:88-110 | On a new date, with nobody inside, exactly the limit of further calls can be made in turn, and the next one is refused. |
| ApiClient.DoubledIsPower | src/api/client.py:71-74 | The wait before the cap is base x 2^n. |
| ApiClient.WaitIsPower | src/api/client.py:68-74 | The wait is the base timeout without trips, otherwise base x 2^(trips - 1), at most 300 seconds. |
| ApiClient.WaitNeverShrinks | src/api/client.py:63-80 | In every run from a new breaker the wait never shrinks before a success, if and only if the base timeout lies between 0 and 300 seconds. |
| ApiClient.TripsPerFailure | src/api/client.py:63-80 | From a failure count of 0, with any trips before, n failures in a row add n - threshold + 1 trips once the threshold is reached, however often the breaker opens. |
| ApiClient.AnswersAgain | src/api/client.py:63-96 | After n failures in a row, the last at t, a breaker that started over answers again exactly from t + min(base x 2^(n - threshold), 300) on, and at once below the threshold. |
| ApiClient.FailThenAsk | src/api/client.py:37-104 | A new breaker, driven through those failures and then asked, answers by that clock. |
| ApiClient.OpenHasTripped | src/api/client.py:63-96 | In every run an open breaker has tripped since the last success. |
| ApiClient.FailureAfterHalfOpen | src/api/client.py:63-96 | The failure after a half-opening opens the breaker again and adds a trip if and only if the threshold is at most 1, and only then, below the cap, is the wait longer. |
| ApiClient.CircuitBreaker.RecordFailure | src/api/client.py:63-80 | One failure event; the stored timeout is base x 2^(trips - 1), at most 300 seconds, and the base without trips. |
| ApiClient.CircuitBreaker.TryHalfOpen | src/api/client.py:82-96 | Half-opens exactly when open and due. |
| ApiClient.CircuitBreaker.IsAvailable | src/api/client.py:98-104 | Available exactly when closed after the lazy half-opening. |
| ApiClient.CircuitBreaker.IsOpen | src/api/client.py:106-117 | Open exactly when open after the lazy half-opening. |
| ApiClient.QuestionsAgree | src/api/client.py:98-117 | Asked at the same time in either order, is_open and is_available are opposites. |
| ApiClient.OrderSentOnce | src/api/client.py:250-341 | A request that is not idempotent acts at most once: every attempt but the last was answered 429, and it acted exactly when the last one was anything else on the wire. |
| ApiClient.Attempt | src/api/client.py:250-335 | One attempt ends or continues as its reply demands and tells the breaker of exactly that reply. |
| ApiClient.RetryLoop | src/api/client.py:250-341 | At most three attempts, all but the last retried, the breaker heard of each in order; at most one may have acted unless the request is idempotent. |
| ApiClient.Request | src/api/client.py:203-341 | An open breaker sends nothing; otherwise the loop's attempts and their outcome, of which at most one may have acted unless the request is idempotent. |
| BacktestBroker.WorthSplits | src/backtest/broker.py:268-281 | The portfolio's value does not depend on the order of summation. |
| BacktestBroker.QuantityIsLargest | src/backtest/broker.py:115-134 | The quantity fits the investable cash and, with commission, the cash; no larger one does unless it is two or more shares below the investable amount; with room for the commission it is exactly that amount. |
| BacktestBroker.SlippageCosts | src/backtest/broker.py:115-176 | Slippage makes a buy dearer and a sale cheaper by its rate of the price. |
| BacktestBroker.PurchaseTerms | src/backtest/broker.py:96-157 | The cash pays for the shares and the commission on them, and they are held at the price paid; a stock that is held, or of which no share fits, is not bought. |
| BacktestBroker.SaleTerms | src/backtest/broker.py:163-216 | The result of a sale is the cash received after commission less what the position cost; its rate is the gain per share in percent of the price paid. |
| BacktestBroker.BuyKeepsSound | src/backtest/broker.py:96-157 | A buy keeps cash + cost of open positions = initial capital + realised profit - buy commissions, the alternation of trades, and cash at or above zero. |
| BacktestBroker.SellKeepsSound | src/backtest/broker.py:163-216 | A sale keeps the same equation and leaves the stock flat. |
| BacktestBroker.SellKeepsCash | src/backtest/broker.py:163-216 | With rates between 0 and 1 and a price that is not negative a sale never lowers the cash. |
| BacktestBroker.VirtualBroker.Buy | src/backtest/broker.py:96-157 | Performs the purchase on the account and returns its record, or nothing. |
| BacktestBroker.VirtualBroker.Sell | src/backtest/broker.py:163-216 | Performs the sale of the whole position and returns its record, or nothing. |
| BacktestBroker.VirtualBroker.PortfolioValue | src/backtest/broker.py:268-281 | Cash plus the worth of all positions, at given prices or else at cost. |
| BacktestEngine.NoLookAhead | src/backtest/engine.py:72-89 | What is simulated of the first n rows depends on no later row, for any strategy on the closes so far. |
| BacktestEngine.DaySeen | src/backtest/engine.py:72-85 | Simulated day k is row 21 + k: its close without the fraction, and the signal on exactly the closes up to and including it. |
| BacktestEngine.EquityIsMarketValue | src/backtest/engine.py:79-89 | The equity point of a day is the cash and the shares held at the day's close. |
| BacktestEngine.HeldDecides | src/backtest/engine.py:120-135 | A held stock is sold whole in one trade at or below average x (1 - maxLossRate), at or above average x (1 + takeProfitRatio), and strictly between the two exactly on a sell signal of at least 0.1 confidence. |
| BacktestEngine.FreeDecides | src/backtest/engine.py:137-139 | Another stock is bought exactly on a buy signal of at least 0.1 confidence, if a share fits. |
| BacktestEngine.SimulationGrows | src/backtest/engine.py:72-89 | Later rows only add trades and one equity point each. |
| BacktestEngine.PrefixRunAgrees | src/backtest/engine.py:72-89 | A run on a prefix has, before liquidation, exactly the full run's trades and equity points for those days. |
| BacktestEngine.NeverInDebt | src/backtest/engine.py:94-139 | With sane rates and prices cash and equity are never negative. |
| BacktestEngine.LiquidationSettles | src/backtest/engine.py:157-163 | Forced liquidation leaves no position, and cash is initial capital plus what the trades realised. |
| BacktestEngine.RunIsAccountedFor | src/backtest/engine.py:43-188 | Final capital = initial capital + sell profit - buy commissions, buys and sales alternate, the run ends flat, the last equity point is the final capital. |
| BacktestEngine.RunIsNeverInDebt | src/backtest/engine.py:43-188 | With sane rates and prices final capital and every equity point are not negative. |
| BacktestEngine.BacktestEngine.ProcessDay | src/backtest/engine.py:94-139 | The day takes the decision that HeldDecides and FreeDecides state in prices and rates, and leaves the account sound. |
| BacktestEngine.BacktestEngine.Run | src/backtest/engine.py:43-92 | The loop produces the specified result: failure below 21 rows, failure at exactly 21, else the completed run. |
| BacktestReport.CalculateMaxDrawdown | src/backtest/report.py:183-206 | The loop returns the largest relative fall from the running peak; on equity that is not negative, the maximum over all ordered pairs with a positive first point. |
| BacktestReport.FallIsPercent | src/backtest/report.py:183-206 | A fall is the loss in percent of the point it starts from. |
| BacktestReport.PeakDrawdownIsMaximal | src/backtest/report.py:183-206 | Falls from the running peak dominate the falls between all pairs. |
| BacktestReport.MaximumNeedsNoDebt | src/backtest/report.py:183-206 | A lower bound on the equity guarantees that the reported figure is the maximum over all pairs if and only if the bound is not below zero. |
| BacktestReport.SellsAreSales | src/backtest/report.py:61-64 | The classification takes every sale of the log, as often as it is there, and nothing else. |
| BacktestReport.SplitBySign | src/backtest/report.py:65-66 | Winners are exactly the sales with a result above zero, losers exactly the others. |
| BacktestReport.SalesSplit | src/backtest/report.py:61-70 | Winning and losing sales partition the sales, in number and amount. |
| BacktestReport.RealizedFromSales | src/backtest/report.py:61-95 | The accounting total equals the sales' profits less the buy commissions. |
| BacktestReport.MetricsMatchCapital | src/backtest/report.py:61-95 | Profits and losses of a completed run less buy commissions are exactly the change of capital, and every trade is half of a round trip. |
| BacktestReport.RunDrawdown | src/backtest/report.py:183-206 | The reported drawdown of a whole run with sane rates and prices is the true maximum. |
| Analytics.GetMaxDrawdown | src/db/analytics.py:953-1003 | The largest fall of cumulative profit over all i <= j, with its peak and trough days, the first to be that deep. |
| Analytics.DeepestNext | src/db/analytics.py:972-995 | With one more day only the fall from the running peak can be the new maximum. |
| Analytics.GetConsecutiveLosses | src/db/analytics.py:1111-1161 | Win and loss streaks are the longest contiguous runs, and the current ones those that end the series. |
| Numerals.FormatReadsBack | src/strategy/flow_filter.py:29-34 | A printed integer of either sign, grouped by commas, with or without a plus, is a numeral and reads back as itself. |
| Numerals.GroupedShape | src/market_stats.py:130-150 | Every fourth character from the end of a printed number, and no other, is a comma, and no number but 0 begins with 0. |
| Numerals.SignShape | src/market_stats.py:151-152 | A minus is printed exactly for negative amounts, an explicit plus exactly for the others. |
| FlowText.ScanSplits | src/strategy/flow_filter.py:14-34 | Whatever the scan captures is a match of the pattern. |
| FlowText.ScanIsGreedy | src/strategy/flow_filter.py:14-34 | The scan misses no match and captures the longest group. |
| FlowText.NameReadsAlone | src/strategy/flow_filter.py:37-52 | Behind a name that begins with a caption, the rest of the line has no part in what is captured. |
| FlowText.NothingFound | src/strategy/flow_filter.py:37-52 | A pattern that matches at the start of no line finds nothing. |
| FlowText.FoundAt | src/strategy/flow_filter.py:37-52 | The first line at whose start the pattern matches is the one read. |
| FlowFilter.ScoreIsTheRatio | src/strategy/flow_filter.py:78-93 | The clamp never acts; the score is 1 or -1 exactly when all activity is institutional and foreign on one side. |
| FlowFilter.ScoreTimesActivity | src/strategy/flow_filter.py:84-93 | The score times the three amounts without their signs is the net buying of institutions and foreigners. |
| FlowFilter.ScoreIgnoresUnits | src/strategy/flow_filter.py:62-93 | Any positive scaling of the amounts leaves the score unchanged. |
| FlowFilter.ScoreIsOdd | src/strategy/flow_filter.py:78-93 | Changing every side flips the sign of the score. |
| FlowFilter.StructuredScore | src/strategy/flow_filter.py:55-75 | Structured amounts in any unit, with any short volume, score as features read from text. |
| MarketStats.BuildInvestorChunkText | src/market_stats.py:137-153 | The loop prints the header and one line per row with an integer amount. |
| MarketStats.AppendLines | src/market_stats.py:144-152 | The rows with an amount become lines in order, the others are skipped. |
| MarketStats.CaptionOfLine | src/strategy/flow_filter.py:40-41 | A caption that does not begin the name begins its line only if the name is the caption's own. |
| MarketStats.LineReadAsName | src/strategy/flow_filter.py:40-52 | Unless it is the caption's own, an investor line is read exactly as its name alone would be. |
| MarketStats.InvestorRoundTrip | src/market_stats.py:137-153 | Parsing the printed text recovers the institution, foreign, pension and individual amounts of either sign, nothing for missing names, and no short figure, whenever no pattern matches at the start of a name. |
| MarketStats.RoundTripNeedsPlainNames | src/market_stats.py:137-153 | For names on one line the round trip holds for all amounts, missing ones included, if and only if no pattern matches at the start of any name. |
| MarketStats.NoColumnNoFeatures | src/market_stats.py:142-153 | A frame without the net-buying column parses to no features. |
| MarketStats.TextScoresAsStructured | src/strategy/flow_filter.py:55-93 | The printed and parsed amounts score as the structured ones do, in any unit. |
| MarketStats.NameTakenForAmount | src/strategy/flow_filter.py:37-52 | For every name at whose start a pattern matches, what is found is what the name says, whatever amount is printed behind it. |
| MarketStats.ShortColumns | src/market_stats.py:125-128 | Each printed figure is that of its first column, of the second when the first is missing or 0, else 0. |
| MarketStats.ShortRoundTrip | src/market_stats.py:118-134 | Parsing the short text recovers the balance and the day's short volume of the row's named columns and nothing else; its score is 0. |
| TickerMatcher.LastStockWins | src/rag/ticker_matcher.py:36-40 | The words are exactly the names long enough, each with the code of its last stock. |
| TickerMatcher.TickerMatcher.constructor | src/rag/ticker_matcher.py:24-43 | The loop over the stocks builds those words. |
| TickerMatcher.SortingRanks | src/rag/ticker_matcher.py:50-58 | The sorted matches are all occurrences, by start and then the longer first. |
| TickerMatcher.SelectionIsLeftmostLongest | src/rag/ticker_matcher.py:60-67 | Accepted matches are disjoint, each the longest at its start, and every occurrence left out overlaps an accepted one that starts no later. |
| TickerMatcher.SelectionIsUnique | src/rag/ticker_matcher.py:60-67 | Only one selection has these properties. |
| TickerMatcher.CodesInOrderOfDiscovery | src/rag/ticker_matcher.py:60-71 | The codes are those of the first matches, at increasing positions, and none is missing. |
| TickerMatcher.CodesAreDistinct | src/rag/ticker_matcher.py:68-70 | No code is returned twice. |
| TickerMatcher.ReportingOrderIsIrrelevant | src/rag/ticker_matcher.py:50-58 | The order in which the automaton reports occurrences has no effect. |
| TickerMatcher.TickerMatcher.Match | src/rag/ticker_matcher.py:45-71 | Returns the codes, in order of discovery, of a leftmost-longest selection of the occurrences; there is only one. |
| TickerMatcher.TickerMatcher.Select | src/rag/ticker_matcher.py:60-71 | The loop with last_end, seen and accepted_codes computes that selection. |
| NewsChunks.FilledFills | src/db/repository.py:1469-1506 | Entering the batch one by one adds the first entry for each key that the table lacks and changes nothing else. |
| NewsChunks.FilledIsDetermined | src/db/repository.py:1469-1506 | That description leaves one possible table. |
| NewsChunks.RowsUnderTheirKeys | src/db/repository.py:1477-1506 | After an insertion each ticker and hash of the batch has its one row, and every row lies under its own. |
| NewsChunks.BatchesCompose | src/db/repository.py:1469-1506 | Cutting a batch in two makes no difference. |
| NewsChunks.NewRowsSuffice | src/db/repository.py:1477-1486 | Dropping duplicates within the batch and keys found by the query loses nothing. |
| NewsChunks.SecondInsertReturnsZero | src/db/repository.py:1469-1486 | Repeating a batch adds no row, whatever was written in between. |
| NewsChunks.WritersAddTheSameKeys | src/db/repository.py:1488-1506 | Two writers in either order leave the same keys and add the same number of rows. |
| NewsChunks.LateRows | src/db/repository.py:1494-1506 | Rows that arrive during the retry might as well have come first. |
| NewsChunks.NewsChunkRepository.UniqueChunks | src/db/repository.py:1477-1480 | The dictionary holds the first entry of each key, in batch order. |
| NewsChunks.NewsChunkRepository.AddOneByOne | src/db/repository.py:1494-1506 | The row-by-row retry ends as the batch filled into the table with the other writer's rows, and counts its own. |
| NewsChunks.NewsChunkRepository.InsertChunks | src/db/repository.py:1469-1506 | On either path the table is the other writer's plus the first batch entry for each key it lacks; the result is the number of rows added, 0 for an empty batch. |

## Left out

- Fills are all-or-nothing: the engine records the first observed change and stops tracking (src/engine.py:2187-2198), so no holdings equation holds for partial fills. The buy limit does not rest on it.
- TradingEngine.TradingEngine.CancelPendingOrder: one fill at most slips in between the poll and the request; more than one state change of the order there is not possible at an all-or-nothing broker.
- TradingEngine.TradingEngine.Execute: assumes that an order whose placement raised was never accepted; the source only drops its cached balance in that case (src/engine.py:1847-1860).
- TradingEngine.TradingEngine.ProcessStock: which signal, price, cooldown, disclosure or market rule rejects an order, and how many shares the gates leave of a buy, is an input of the turn (`Turn`).
- TradingEngine.RunDay: no restart within the day and no trading outside the engine; restart is covered by RestartReplay for the counters and the risk state, pending orders are lost in the source.
- RestartReplay.RiskBook.RestoreIfNeeded: does not claim that the restored sale times equal the live ones: orphan sells are stamped on restore only (src/engine.py:729-732).
- RestartReplay.RestartRebuildsState: takes the queue as drained and trade times as strictly increasing; a failing query leaves the initial state in the source and is not modelled.
- The risk manager is an arbitrary state with a reset value and a step function; strategies are arbitrary pure functions of the closes so far.
- TokenBucket.TokenBucket.Acquire: the bucket's waiters wake in one order given by the clock readings; fairness of the event loop is not modelled.
- RateLimiter.CallsAreSpacedAndCounted: the limiter is a state machine over values, since its coroutines interleave; the bucket's wait in between is any passage of time.
- Redis-backed and hybrid limiters: after one sleep they do not check the quota again, so no bound holds.
- ApiClient.Request: headers, tokens, bodies and the length of the back-off sleeps are not modelled, only whether and why an attempt is repeated.
- BacktestBroker.VirtualBroker.Buy: amounts are real numbers; floating-point rounding is not modelled, and a price at which the adjusted price is 0 is excluded because the source divides by it.
- BacktestReport.CalculateMaxDrawdown: Sharpe and Sortino ratios, the report texts and the data frame are not part of this model.
- Analytics.GetMaxDrawdown: works on the fetched series; the percentage is not rounded for display.
- FlowText.ScanIsGreedy: digits are the ASCII ones; the other Unicode digits that the patterns accept are not modelled, nor Python's limit on the length of an integer text.
- MarketStats.InvestorRoundTrip: ticker, date and names are single lines, as the fixed investor names and six-digit tickers are; an infinite amount, on which the source raises OverflowError, is not modelled.
- MarketStats.ShortRoundTrip: the row's values are integers; truncation of fractional values is not modelled.
- TickerMatcher.TickerMatcher.Match: the automaton is taken to report every occurrence of every word once; building it is not part of this model, and empty names are not words.
- NewsChunks.NewsChunkRepository.InsertChunks: integrity errors come only from the unique key; transactions, embeddings and the other columns are not modelled.
- Telegram, dashboard, scheduler, configuration, migrations, metrics and logging: no effect on the properties above.
- Proposal status guards, trigger locks, quota splits and the trading-interval formula: each is settled by reading one branch.
