# Stratify Studio strategy engine, modelled in Dafny

Stratify Studio lets a user draw a trading algorithm as a graph:
- a start node;
- stock-selection nodes that name a ticker;
- condition nodes that compare a market value with a threshold and continue on their `outTrue` or `outFalse` handle;
- order-execution nodes that buy or sell.

This project models the parts of the application that give such a graph its meaning:

- **The backtest engine** (`BacktestService.runBacktest`). It generates a random-walk price series per ticker. Then, for every trading day in ascending order, for every ticker and for every stock-selection node of that ticker, it walks the graph from that node and executes the orders it reaches. It marks the portfolio to market at each day's close. At the end it derives a performance summary from the trade log and the equity curve.
  - modules `BacktestData`, `BacktestLedger`, `BacktestGraph`, `BacktestValuation`, `BacktestMetrics`, `Backtest`
- **The condition evaluator** that decides a condition node against a market snapshot.
  - module `ConditionEvaluation`
- **The graph validator** `validateAlgorithm`. It reports errors: a missing start node, or a cycle reachable from the start node. It reports warnings: orphaned nodes, and nodes that are not fully configured.
  - module `AlgorithmValidation`
- **The formula builder hook**: three list edits on a formula's operations, and the evaluation of its first operation.
  - module `FormulaBuilder`
- **The trading assistant's conversation history** (at most 20 messages) and its id-based diff of two node or edge lists.
  - module `TradingAssistant`
- **The example graph** every new canvas starts with: start → AAPL → `price > 150` → buy 10.
  - module `InitialFlow`
- **The node and edge records** shared by all of the above.
  - modules `Nodes`, `Wrappers`

Pure computations are functions. Loops in the source are methods with loop invariants:
- the generator;
- the day, ticker and stock-node loops;
- the frontier walk;
- the equity sum and the drawdown scan;
- the validator's passes and its recursive cycle search.

Each such method is proved against a specification function: `RunDays`, `RunTickers`, `RunStockNodes`, `Traverse`, `HoldingsValue`, `OrphanWarnings`, `ConfigWarnings` and others. The properties the application relies on are then proved about those functions:
- accounting and no short positions;
- chronological trades;
- one equity point per weekday;
- bounded metrics;
- cycle detection being exact;
- the warnings being exactly the orphaned and unconfigured nodes;
- the history keeping the 20 most recent messages;
- the diff lists being disjoint.

Objects whose fields the source updates become classes: `BacktestService` with its `historicalData`, and `TradingAssistantService` with its `conversationHistory`.

Representation choices:

- **Prices, cash and money amounts** are `real`. A JavaScript NaN or ±Infinity result is `None` of an `Option<real>`.
- **Dates** are integer day numbers, with day 0 = 1970-01-01, a Thursday. `Weekday(d) = (d + 4) % 7` agrees with `Date.getDay`.
- **`Math.random()`** is an input. `SeriesDraws` lists the values one series draws, in call order. `RunBacktest` takes one `SeriesDraws` per position in the ticker list.

## Model

| member | source | states |
|---|---|---|
| BacktestData.Weekday | src/services/backtest.ts:62 | the day of the week lies in 0..6 |
| BacktestData.NextPrice | src/services/backtest.ts:63-64 | the new price is the old price plus `(r - 0.48) * 5`, or 1 when that would be below 1; it is never below 1 |
| BacktestData.MockHistoricalData | src/services/backtest.ts:56-81 | the generator loop returns the series `MockSeries` defines from the start price `100 + 200 r` |
| BacktestData.MockSeriesDays | src/services/backtest.ts:61-78 | every generated bar lies on a weekday of [start, end], carries the start date's time of day, and the days strictly ascend |
| BacktestData.MockSeriesCovers | src/services/backtest.ts:61-78 | the set of bar days is exactly the set of weekdays of [start, end] |
| BacktestData.MockSeriesBars | src/services/backtest.ts:59-73 | every close is at least 1; with draws in [0, 1), open and low lie within 2 below the close, high within 2 above, volume in [100000, 1100000) |
| BacktestData.FindBar | src/services/backtest.ts:184-186 | a bar is found iff the series has a bar on that day; the bar found is of that day and no earlier bar of the series is |
| Nodes.OutgoingEdges | src/services/backtest.ts:108 | the result holds exactly the edges whose source is the id |
| Nodes.FindNode | src/services/backtest.ts:110 | a node is found iff one has the id; it is the first such node |
| Nodes.FindStart | src/utils/algorithmValidation.ts:19 | no node is found iff no node is a start node; otherwise the first start node |
| ConditionEvaluation.EvaluateCondition | src/hooks/useConditionEvaluation.ts:18-71 | incomplete conditions and technical conditions without an indicator fail; time conditions hold only for `market_open` at 9:30 to 9:59 of the snapshot's time (or the clock); otherwise the price, the indicator or 0 is compared with the threshold by the operator, and an unknown operator fails |
| BacktestLedger.AllBuyQuantityFloor | src/services/backtest.ts:243 | the 'all' buy quantity is the largest whole number of shares whose value the cash covers |
| BacktestLedger.ResolveQuantity | src/services/backtest.ts:238-247 | a number is taken as is; 'all' sells the held quantity and buys `floor(cash / price)` |
| BacktestLedger.AveragePriceBounds | src/services/backtest.ts:267-269 | the averaged cost basis stays positive, and buying at the average leaves it unchanged |
| BacktestLedger.Averaged | src/services/backtest.ts:262-270 | the bought position holds the old quantity plus the new, and its average price times that quantity is the old cost plus price × quantity |
| BacktestLedger.AddShares | src/services/backtest.ts:262-270 | the ticker's holding grows by the quantity and its average price becomes (old quantity × old average + price × quantity) / new quantity, with 0 as the old average of a new position; every other entry is unchanged; positions stay positive |
| BacktestLedger.RemoveShares | src/services/backtest.ts:290-293 | the ticker's holding shrinks by the quantity, keeps its average price, and its entry is deleted exactly when it reaches 0; every other entry is unchanged |
| BacktestLedger.Bought | src/services/backtest.ts:256-282 | a funded buy pays value plus commission and appends its trade |
| BacktestLedger.Sold | src/services/backtest.ts:283-305 | a covered sell receives value less commission and appends its trade |
| BacktestLedger.BuyResult | src/services/backtest.ts:256-282 | a buy either changes nothing or appends exactly its trade, keeping positions positive |
| BacktestLedger.SellResult | src/services/backtest.ts:283-305 | a sell either changes nothing or appends exactly its trade, keeping positions positive |
| BacktestLedger.ApplyOrder | src/services/backtest.ts:228-310 | an order appends at most one trade, of the tick's ticker, day and close, and keeps the earlier trades |
| BacktestLedger.ApplyOrderExecutes | src/services/backtest.ts:228-310 | exactly one trade is recorded iff the order is complete, its quantity positive and it is funded (buy) or covered (sell); otherwise nothing changes |
| BacktestLedger.ExecuteOrder | src/services/backtest.ts:228-310 | the in-place order execution computes `ApplyOrder` |
| BacktestLedger.ExecuteBuy | src/services/backtest.ts:256-282 | the buy branch computes `BuyResult` |
| BacktestLedger.ExecuteSell | src/services/backtest.ts:283-305 | the sell branch computes `SellResult` |
| BacktestLedger.AddToPosition | src/services/backtest.ts:262-270 | the position update computes `AddShares` |
| BacktestLedger.RemoveFromPosition | src/services/backtest.ts:290-293 | the position update computes `RemoveShares` |
| BacktestLedger.ApplyOrders | src/services/backtest.ts:213-316 | a sequence of orders appends at most one trade each, all of the tick, and keeps earlier trades |
| BacktestLedger.InitialLedgerValid | src/services/backtest.ts:164-165 | the initial capital with no positions satisfies the accounting invariant |
| BacktestLedger.BoughtValid | src/services/backtest.ts:256-282 | a funded buy keeps the accounting invariant |
| BacktestLedger.SoldValid | src/services/backtest.ts:283-305 | a covered sell keeps the accounting invariant |
| BacktestLedger.ApplyOrderValid | src/services/backtest.ts:228-310 | every order keeps the invariant: cash = capital + trade flows, holdings = net traded quantities, all positive |
| BacktestLedger.ApplyOrdersValid | src/services/backtest.ts:213-316 | every sequence of orders keeps the accounting invariant |
| BacktestLedger.NoShortPositions | src/services/backtest.ts:284-293 | under the invariant no holding and no net traded quantity is negative, and a ticker has a position iff its net quantity is positive |
| BacktestLedger.ApplyOrderKeepsCash | src/services/backtest.ts:257-287 | non-negative cash stays non-negative after a buy, and after a sell when the commission per share is at most the price |
| BacktestLedger.SellCanOverdraw | src/services/backtest.ts:285-287 | a sell whose commission exceeds its value takes the cash below zero |
| BacktestLedger.AllBuyIgnoresCommission | src/services/backtest.ts:238-257 | with a positive commission, an 'all' buy whose cash is an exact multiple of the price never executes |
| BacktestLedger.SellAllWithoutPosition | src/services/backtest.ts:240-250 | selling 'all' of an unheld ticker trades nothing |
| BacktestLedger.CommissionPerShare | src/services/backtest.ts:252-287 | the cash is the capital plus net proceeds less the commission rate times the shares traded |
| BacktestValuation.ValueOfRemove | src/services/backtest.ts:325-331 | the holdings value splits off any one position, whatever the order of the entries |
| BacktestValuation.ValueOfNonNegative | src/services/backtest.ts:323-331 | with positive positions and non-negative closes the holdings are worth at least 0 |
| BacktestValuation.CloseOnNonNegative | src/services/backtest.ts:326-328 | the close looked up (or 0) is non-negative when every loaded close is |
| BacktestValuation.HoldingsValue | src/services/backtest.ts:324-331 | the positions' market value is 0 without positions and never negative for positive positions at non-negative closes |
| BacktestValuation.MarkToMarket | src/services/backtest.ts:323-331 | the end-of-day loop yields cash plus the value of every held position at that day's close |
| BacktestGraph.TickOf | src/services/backtest.ts:191-201 | the snapshot's price is the bar's close, its timestamp the bar's, with no indicators |
| BacktestGraph.Targets | src/services/backtest.ts:109-111 | the nodes reached are exactly the known targets of the edges, at most one per edge |
| BacktestGraph.FindNextNodes | src/services/backtest.ts:107-112 | a node is next iff an edge leaves the id for it |
| BacktestGraph.ConditionalEdges | src/services/backtest.ts:115-119 | the edges kept are exactly those leaving the id on `outTrue` (true) or `outFalse` (false) |
| BacktestGraph.FindNextNodesWithCondition | src/services/backtest.ts:114-124 | a node is next iff an edge on the outcome's handle leaves the id for it |
| BacktestGraph.Successors | src/services/backtest.ts:214-315 | a condition follows its outcome's handle, an order ends its path, any other node passes to all targets |
| BacktestGraph.Visit | src/services/backtest.ts:228-310 | only an order node trades; visiting keeps positions positive and trades only at the tick |
| BacktestGraph.ProcessFrontier | src/services/backtest.ts:211-316 | one pass over the frontier keeps every earlier trade and adds only trades of the tick |
| BacktestGraph.FrontierBound | src/services/backtest.ts:210-319 | under a ranking, every node of the next frontier ranks strictly below the current one, so the walk ends |
| BacktestGraph.Traverse | src/services/backtest.ts:208-319 | the whole walk keeps positions positive and adds only trades of the tick |
| BacktestGraph.ProcessFrontierValid | src/services/backtest.ts:211-316 | one pass keeps the accounting invariant |
| BacktestGraph.TraverseValid | src/services/backtest.ts:208-319 | the whole walk keeps the accounting invariant |
| BacktestGraph.ProcessNodes | src/services/backtest.ts:211-316 | the `for` loop over the frontier computes `ProcessFrontier` |
| BacktestGraph.FollowFlow | src/services/backtest.ts:208-319 | the `while` loop computes `Traverse` |
| Backtest.StockNodes | src/services/backtest.ts:152 | exactly the stock-selection nodes |
| Backtest.Tickers | src/services/backtest.ts:153 | exactly the non-empty tickers of the stock nodes |
| Backtest.Loaded | src/services/backtest.ts:95-105 | after loading, exactly the old tickers and the requested ones have series |
| Backtest.LoadedSeries | src/services/backtest.ts:95-105 | loading keeps every close at least 1 and every series covering the run's weekdays |
| Backtest.LoadedTradingDays | src/services/backtest.ts:168-173 | with at least one ticker, the trading days are exactly the weekdays of the range |
| Backtest.CollectTradingDays | src/services/backtest.ts:168-173 | the collected days are distinct and are exactly the days of any loaded bar |
| Backtest.Insert | src/services/backtest.ts:175 | inserting into an ascending list keeps it ascending and adds exactly the day |
| Backtest.SortDays | src/services/backtest.ts:175 | the sorted days ascend strictly and are exactly the given days |
| Backtest.NextRanked | src/services/backtest.ts:208 | the nodes after a ranked node are ranked |
| Backtest.RunStockNodes | src/services/backtest.ts:204-320 | walking from every stock node of the ticker keeps positions positive and adds only trades of the tick |
| Backtest.RunTicker | src/services/backtest.ts:204-320 | the stock-node loop computes `RunStockNodes` |
| Backtest.RunTickers | src/services/backtest.ts:183-321 | the ticker loop adds only trades dated that day |
| Backtest.DayStep | src/services/backtest.ts:179-340 | one day runs the tickers and pushes one equity point of cash plus holdings at that day's close |
| Backtest.RunDay | src/services/backtest.ts:179-340 | the day's body computes `DayStep` and pushes exactly one equity point |
| Backtest.RunDays | src/services/backtest.ts:179-340 | one equity point per day, in the days' order |
| Backtest.RunStockNodesValid | src/services/backtest.ts:204-320 | the stock-node loop keeps the accounting invariant |
| Backtest.RunTickersValid | src/services/backtest.ts:183-321 | the ticker loop keeps the accounting invariant |
| Backtest.RunDaysValid | src/services/backtest.ts:179-340 | the day loop keeps the accounting invariant |
| Backtest.RunDaysChronological | src/services/backtest.ts:179-340 | over ascending days, earlier trades are kept and new trades are dated on the days, in non-decreasing order |
| Backtest.BacktestService.constructor | src/services/backtest.ts:89-93 | the service holds the graph and parameters and no data |
| Backtest.BacktestService.LoadHistoricalData | src/services/backtest.ts:95-105 | each ticker's series is generated and stored; a repeated ticker keeps its last series |
| Backtest.BacktestService.RunBacktest | src/services/backtest.ts:126-381 | no start node or no ticker gives the failure result with its message and loads nothing; otherwise the data are loaded and the result is the `Outcome` of the day loop and metrics |
| Backtest.Simulate | src/services/backtest.ts:163-340 | the equity points are one per trading day, ascending, and trades and equity are `RunDays` from the initial capital |
| Backtest.RunDaysLoop | src/services/backtest.ts:179-340 | the day loop computes `RunDays` over the sorted days |
| Backtest.OutcomeTrades | src/services/backtest.ts:273-348 | a successful run's trades are in day order, each on a trading day, each priced `price * quantity` with commission `rate * quantity`, and all counted |
| Backtest.OutcomeEquityDays | src/services/backtest.ts:168-337 | a run of freshly loaded data has one equity point per weekday of the range, ascending |
| Backtest.RunBacktestFor | src/services/backtest.ts:384-391 | the exported function gives the failure results or the `Outcome` of a fresh service |
| BacktestMetrics.FinalEquity | src/services/backtest.ts:343 | the last equity point, or the initial capital without points |
| BacktestMetrics.TotalReturnPct | src/services/backtest.ts:345 | not finite iff the capital is 0; otherwise the percentage times the capital is 100 times the return, with the return's sign |
| BacktestMetrics.FirstEarlierBuy | src/services/backtest.ts:353-355 | a buy is found iff an earlier-dated buy of the same ticker exists, and the one found is the first such buy in log order |
| BacktestMetrics.CountProfitable | src/services/backtest.ts:351-357 | the count is the number of positions in the list whose trade is profitable, so at most its length |
| BacktestMetrics.ProfitableAreSells | src/services/backtest.ts:351-352 | only sells count as profitable |
| BacktestMetrics.WinRate | src/services/backtest.ts:351-360 | 0 without trades; otherwise the `Percent` of the profitable count over all trades, so the rate times the trade count is 100 times the profitable count; it lies in [0, 100] and is 0 without sells |
| BacktestMetrics.Percent | src/services/backtest.ts:359-360 | the percentage times the total is 100 times the count; it lies in [0, 100] and is 0 exactly for a zero count |
| BacktestMetrics.DrawdownStep | src/services/backtest.ts:366-375 | the peak is the maximum of the old peak and the equity; the drawdown becomes infinite exactly when it was or the new peak is 0 and the equity negative; a finite drawdown never falls, is at least the point's drawdown from a non-zero peak, and is either the old value or that drawdown |
| BacktestMetrics.PeakBounds | src/services/backtest.ts:363-370 | the running peak is at least the capital and every equity seen |
| BacktestMetrics.DrawdownFraction | src/services/backtest.ts:363-375 | for a positive capital and non-negative equities the drawdown is a fraction in [0, 1] |
| BacktestMetrics.MaxDrawdownPct | src/services/backtest.ts:362-377 | the reported drawdown is infinite exactly when the scan's is, otherwise 100 times the scan's drawdown; for a positive capital and non-negative equities it is finite and lies in [0, 100] |
| BacktestMetrics.DrawdownIsLargest | src/services/backtest.ts:362-375 | a finite drawdown of the scan is non-negative, at least the drawdown of every point from its running peak, and either 0 or one of those drawdowns |
| BacktestMetrics.ScanDrawdown | src/services/backtest.ts:362-375 | the loop ends with the running peak and largest drawdown of the scan |
| BacktestMetrics.NoDrawdownWhenRising | src/services/backtest.ts:363-375 | a non-decreasing equity curve above the capital has drawdown 0 and peak at its last point |
| BacktestMetrics.ComputePerformance | src/services/backtest.ts:342-377 | the summary's fields are the total return, percentage, trade count, win rate and drawdown of the log and curve; the other three are 0 |
| AlgorithmValidation.OrphanWarnings | src/utils/algorithmValidation.ts:26-40 | at most two orphan warnings per node |
| AlgorithmValidation.OrphanWarningsExact | src/utils/algorithmValidation.ts:26-40 | a warning is reported iff a non-start node lacks an incoming edge or a non-order node lacks an outgoing edge |
| AlgorithmValidation.ConfigWarnings | src/utils/algorithmValidation.ts:69-87 | at most one configuration warning per node |
| AlgorithmValidation.ConfigWarningsExact | src/utils/algorithmValidation.ts:69-87 | a warning is reported iff a stock node lacks a ticker, or a condition or order node lacks one of its three fields |
| AlgorithmValidation.RankedReachesNoCycle | src/utils/algorithmValidation.ts:44-62 | no cycle is reachable from a node of a ranked graph |
| AlgorithmValidation.RevisitIsCycle | src/utils/algorithmValidation.ts:45-48 | reaching a node already on the current path is a reachable cycle |
| AlgorithmValidation.FinishNode | src/utils/algorithmValidation.ts:56-61 | a node finished after all its targets extends the ranking |
| AlgorithmValidation.CheckCycle | src/utils/algorithmValidation.ts:44-62 | `true` only for a cycle reachable from the start, with the error pushed once; `false` ranks every node it finished, so none of them reaches a cycle |
| AlgorithmValidation.DetectCycle | src/utils/algorithmValidation.ts:64-66 | the cycle error is pushed exactly when a cycle is reachable from the start node |
| AlgorithmValidation.AddOrphanWarnings | src/utils/algorithmValidation.ts:26-40 | the first `forEach` appends exactly `OrphanWarnings` |
| AlgorithmValidation.AddConfigWarnings | src/utils/algorithmValidation.ts:69-87 | the second `forEach` appends exactly `ConfigWarnings` |
| AlgorithmValidation.CheckConnections | src/utils/algorithmValidation.ts:27-39 | one node's pass of the first `forEach` appends exactly that node's missing-incoming and missing-outgoing warnings, in that order |
| AlgorithmValidation.CheckConfiguration | src/utils/algorithmValidation.ts:70-86 | one node's `switch` appends exactly that node's configuration warning, if its type has one |
| AlgorithmValidation.ValidateAlgorithm | src/utils/algorithmValidation.ts:11-95 | valid iff no error; a missing start is the only error then; otherwise the cycle error exactly when one is reachable from the first start node; the warnings are the orphan warnings then the configuration warnings |
| FormulaBuilder.AddOperation | src/hooks/useFormulaBuilder.ts:27-32 | the operation is appended after the unchanged earlier ones |
| FormulaBuilder.Without | src/hooks/useFormulaBuilder.ts:37 | the filter drops exactly the element at the index, or nothing when the index is out of range |
| FormulaBuilder.RemoveOperation | src/hooks/useFormulaBuilder.ts:34-39 | an index in range removes that operation and shifts the later ones down; any other index changes nothing |
| FormulaBuilder.Patched | src/hooks/useFormulaBuilder.ts:44-46 | the map merges the patch into the element at the index and keeps every other element |
| FormulaBuilder.UpdateOperation | src/hooks/useFormulaBuilder.ts:41-48 | the operation at the index is merged with the patch, all others unchanged, length kept |
| FormulaBuilder.RemoveUndoesAdd | src/hooks/useFormulaBuilder.ts:27-39 | removing the operation just added gives back the formula |
| FormulaBuilder.UpdateIdempotent | src/hooks/useFormulaBuilder.ts:41-48 | applying a patch twice equals applying it once |
| FormulaBuilder.EmptyPatchIdentity | src/hooks/useFormulaBuilder.ts:41-48 | an empty patch changes nothing |
| FormulaBuilder.Lookup | src/hooks/useFormulaBuilder.ts:64 | the record's entry under the operand's key when the record has one; 0 for a missing record or key |
| FormulaBuilder.ResolveOperand | src/hooks/useFormulaBuilder.ts:58-88 | price and indicator operands are lookups, number and constant operands are `Number(value)`; only text can be NaN |
| FormulaBuilder.Apply | src/hooks/useFormulaBuilder.ts:90-122 | comparisons give booleans and arithmetic numbers; NaN operands and division by 0 give NaN, and nothing else does; a true comparison had two numbers; a quotient times the divisor is the dividend |
| FormulaBuilder.EvaluateFormula | src/hooks/useFormulaBuilder.ts:50-125 | 0 for an empty formula, otherwise the value of the first operation |
| FormulaBuilder.OnlyFirstOperation | src/hooks/useFormulaBuilder.ts:51-54 | formulas that share their first operation evaluate alike |
| FormulaBuilder.AddKeepsValue | src/hooks/useFormulaBuilder.ts:27-54 | appending to a non-empty formula does not change its value |
| FormulaBuilder.ComparisonDuality | src/hooks/useFormulaBuilder.ts:105-119 | `>` mirrors `<` and `>=` mirrors `<=`; on numbers `>=` negates `<`; with NaN both are false |
| TradingAssistant.Recent | src/services/tradingAssistantService.ts:147-149 | the last `min(n, 20)` messages, in order |
| TradingAssistant.RecentSnoc | src/services/tradingAssistantService.ts:143-150 | trimming after every push equals trimming once |
| TradingAssistant.AddAllRecent | src/services/tradingAssistantService.ts:143-150 | after any run of pushes the history is the 20 most recent messages, in order |
| TradingAssistant.TradingAssistantService.constructor | src/services/tradingAssistantService.ts:13 | the history starts empty |
| TradingAssistant.TradingAssistantService.AddMessage | src/services/tradingAssistantService.ts:143-150 | the new history is the last 20 of the old history plus the message; it grows by one until full; its last message is the new one |
| TradingAssistant.TradingAssistantService.GetConversationHistory | src/services/tradingAssistantService.ts:152-154 | returns the history's contents, leaving it unchanged |
| TradingAssistant.TradingAssistantService.ClearConversationHistory | src/services/tradingAssistantService.ts:156-158 | the history becomes empty |
| TradingAssistant.FindById | src/services/tradingAssistantService.ts:129 | an item is found iff one has the id; it is the first such item |
| TradingAssistant.AddedIds | src/services/tradingAssistantService.ts:120-122 | an id is added iff the updated list has it and the original does not |
| TradingAssistant.RemovedIds | src/services/tradingAssistantService.ts:124-126 | an id is removed iff the original list has it and the updated does not |
| TradingAssistant.ModifiedIds | src/services/tradingAssistantService.ts:128-131 | an id is modified iff an updated item with it differs from the first original item with it |
| TradingAssistant.GetDiff | src/services/tradingAssistantService.ts:118-137 | added ids are exactly those only in the updated list, removed ids exactly those only in the original, modified ids exactly those of changed updated items; modified ids are in both lists, so no id is in two of the three lists |
| TradingAssistant.NoneAdded | src/services/tradingAssistantService.ts:120-122 | nothing is added when every updated id occurs in the original |
| TradingAssistant.NoneRemoved | src/services/tradingAssistantService.ts:124-126 | nothing is removed when every original id still occurs |
| TradingAssistant.NoneModified | src/services/tradingAssistantService.ts:128-131 | nothing is modified when no updated item changed |
| TradingAssistant.DiffSelf | src/services/tradingAssistantService.ts:118-137 | a list compared with itself has nothing added or removed, and nothing modified when its ids are unique |
| InitialFlow.EdgesDescend | src/utils/initialFlowData.ts:48-52 | every example edge leads from a higher to a lower rank |
| InitialFlow.InitialFlowRanked | src/utils/initialFlowData.ts:48-52 | the example graph is ranked, so its walks end and it has no cycle |
| InitialFlow.InitialFlowStart | src/utils/initialFlowData.ts:5-11 | the example's first start node is `start-1` |
| InitialFlow.InitialFlowConnected | src/utils/initialFlowData.ts:48-52 | no example node is orphaned |
| InitialFlow.InitialFlowConfigured | src/utils/initialFlowData.ts:12-45 | every example node is fully configured |
| InitialFlow.ValidateInitialFlow | src/utils/initialFlowData.ts:5-52 | validating the example gives no error and no warning |
| InitialFlow.StockLeadsToCondition | src/utils/initialFlowData.ts:50 | the stock node leads to the condition node only |
| InitialFlow.ConditionLeadsToOrder | src/utils/initialFlowData.ts:51 | the condition leads to the order on `outTrue` and nowhere on `outFalse` |
| InitialFlow.PriceAbove150Holds | src/utils/initialFlowData.ts:23-33 | the example condition holds iff the price is above 150 |
| InitialFlow.ConditionStep | src/utils/initialFlowData.ts:23-33 | visiting the condition trades nothing and yields the order node iff the price is above 150 |
| InitialFlow.OrderStep | src/utils/initialFlowData.ts:34-45 | visiting the order node executes a market buy of 10 and yields nothing |
| InitialFlow.InitialFlowTick | src/utils/initialFlowData.ts:5-52 | on a tick, the walk from `stock-1` buys 10 shares at the close iff the close is above 150, and otherwise changes nothing |

## Left out

- Floating point: numbers are exact reals. Rounding, and NaN or Infinity where the model does not name them, are not modelled. An infinite formula operand is not modelled either.
- Dates, time zones and `toISOString`: days are integers. The end day is the last day the generator's `currentDate <= endDate` loop reaches; the caller derives it from `endDate` and the time of day of `startDate`. The day key's `sort()` on ISO strings is modelled as a numeric sort, which gives the same order for years 0000 to 9999.
- `Math.random()` and `new Date()` are parameters (`SeriesDraws`, the `clock` of `EvaluateCondition`).
- `async`/`await` and the React hooks' state machinery (`useState`, `useCallback`) are not modelled. The formula edits are functions from formula to formula. `evaluateCondition` is a standalone function rather than a hook's callback.
- Backtest.BacktestService.RunBacktest: when the run gets past its two failure checks, it requires a ghost ranking. The ranking must cover every node reachable from a stock-selection node that has a ticker, and every edge from a ranked node to a known node must lead to a lower rank, including edges of branches the run never takes and edges out of order-execution nodes, which the walk never follows. Graphs with a cycle reachable from such a node are therefore excluded, even when the source's walk ends on them because a condition never sends it round the cycle. Backtest.RunBacktestFor inherits the same requirement.
- BacktestMetrics.ComputePerformance: `annualizedReturn`, `sharpeRatio` and `profitFactor` are never computed by the source, and the model states that they stay 0.
- The unused `prevEquity` variable of `runBacktest` is not modelled.
- Order fields the engine never reads (limit and stop price, time in force) and `quantity` text that is not a whole number are not modelled: quantities are integers, as the order editor produces them.
- BacktestData.CloseOn: a ticker without a loaded series gives 0, whereas the source would throw. Only loaded tickers ever hold positions.
- BacktestLedger.ApplyOrderKeepsCash: a sell whose per-share commission exceeds the price overdraws cash. The source allows this, and `SellCanOverdraw` exhibits it.
- The history of `TradingAssistantService` is a static field in the source. Here it is a field of one service object.
- `getAssistantResponse` is not part of this model: it calls a remote function, shows toasts and parses the reply.
- TradingAssistant.GetDiff: returns the three id lists rather than their JSON text. Each item's JSON text is an input, so key order and serialisation are not modelled. The `try/catch` around `JSON.stringify` is not modelled, because it only fires on values JSON cannot serialise.
- FormulaBuilder: `Number(text)` and the key a numeric operand becomes are parameters (`Conversions`). The `default` arm of the operator switch is unreachable for the nine declared operators and is not modelled. `setFormula` is a plain replacement and needs no model.
- The React Flow positions, handles other than `sourceHandle`, and node `marketType`/`exchange` fields are not modelled.
