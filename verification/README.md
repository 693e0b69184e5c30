# Verified model of the stock screener

A Dafny model of the parts of the screener whose results other parts rely on: the portfolio backtest,
the ownership of the daily watchlist, the analysis of realized trades, minute-bar aggregation, decimal
text, ranking and the token cache. Each part has a specification as functions or as a state machine,
methods in the imperative form of the original that are proved to compute that specification, and
theorems about every input, every run or every interleaving.

| file | what it models |
|---|---|
| `Ordering`, `Options`, `Dates`, `Decimals`, `Drawdown` | stable sorting, optional values, day numbers, quotients and rounding to eight decimals, peak and drawdown loops |
| `Backtest`, `Sizing` | one signal on its own; sizing of an entry |
| `Portfolio` | the day-by-day book as functions: exits, entries, liquidation, marks, runs |
| `PortfolioLedger`, `PortfolioRuns`, `PortfolioSnapshots`, `PortfolioTrades`, `PortfolioCausality` | theorems about single events, whole runs, stored snapshots, trades against the single-signal simulator, and two runs that agree up to a day |
| `PortfolioTicks`, `PortfolioSolvency`, `PortfolioUtilization`, `PortfolioLastDay` | prices as whole steps; the exact conditions for solvency, the drawdown percentage and the average utilization; a run whose last-day trade differs from the simulator |
| `PortfolioEntries`, `PortfolioMarks`, `PortfolioReport` | what an entry decides, what positions are marked at and forced sales use, what snapshots and report say field by field |
| `PortfolioSchedule` | the search for entry days: when it fails, and the order of the signals |
| `PortfolioExecutor` | the same book as objects updated in place, proved against `Portfolio` |
| `TradeMetrics`, `TradeFigures`, `Analysis`, `AnalysisFigures` | the figures of an independent backtest; the analysis of stored trades; each figure in terms of the trades |
| `MinuteBars`, `MinuteBuckets` | aggregation of minute bars and the volume-weighted average price; which bars of a bucket give which field |
| `DecimalText` | display, percent and comparison of decimal numerals kept as text |
| `Scoring`, `Ranking`, `RankingScores` | scores, primary setup, ranking and cut-off; what scores and order say about the metrics |
| `Watchlist`, `Pipeline`, `PipelineProtocol`, `PipelineRows`, `PipelineService`, `PipelineConformance` | stored lists, the execution table, any number of workers on it, single transactions, one run of the service, and why that run is a run of the protocol |
| `TokenProtocol`, `TokenCache` | the token cache under every interleaving, as an object, and the retry loop |

`dafny verify dfyconfig.toml` checks everything.

## Reading the model

- Methods compute a specification function; what that function means is stated apart from its body, by the
  lemmas named `...Meaning` and those beside them, in terms of the inputs.
- Decimals are real numbers; only the explicit `quantize` calls round (half even at eight decimals for
  money and rates, half up at two decimals for scores).
- Bars satisfy the check constraints of the stored bars (non-negative, `low <= open, close <= high`), and the
  calendar is strictly ascending, as its query orders it. The parameters satisfy the parsed ranges;
  these bound each cost rate below one but not the sum of the two rates of a sale.
- Three promises fail when that sum exceeds one: that cash keeps its buffer, that the drawdown percentage is
  the largest relative fall, and that the average utilization is a share. Each has its exact condition, once
  over all valid markets and once for every price step over the markets whose prices are whole steps; the
  price columns have six decimals, so `PRICE_TICK` is 0.000001. On steps an account that cannot pay for one
  share at one step never trades, and one that cannot pay for a second position never holds two.
- The calendar is market-wide, but only signalled symbols are loaded. A calendar day after a signal with no
  loaded bar, met before the first bar of the signal's own symbol, makes the original fail with a key error.
  The model has that outcome (`MissingDay`, `LookupFailed`) with its exact condition
  (`PortfolioSchedule.LookupFailsExactly`) and an input; theorems that need every lookup to succeed require `Looked`.
- The simulator divides by the entry price; a zero opening price is the outcome `ZeroPrice`.
- Dates are day numbers, times are seconds, the clock, the issuer, the replies of the provider, the
  month of a date and the stage that raises are parameters. Minute bars carry Korean local time, which
  has a fixed offset from UTC.
- In `PipelineProtocol` every event carries the reading of its own worker's clock, and the readings may come
  in any order. A worker whose run was recovered as stale may go on, and commit. `WriterIsLatestExactly` says
  when the latest success still owns the list; `RecoveredWorkerOverwrites` is a run in which it does not;
  `LatestSuccessOwnsList` is the case in which only running executions commit and each acquisition starts
  after the earlier ones of its date.
- Trades of one run have distinct symbol and signal date even when signals repeat, because entries of one
  symbol have strictly increasing dates.

## Where code and documentation differ

The model follows the code.

- `docs/daily-watchlist-scheduler.md` says that only one running or succeeded row can exist per date; a
  forced reanalysis adds further succeeded rows, and only running rows are unique.
- It says that completion is recorded separately from the list; the service finishes the row and replaces
  the list in one transaction.
- It says that a date without a confirmed bar is skipped; the service then finds no inputs and succeeds
  with an empty list, and its helper for such a skip is never called.

## Model

| member | source | states |
|---|---|---|
| `Backtest.FindExit` | backend/src/screener/modules/backtest/executor.py:145-167 | the day loop with its break leaves on the first bar that reaches the stop, the target or the age limit, stop before target, at the gap price when the bar opens beyond it; without such a bar on the last one |
| `Backtest.LoneExitMeaning` | backend/src/screener/modules/backtest/executor.py:151-167 | on valid bars: every bar between entry and exit stays strictly between stop and target; a bar that touches the stop leaves there or at its lower open even if it also touches the target; otherwise one that touches the target leaves there or at its higher open; otherwise the close of the bar at the age limit, or of the last bar, decides |
| `Backtest.LimitsMeaning` | backend/src/screener/modules/backtest/executor.py:151-152 | the stop is below and the target above the entry price by their shares of it |
| `Backtest.LoneExitAge` | backend/src/screener/modules/backtest/executor.py:151-167 | the exit is on one of the signal's own bars, `holding_days` is its position among them and never exceeds the limit |
| `Backtest.ExitWithinBar` | backend/src/screener/modules/backtest/portfolio.py:169-182 | an exit price lies inside the range of the bar that triggers it |
| `Backtest.SimulateSignal` | backend/src/screener/modules/backtest/executor.py:131-192 | the whole simulation of one signal: which bar enters, the two rejections, the division by a zero entry price, the exit, and the stored amounts, each rounded on its own |
| `Backtest.EligibleMeaning` | backend/src/screener/modules/backtest/executor.py:134-137 | the bars used are exactly those after the signal and up to the end of the run, in date order |
| `Backtest.SimulationOutcome` | backend/src/screener/modules/backtest/executor.py:134-144 | which outcome there is: none without bars, a division by zero on a zero open, a rejection exactly when the position size is below one share, otherwise a trade |
| `Backtest.SimulatedTrade` | backend/src/screener/modules/backtest/executor.py:138-192 | the simulated trade buys the most whole shares that the position size pays for without commission, at the open of the first bar, and has the exit of that entry and the amounts of both |
| `Backtest.RecordedSettles` | backend/src/screener/modules/backtest/executor.py:168-192 | the stored amounts: gross is the price gain less the slippage of both sides, net is gross less one commission on both sides and the tax on the sale, each rounded on its own |
| `Backtest.SlippageMoves` | backend/src/screener/modules/backtest/executor.py:141-168 | slippage raises the buying and lowers the selling price by the same share |
| `Sizing.LargestAffordable` | backend/src/screener/modules/backtest/portfolio.py:146-166 | a whole number of shares whose cost with commission is covered, while one share more is not |
| `Sizing.AffordableQuantity` | backend/src/screener/modules/backtest/portfolio.py:146-166 | the decrementing loop terminates and returns the rule without a loop: the largest affordable quantity or the reason for none |
| `Sizing.AffordableReasons` | backend/src/screener/modules/backtest/portfolio.py:150-166 | the two zero-quantity reasons separate exactly "less than one share" from "one share but not its commission", and a quantity is bought if and only if its outlay is allowed |
| `Sizing.AffordableMonotone` | backend/src/screener/modules/backtest/portfolio.py:152-158 | more cash or a larger target never buys fewer shares |
| `Sizing.AffordableKeepsBuffer` | backend/src/screener/modules/backtest/portfolio.py:152-158 | a bought quantity costs no more than the target and leaves the cash buffer |
| `PortfolioLedger.ProceedsAreCostPlusNet` | backend/src/screener/modules/backtest/portfolio.py:265-273 | what a sale adds to cash is the cost of the position plus the realized profit |
| `PortfolioLedger.ProceedsSign` | backend/src/screener/modules/backtest/portfolio.py:265-269 | a sale lowers cash if and only if its price is positive and commission plus sales tax exceed one |
| `PortfolioLedger.EntryIsAffordable` | backend/src/screener/modules/backtest/portfolio.py:339-361 | the second cash test after sizing never fires: every sized entry leaves the buffer in cash, for any cost rates |
| `PortfolioLedger.ExitOneSound` | backend/src/screener/modules/backtest/portfolio.py:306-326 | an exit keeps the ledger balanced, the drift of the stored profits below half a quantum each, the slots and the open positions valid |
| `PortfolioLedger.EnterOneSound` | backend/src/screener/modules/backtest/portfolio.py:329-365 | an entry event keeps the same invariant and settles exactly one signal, as a position or as a skip |
| `PortfolioEntries.EntryDecision` | backend/src/screener/modules/backtest/portfolio.py:329-365 | an entry event is skipped for exactly one of six reasons, or buys the most shares that the share of the equity and the cash above the reserve pay for with commission; cash pays just that and equity loses just the commission until the next mark |
| `PortfolioEntries.SizeReasons` | backend/src/screener/modules/backtest/portfolio.py:344-353 | each refusal of the sizing holds if and only if its own condition on cash, reserve and price does |
| `PortfolioEntries.CountersMeaning` | backend/src/screener/modules/backtest/portfolio.py:235-365 | the reported maximum is the most positions open after the entries of some day, and the skips for a missing entry bar are the signals without one |
| `PortfolioLedger.LiquidateOneSound` | backend/src/screener/modules/backtest/portfolio.py:366-378 | a forced sale on the last day keeps the same invariant |
| `PortfolioLedger.MarkSound` | backend/src/screener/modules/backtest/portfolio.py:379-391 | closing marks keep the same invariant |
| `PortfolioRuns.RunHealthy` | backend/src/screener/modules/backtest/portfolio.py:302-408 | after every day of every run cash plus the cost of what is held is the initial capital plus what was realized, no more than `max_open_positions` are held, and cash keeps the buffer when commission plus tax are at most one |
| `PortfolioRuns.HealthyThroughout` | backend/src/screener/modules/backtest/portfolio.py:302-378 | the same in every state inside a day, after any number of its exits, entries and liquidations |
| `PortfolioRuns.EventsPartition` | backend/src/screener/modules/backtest/portfolio.py:235-251 | every signal has its entry on exactly one calendar day or is counted once as having none |
| `PortfolioRuns.LastDayClosesAll` | backend/src/screener/modules/backtest/portfolio.py:306-378 | nothing is held after the last day, whether it was held before or entered on that day |
| `PortfolioRuns.FinalAccounting` | backend/src/screener/modules/backtest/portfolio.py:302-378 | after the last day every signal is exactly one trade or one skip, cash is the capital plus what was realized, and the stored cash differs from the capital plus the n stored profits by at most (n+1) half quanta |
| `PortfolioSolvency.SolventExactly` | backend/src/screener/modules/backtest/executor.py:96-98 | for any valid parameters and any price step, every run of every market whose prices are whole steps keeps the cash buffer if and only if commission plus sales tax are at most one, which the range checks do not demand, or the capital never pays for one share at one step |
| `PortfolioSolvency.DrawdownPctExactly` | backend/src/screener/modules/backtest/portfolio.py:388-405 | under the same condition, and under no other, the reported drawdown percentage is in every such run the rounded largest relative fall between two points of the equity curve |
| `PortfolioSolvency.ExactlyWhenSalesAreCheap` | backend/src/screener/modules/backtest/executor.py:96-98 | over all valid markets, however fine their prices, both hold if and only if commission plus sales tax are at most one |
| `PortfolioSolvency.Crash` | backend/src/screener/modules/backtest/portfolio.py:258-300 | a two-day market on the price steps for any parameters whose two sale rates exceed one and whose capital pays for a share at one step: equity at least doubles, and then cash alone falls to minus the capital or below |
| `PortfolioTicks.SizeInTicks` | backend/src/screener/modules/backtest/portfolio.py:146-166 | an entry at k price steps buys exactly as many shares as the spendable cash covers, counted in shares at one step |
| `PortfolioTicks.RunLonely` | backend/src/screener/modules/backtest/portfolio.py:302-408 | with one slot, or with too little capital for a second position after any first one, no day of any run ends with a second position or with anything held and less than the buffer in cash |
| `PortfolioUtilization.InRangeExactly` | backend/src/screener/modules/backtest/portfolio.py:391-391 | for any valid parameters and any price step, every run of every market on those steps reports an average utilization between zero and one, rounding included, if and only if commission plus sales tax are at most one, there is a single slot, or the capital is too small for a second position |
| `PortfolioUtilization.InRangeExactlyAtAnyPrice` | backend/src/screener/modules/backtest/portfolio.py:391-391 | over all valid markets, however fine their prices, it is so if and only if commission plus sales tax are at most one or there is a single slot |
| `PortfolioUtilization.ExcessiveUtilization` | backend/src/screener/modules/backtest/portfolio.py:302-408 | otherwise a four-day market on the price steps: the first position is sold below zero while the second one has no bar, and the average is at least five |
| `PortfolioUtilization.ExactlyAtStoredPrices` | backend/src/screener/modules/market/infrastructure/models.py:59-62 | the three exact conditions at the six decimals of the price columns |
| `PortfolioSnapshots.SnapshotsRecordDays` | backend/src/screener/modules/backtest/portfolio.py:392-408 | one snapshot per calendar day, each of the book at the end of its day |
| `PortfolioReport.SnapshotFields` | backend/src/screener/modules/backtest/portfolio.py:382-408 | every field of every snapshot: market is equity beyond cash, unrealized is equity beyond capital and realized profit, the peak is the highest equity so far, and return and drawdown are relative to capital and peak |
| `PortfolioSnapshots.EverySnapshotBalanced` | backend/src/screener/modules/backtest/portfolio.py:392-408 | every stored snapshot satisfies equity = capital + realized + unrealized and equity = cash + market within 1.5e-8 |
| `PortfolioSnapshots.MaxDrawdownMeaning` | backend/src/screener/modules/backtest/portfolio.py:389-404 | the reported maximum drawdown is the rounded largest fall over all earlier-later pairs of the exact equity curve, the capital included |
| `PortfolioSnapshots.MaxDrawdownPctMeaning` | backend/src/screener/modules/backtest/portfolio.py:389-405 | with sale costs of at most the sale, the reported percentage is the rounded largest relative fall over the same pairs |
| `PortfolioSnapshots.MaxDrawdownPctFromPeak` | backend/src/screener/modules/backtest/portfolio.py:389-405 | with any parameters the reported percentage is the rounded largest fall from the highest equity so far |
| `PortfolioSnapshots.AverageUtilizationBounds` | backend/src/screener/modules/backtest/portfolio.py:391-391 | if every day that ends with something held leaves the buffer in cash, the average utilization is between zero and one, rounding included |
| `PortfolioTrades.TradesMatchSimulation` | backend/src/screener/modules/backtest/portfolio.py:169-182 | every trade has the entry date and price, exit date and price, reason and holding days that the single-signal simulator computes for its signal alone, whatever else was held, if it closed before the last day, and for the last day exactly when that day is quiet for it |
| `PortfolioLastDay.LastDayDisagrees` | backend/src/screener/modules/backtest/portfolio.py:309-326 | on the last day they can differ: for any parameters whose capital pays for a share at one price step, a two-day run in which the forced sale replaces the stop that the signal alone meets |
| `PortfolioTrades.TradesWellOrdered` | backend/src/screener/modules/backtest/portfolio.py:306-378 | signal date < entry date <= exit date, quantity at least one, holding days within the limit; trades of one symbol never overlap and no (symbol, signal date) trades twice |
| `PortfolioTrades.EntryIsFirstBar` | backend/src/screener/modules/backtest/portfolio.py:237-251 | the scheduled entry day is the day of the first bar of the symbol after the signal |
| `PortfolioTrades.EarlyExitOk` | backend/src/screener/modules/backtest/portfolio.py:306-326 | a stop, target or age exit before the last day is the exit of the signal alone |
| `PortfolioTrades.FinalExitOk` | backend/src/screener/modules/backtest/portfolio.py:309-326 | forced liquidation on the last day agrees with the signal alone exactly when the last bar triggers nothing |
| `PortfolioTrades.SameDayExitOk` | backend/src/screener/modules/backtest/portfolio.py:366-378 | a position entered and sold on the last day is what the signal alone would do |
| `PortfolioTrades.TradesSettle` | backend/src/screener/modules/backtest/portfolio.py:265-298 | the stored amounts of every portfolio trade are those of the open of its entry bar, its quantity and its sale price, as for the simulator |
| `PortfolioMarks.MarksAreLastCloses` | backend/src/screener/modules/backtest/portfolio.py:379-381 | after every day each open position is marked at the close of its symbol's last bar so far |
| `PortfolioMarks.ForcedSales` | backend/src/screener/modules/backtest/portfolio.py:309-326 | every trade closed on the last day is an end of period at the close of its symbol's last bar, also when that symbol has no bar on the last day |
| `PortfolioCausality.NoLookAhead` | backend/src/screener/modules/backtest/portfolio.py:302-408 | two runs whose calendars, bars and signals agree up to a day that is the last of neither have equal cash, positions, trades, snapshots, peak and skips of entered days after it |
| `PortfolioCausality.EventsAgree` | backend/src/screener/modules/backtest/portfolio.py:235-251 | two such inputs schedule the same entries on every day up to it |
| `PortfolioCausality.ClosesDoNotSizeEntries` | backend/src/screener/modules/backtest/portfolio.py:327-349 | changing today's close of positions that survive today changes no entry of today, nor any quantity |
| `PortfolioExecutor.PortfolioState.Create` | backend/src/screener/modules/backtest/portfolio.py:136-140 | a new state holds the capital as cash and peak and nothing else |
| `PortfolioExecutor.PortfolioState.Equity` | backend/src/screener/modules/backtest/portfolio.py:142-143 | cash plus every open position at its last close, summed in whatever order the dictionary gives |
| `PortfolioReport.EquityMoves` | backend/src/screener/modules/backtest/portfolio.py:142-143 | equity is cash when nothing is held, and moving one mark moves it by that much for every share held |
| `PortfolioExecutor.Settlement` | backend/src/screener/modules/backtest/portfolio.py:265-298 | the exact amounts of a sale as computed step by step are those of the specification |
| `PortfolioExecutor.PortfolioExecution.ClosePosition` | backend/src/screener/modules/backtest/portfolio.py:258-300 | adds the proceeds to cash and the net profit to the realized total, appends the rounded trade and removes the position |
| `PortfolioExecutor.PortfolioExecution.ExitExisting` | backend/src/screener/modules/backtest/portfolio.py:306-326 | the loop over the held symbols in order, with the missing bar carried or, on the last day, replaced by the last close |
| `PortfolioExecutor.PortfolioExecution.EnterSignal` | backend/src/screener/modules/backtest/portfolio.py:329-365 | one entry event: skipped with its reason or bought, on the marks of the previous day |
| `PortfolioExecutor.PortfolioExecution.EnterSignals` | backend/src/screener/modules/backtest/portfolio.py:329-365 | the loop over the day's entry events, sorted by signal date and symbol |
| `PortfolioExecutor.PortfolioExecution.LiquidateSameDay` | backend/src/screener/modules/backtest/portfolio.py:366-378 | what was entered on the last day is sold at its close |
| `PortfolioExecutor.PortfolioExecution.MarkAndSnapshot` | backend/src/screener/modules/backtest/portfolio.py:379-408 | closing marks, running peak, utilization and the stored snapshot |
| `PortfolioExecutor.PortfolioExecution.RunDay` | backend/src/screener/modules/backtest/portfolio.py:302-408 | one calendar day in the order exits, entries, liquidation, marks, and its invariant |
| `PortfolioSchedule.LookupFailsExactly` | backend/src/screener/modules/backtest/portfolio.py:235-243 | the search for the entry day of a signal fails with a key error if and only if some calendar day after the signal has no bar of any signalled symbol and the symbol of the signal has no bar between the two |
| `PortfolioSchedule.LookedExactly` | backend/src/screener/modules/backtest/portfolio.py:235-243 | the whole schedule is built without a key error if and only if no signal has such a day |
| `PortfolioSchedule.SuspendedStock` | backend/src/screener/modules/backtest/portfolio.py:199-224 | an input that fails: the calendar is market-wide, and on the first day after the only signal just other stocks have bars, although its own symbol has one on the next |
| `PortfolioSchedule.EventsSorted` | backend/src/screener/modules/backtest/portfolio.py:329-331 | the second sort, of the entry events of a day, changes nothing |
| `PortfolioSchedule.SignalsInOrder` | backend/src/screener/modules/backtest/portfolio.py:191-193 | signals are handled by date and then by symbol |
| `Ordering.StrLeqMeaning` | backend/src/screener/modules/backtest/portfolio.py:191-193 | strings compare by their first difference, a prefix first |
| `PortfolioExecutor.EntryEvents` | backend/src/screener/modules/backtest/portfolio.py:235-251 | the dictionary of entry events holds for every day the signals whose entry is that day, in order, and the lookup fails exactly when the search fails for some signal |
| `PortfolioExecutor.RunAllDays` | backend/src/screener/modules/backtest/portfolio.py:252-408 | the loop over the calendar computes the specified run |
| `PortfolioExecutor.Execute` | backend/src/screener/modules/backtest/portfolio.py:189-483 | the whole backtest: sorted signals, schedule, calendar loop and report; it fails with a key error if and only if some signal has a blank day as in `PortfolioSchedule.LookupFailsExactly` |
| `PortfolioExecutor.ExecutionIgnoresOrder` | backend/src/screener/modules/backtest/portfolio.py:191-193 | metrics, trades, snapshots and failure are the same for every order in which the signals are generated |
| `PortfolioExecutor.ReportAddsUp` | backend/src/screener/modules/backtest/portfolio.py:463-476 | total signals are entered trades plus skipped signals, and the final equity is the final cash |
| `PortfolioReport.ReportedAmounts` | backend/src/screener/modules/backtest/portfolio.py:463-473 | final equity is final cash, net profit is what was realized, total return is that profit relative to the capital, and the stored trade profits add up to it, each up to its roundings |
| `PortfolioReport.ReportedFigures` | backend/src/screener/modules/backtest/portfolio.py:465-483 | the reported drawdowns are those of the exact equity curve, the counts those of trades and skips, and the utilization the mean of the invested shares |
| `TradeMetrics.CalculateMetrics` | backend/src/screener/modules/backtest/executor.py:195-255 | all figures of an independent backtest, with the one-pass equity, peak, drawdown and streak loop; no result exactly when an average return divides by a zero entry notional |
| `TradeMetrics.FiguresMeaning` | backend/src/screener/modules/backtest/executor.py:204-221 | the drawdown is the largest fall from the highest equity so far (over all pairs while no point is negative); the streaks are the longest blocks of wins and of losses once breakeven trades are left out; equity ends at capital plus net profit |
| `TradeFigures.FiguresOfTrades` | backend/src/screener/modules/backtest/executor.py:225-255 | every count, sum, mean and ratio of the report in terms of the trades: the win rate, the gross sums, the mean return and holding days, the total return and the profit factor |
| `TradeFigures.TradeReturnMeaning` | backend/src/screener/modules/backtest/executor.py:241-242 | the return of a trade is its net profit relative to its entry notional |
| `TradeFigures.MetricOrder` | backend/src/screener/modules/backtest/executor.py:198-198 | the trades are followed by exit date, entry date, symbol and identity |
| `TradeFigures.DecidedMeaning` | backend/src/screener/modules/backtest/executor.py:213-220 | the streaks pass over exactly the trades with no profit or loss |
| `TradeMetrics.FiguresIgnoreOrder` | backend/src/screener/modules/backtest/executor.py:198-203 | with distinct trade ids the figures do not depend on the order of the trades |
| `Drawdown.DeepestIsMaxFall` | backend/src/screener/modules/backtest/portfolio.py:388-404 | the one-pass peak and drawdown loop gives the largest fall over all earlier-later pairs |
| `Drawdown.MaxFallUnique` | backend/src/screener/modules/backtest/portfolio.py:388-404 | the largest fall over all pairs is one number, so the claims about it fix the reported value |
| `Drawdown.DeepestPctIsMaxFallPct` | backend/src/screener/modules/backtest/executor.py:205-212 | over non-negative values the one-pass relative drawdown gives the largest relative fall over all pairs |
| `Drawdown.DeepestPctIsFromPeak` | backend/src/screener/modules/backtest/executor.py:205-212 | over any values it gives the largest fall relative to the highest value so far |
| `Decimals.QuantizeError` | backend/src/screener/modules/backtest/portfolio.py:265-298 | rounding half even to eight decimals moves a value by at most half a quantum |
| `Decimals.QuantizeIsNearest` | backend/src/screener/modules/backtest/portfolio.py:265-298 | a rounded value is the multiple of the quantum nearest to it, the even one of two, and nothing else is |
| `Decimals.QuantizeMax` | backend/src/screener/modules/backtest/portfolio.py:464-465 | the maximum of rounded values is the rounded maximum |
| `Analysis.StatsAddUp` | backend/src/screener/modules/backtest/analysis.py:94-113 | wins, losses and breakeven trades split the count and the two gross sums split the net profit |
| `AnalysisFigures.StatsMeaning` | backend/src/screener/modules/backtest/analysis.py:94-113 | all statistics of any trades: counts, gross sums, means where there is anything to average, the largest win and the largest loss |
| `AnalysisFigures.SummaryMeaning` | backend/src/screener/modules/backtest/analysis.py:164-172 | average win and loss, and the profit factor exactly where something was lost |
| `Analysis.Groups` | backend/src/screener/modules/backtest/analysis.py:116-123 | the dictionary has exactly the keys that occur, each with its trades in order |
| `Analysis.GroupsPartition` | backend/src/screener/modules/backtest/analysis.py:116-123 | over the groups of any distinct covering keys an additive measure sums to its value on all trades |
| `Analysis.Stream` | backend/src/screener/modules/backtest/analysis.py:130-163 | the one-pass loop gives every cumulative point, the maximum drawdown and the two streak counters |
| `Analysis.StreakIsLongestBlock` | backend/src/screener/modules/backtest/analysis.py:134-163 | a streak counter is the length of the longest contiguous block |
| `Analysis.StreamedFigures` | backend/src/screener/modules/backtest/analysis.py:130-172 | the drawdown is the largest fall over all pairs of the curve from zero, the streaks are the longest all-win and all-loss blocks, and the last cumulative point is the net profit |
| `AnalysisFigures.PointMeaning` | backend/src/screener/modules/backtest/analysis.py:136-155 | every point has its trade, the profit so far, the highest profit so far and the distance to it, also relative to it where it is positive |
| `AnalysisFigures.CanonicalOrder` | backend/src/screener/modules/backtest/analysis.py:128-128 | trades are analysed by exit date, symbol and identity |
| `AnalysisFigures.RowsMeaning` | backend/src/screener/modules/backtest/analysis.py:173-203 | there is a row for each symbol and for each month of an exit, with the statistics of exactly its trades, months ascending |
| `AnalysisFigures.ReasonRowsMeaning` | backend/src/screener/modules/backtest/analysis.py:179-198 | there is a row for each exit reason that occurs, in order of declaration, with the statistics of exactly its trades and their share |
| `Analysis.Analyze` | backend/src/screener/modules/backtest/analysis.py:126-204 | the whole analysis of the canonically ordered trades |
| `Analysis.AnalysisIgnoresOrder` | backend/src/screener/modules/backtest/analysis.py:128-128 | with distinct ids the whole analysis is the same for every permutation of the input |
| `Analysis.ReportAddsUp` | backend/src/screener/modules/backtest/analysis.py:173-203 | symbols, reasons and months each partition the trades: counts and net profits add up to the summary and the shares of the reasons to one |
| `Analysis.SymbolRowsOrdered` | backend/src/screener/modules/backtest/analysis.py:173-178 | the two stable sorts list symbols by descending net profit and equal profits by symbol |
| `MinuteBars.AggregateMinuteBars` | backend/src/screener/modules/market/technical_analysis.py:130-164 | the bucket dictionary and its sorted loop return the one-pass aggregation, the input itself for one minute, or the rejection of non-positive minutes or mixed buckets |
| `MinuteBuckets.AggregateMeaning` | backend/src/screener/modules/market/technical_analysis.py:136-163 | each aggregated bar opens as the earliest input bar of its bucket, which gives symbol, currency and source, closes as the latest, ties in input order, has the highest high, lowest low, newest time and summed volume of the bucket; no input bar is lost |
| `MinuteBuckets.AggregateRefusals` | backend/src/screener/modules/market/technical_analysis.py:131-149 | non-positive minutes are refused, one minute returns the input, and a mixed bucket is refused exactly when two of its bars differ in symbol or currency |
| `MinuteBars.AggregationComposes` | backend/src/screener/modules/market/technical_analysis.py:130-164 | aggregating to k minutes and then to a multiple n is aggregating to n at once, rejections included |
| `MinuteBars.UniformTwice` | backend/src/screener/modules/market/technical_analysis.py:146-149 | a mixed bucket is found at the first step or at the second exactly when it is found at once |
| `MinuteBars.BucketParts` | backend/src/screener/modules/market/technical_analysis.py:137-142 | a bucket starts at a multiple of the minutes within its own hour, never after the bar |
| `MinuteBars.AggregateInvariants` | backend/src/screener/modules/market/technical_analysis.py:143-163 | bucket times strictly increase, total volume is conserved and every bar stays valid |
| `MinuteBars.VwapInRange` | backend/src/screener/modules/market/technical_analysis.py:167-175 | the average exists exactly when there is volume and lies between the lowest low and the highest high |
| `MinuteBuckets.VwapOfOne` | backend/src/screener/modules/market/technical_analysis.py:171-175 | one bar averages to the mean of its high, low and close |
| `MinuteBuckets.VwapComposes` | backend/src/screener/modules/market/technical_analysis.py:167-175 | the average of two stretches is their averages weighted by volume |
| `MinuteBuckets.VwapIgnoresEmpty` | backend/src/screener/modules/market/technical_analysis.py:167-175 | bars without volume do not matter |
| `DecimalText.DisplayOfNumeral` | frontend/src/features/backtests/format.ts:3-6 | on a plain numeral exactly the trailing zeros of the fraction go, with the point when nothing is left |
| `DecimalText.DisplayKeepsValue` | frontend/src/features/backtests/format.ts:3-6 | displaying never changes the value and displaying twice is displaying once |
| `DecimalText.Times100IsNumeral` | frontend/src/features/backtests/format.ts:20-31 | the text of one hundred times a plain numeral is a plain numeral again, of one hundred times the magnitude |
| `DecimalText.PercentIsExact` | frontend/src/features/backtests/format.ts:14-31 | percent denotes exactly one hundred times the value of every plain numeral |
| `DecimalText.PercentLeadingZeros` | frontend/src/features/backtests/format.ts:24-30 | its text has superfluous leading zeros exactly for a zero with fewer than two decimals ("0" gives "000%") |
| `DecimalText.CompareIsOrder` | frontend/src/features/backtests/format.ts:41-64 | the comparison is the numeric order, with a negative zero just below a positive one |
| `DecimalText.CompareAgreesExactly` | frontend/src/features/backtests/format.ts:41-64 | it agrees with the numeric order if and only if it is not asked about two zeros of opposite sign |
| `DecimalText.CompareIsPreorder` | frontend/src/features/backtests/format.ts:41-64 | it is a total preorder on all plain numerals |
| `DecimalText.TextOrderIsNumeric` | frontend/src/features/backtests/format.ts:60-63 | equal-length digit strings compare as text as the numbers they denote |
| `Watchlist.Validate` | backend/src/screener/modules/market/watchlist/repository.py:131-146 | the check accepts exactly the lists without blank or repeated symbols and without repeated ranks |
| `Watchlist.BlankIsStripped` | backend/src/screener/modules/market/watchlist/repository.py:133-136 | a symbol is blank exactly when stripping white space leaves nothing |
| `Watchlist.ListedIsCanonical` | backend/src/screener/modules/market/watchlist/repository.py:47-54 | reading a date by rank gives one list however the rows are stored |
| `PipelineTables.PipelineStore.Latest` | backend/src/screener/modules/market/pipeline/repository.py:51-66 | the query for a date and status returns a row with the latest start, or none |
| `PipelineTables.PipelineStore.Acquire` | backend/src/screener/modules/market/pipeline/repository.py:28-120 | the acquisition as one transaction: refusals, recovery of a stale row, insertion |
| `PipelineTables.PipelineStore.SetStage` | backend/src/screener/modules/market/pipeline/repository.py:122-127 | records the stage of an existing row |
| `PipelineTables.PipelineStore.Finish` | backend/src/screener/modules/market/pipeline/repository.py:129-163 | overwrites status, stage, end, counts and error of a row, whatever they were |
| `PipelineTables.PipelineStore.Save` | backend/src/screener/modules/market/watchlist/repository.py:31-45 | replaces the entries of one date, or changes nothing when the check refuses them |
| `PipelineTables.PipelineStore.CommitSuccess` | backend/src/screener/modules/market/pipeline/service.py:117-135 | status and rows change together or not at all |
| `PipelineProtocol.AtMostOneRunning` | backend/src/screener/modules/market/pipeline/repository.py:51-120 | in every reachable state of any number of workers, each reading its own clock, a date has at most one running execution, recovered workers that go on included |
| `PipelineProtocol.StaleRunNeverBlocks` | backend/src/screener/modules/market/pipeline/repository.py:77-120 | a running execution blocks an acquisition exactly while it is not older than the timeout; afterwards it is recorded as failed and the acquisition succeeds unless its mode forbids it |
| `PipelineRows.AcquireDecision` | backend/src/screener/modules/market/pipeline/repository.py:45-103 | which of the four refusals an acquisition meets, or none, as conditions on the timeout, the age of the running row, an earlier success and the mode |
| `PipelineRows.AcquireEffect` | backend/src/screener/modules/market/pipeline/repository.py:83-120 | a stale row is closed as failed whether or not the acquisition succeeds, a success adds one new running row, and nothing else changes |
| `PipelineProtocol.StepWatchlist` | backend/src/screener/modules/market/pipeline/service.py:117-135 | a step changes at most the list of the date it commits, with a success whose persisted count is the length of that list |
| `PipelineProtocol.StoredListIsLastCommit` | backend/src/screener/modules/market/pipeline/service.py:117-167 | in every reachable state the stored list of a date is the one of the most recently committed success, whatever the clocks said; failures, skips, crashes and recoveries never change any list |
| `PipelineProtocol.WriterIsLatestExactly` | backend/src/screener/modules/market/pipeline/repository.py:179-191 | over any run of any workers, recovered ones and forced ones included, the latest success of every date is throughout the run that wrote its stored list and counts its entries, if and only if every accepted success started after all other successes of its date |
| `PipelineProtocol.OneNormalExactly` | backend/src/screener/modules/market/pipeline/repository.py:77-120 | over any run a date has at most one success that was not forced, if and only if every such success finds none of its date when it commits |
| `PipelineProtocol.SecondNormalNeedsRecovery` | backend/src/screener/modules/market/pipeline/repository.py:77-103 | in any run a normal commit finds a normal success of its date only if it, or an earlier normal commit of that date, comes from a worker whose run was recovered as stale |
| `PipelineProtocol.OneNormalUnlessRecovered` | backend/src/screener/modules/market/pipeline/repository.py:77-103 | without such commits a date has at most one normal success throughout, whatever the clocks and the other workers do |
| `PipelineProtocol.ForcedHasSuccess` | backend/src/screener/modules/market/pipeline/repository.py:95-103 | in any run a forced execution only starts once its date has a success |
| `PipelineProtocol.LatestSuccessOwnsList` | backend/src/screener/modules/market/pipeline/repository.py:179-191 | if only running executions commit and each acquisition starts after the earlier ones of its date, a date has at most one normal success, forced runs start after a success, and the latest success is the run that wrote the stored list and counts its entries |
| `PipelineProtocol.RecoveredWorkerOverwrites` | backend/src/screener/modules/market/pipeline/repository.py:77-93 | a run that breaks that order: a recovered worker still commits and the latest success is not the writer of the stored list |
| `PipelineService.DailyWatchlistPipeline.Run` | backend/src/screener/modules/market/pipeline/service.py:56-167 | a whole run: weekend skip, refusal, or one acquisition followed by exactly one finish, a success with the list or a failure charged to the first stage that raises |
| `PipelineService.DailyWatchlistPipeline.Work` | backend/src/screener/modules/market/pipeline/service.py:91-167 | whatever raises between acquisition and commit ends in the failed row and nothing else |
| `PipelineService.WhatARunLeaves` | backend/src/screener/modules/market/pipeline/service.py:108-167 | a failure touches only its own row; a success also replaces the list of its date, with ranks from one, no entry below the minimum, at most the maximum, and as many as its row counts |
| `PipelineRows.FirstFaultMeaning` | backend/src/screener/modules/market/pipeline/service.py:88-152 | a run fails at the first stage of its fixed order that cannot be recorded, raises, or meets a refusal of the ranker |
| `PipelineRows.FinishedRowMeaning` | backend/src/screener/modules/market/pipeline/service.py:117-132 | the row of a finished run: its end, its status and stage, and either its error or what was screened, ranked, qualified and kept |
| `PipelineRows.StoredListMeaning` | backend/src/screener/modules/market/pipeline/service.py:108-135 | the list that a successful run stores for its date is exactly the first ranked candidates that reach the minimum, up to the maximum, each with its own symbol, place and total |
| `PipelineRows.WeekendMeaning` | backend/src/screener/modules/market/pipeline/service.py:65-65 | weekends are the sixth and seventh day of the week that begins with day one |
| `PipelineConformance.CallIsProtocolRun` | backend/src/screener/modules/market/pipeline/service.py:56-167 | from any state that workers can reach, what `DailyWatchlistPipeline.Run` leaves in the tables is the outcome of one acquisition followed by events of its own worker, so every theorem about runs covers calls of the service |
| `Scoring.LinearIsHighIsGood` | backend/src/screener/modules/market/ranking/ranker.py:147-152 | the interpolation of the ranker and the one of the strategy are the same function |
| `Scoring.QuantizeScoreMeaning` | backend/src/screener/modules/market/screening/swing.py:33-39 | a score is a whole number of hundredths, cut off at 0 and at 100 |
| `Scoring.InterpolationMeaning` | backend/src/screener/modules/market/screening/swing.py:42-53 | the interpolated scores are one hundred times the covered share of the distance between the bounds, up to rounding; bounds in the wrong order are rejected |
| `Scoring.TriangularMeaning` | backend/src/screener/modules/market/screening/swing.py:56-64 | the triangular score is the share of the way to the ideal, or of the way left after it |
| `Scoring.VolatilityMeaning` | backend/src/screener/modules/market/ranking/ranker.py:220-228 | the volatility score rises from one to three per cent, is full up to six and falls to twelve, in proportion |
| `Scoring.LinearMonotone` | backend/src/screener/modules/market/ranking/ranker.py:147-152 | a larger value never lowers the score |
| `Scoring.TriangularShape` | backend/src/screener/modules/market/screening/swing.py:56-64 | the triangular score rises to one hundred at the ideal, falls after it and is zero outside |
| `Scoring.VolatilityShape` | backend/src/screener/modules/market/ranking/ranker.py:220-228 | the volatility score rises up to six per cent, falls from three per cent on and is full in between |
| `Scoring.QuantizeScoreTwice` | backend/src/screener/modules/market/screening/swing.py:33-39 | clamping and rounding a score again changes nothing |
| `Scoring.TotalMonotone` | backend/src/screener/modules/market/ranking/ranker.py:235-240 | raising any component never lowers the total |
| `Scoring.TotalMeaning` | backend/src/screener/modules/market/ranking/ranker.py:235-240 | the total is a quarter trend, forty-five per cent setup and fifteen each for liquidity and volatility, rounded |
| `Ranking.SetupIsPrimaryScore` | backend/src/screener/modules/market/screening/swing.py:158-165 | a result passes exactly when the common rules and some setup hold, and its setup component is the score of its primary setup, the first in the setup order among the best |
| `Ranking.EvaluatedIsScorable` | backend/src/screener/modules/market/ranking/ranker.py:211-214 | an evaluated result always has the scores that ranking looks up; they are inside 0..100 because each setup ends in `quantize_score` (`screening/swing.py:38-39`, called at 247, 294 and 359) |
| `Ranking.ValidateRequest` | backend/src/screener/modules/market/ranking/ranker.py:45-55 | the loop with its seen set stops at the first result that did not pass, is blank or repeats a symbol, and accepts exactly when there is none |
| `Ranking.Rank` | backend/src/screener/modules/market/ranking/ranker.py:190-203 | validation, scoring, sorting and numbering of a request, or its first rejection |
| `RankingScores.RankedMeaning` | backend/src/screener/modules/market/ranking/ranker.py:190-246 | each result is ranked once, with the components that its metrics and matched setups give, the weighted total, and its place by total, setup score, primary setup and symbol |
| `Ranking.RankingIgnoresOrder` | backend/src/screener/modules/market/ranking/ranker.py:190-203 | any arrangement of the same results is accepted alike and ranked the same |
| `Ranking.CutIsPrefix` | backend/src/screener/modules/market/pipeline/service.py:108-114 | the candidates at or above the minimum are a prefix of the ranking and what is kept is its first min(qualified, maximum) items with ranks from one |
| `Ranking.BestAreKept` | backend/src/screener/modules/market/pipeline/service.py:108-114 | a candidate left out misses the minimum, or the list is full of candidates that sort before it |
| `Ranking.UnqualifiedDoNotMatter` | backend/src/screener/modules/market/pipeline/service.py:108-114 | candidates below the minimum change neither the members nor the ranks of what is kept |
| `Ranking.CutIsValidWatchlist` | backend/src/screener/modules/market/watchlist/repository.py:131-146 | the kept list is always one that the watchlist accepts, and reading it back gives it unchanged |
| `TokenProtocol.IssuersNeverOverlap` | backend/src/screener/modules/market/infrastructure/toss.py:116-125 | under every interleaving at most one worker is waiting for the issuer, and it holds the lock |
| `TokenProtocol.IssuesAreCoalesced` | backend/src/screener/modules/market/infrastructure/toss.py:116-135 | over any stretch of any interleaving, with the clock moving either way, the issuer completes at most once more than tokens were discarded or expired in it |
| `TokenProtocol.DiscardedAtMostOncePerIssue` | backend/src/screener/modules/market/infrastructure/toss.py:127-132 | a token is discarded at most as often as it was issued, so at most once when the issuer never repeats one, however many workers had it rejected |
| `TokenProtocol.ReturnedIsLive` | backend/src/screener/modules/market/infrastructure/toss.py:116-135 | a token handed out is the one held, was issued more often than discarded, and is valid unless it arrived with no more life than the skew |
| `TokenProtocol.TokenLifetime` | backend/src/screener/modules/market/infrastructure/toss.py:116-135 | a stored token is valid until the skew before the end of its life, a discarded one never, and another token is not discarded |
| `TokenProtocol.SomeoneCanMove` | backend/src/screener/modules/market/infrastructure/toss.py:116-132 | a worker that is not idle can go on, or the holder of the lock can |
| `TokenCache.TokenManager.Get` | backend/src/screener/modules/market/infrastructure/toss.py:116-125 | a `get` with nobody in between calls the issuer exactly when the token is valid at neither look |
| `TokenCache.TokenManager.Invalidate` | backend/src/screener/modules/market/infrastructure/toss.py:127-132 | discards the token only if it is the rejected one |
| `TokenCache.MarketDataProvider.Request` | backend/src/screener/modules/market/infrastructure/toss.py:372-425 | the retry loop ends at the first terminal reply with its outcome, renews the token once with the one that was rejected, and sends at most `max_retries` + 2 requests |
| `TokenCache.StepsAreCounted` | backend/src/screener/modules/market/infrastructure/toss.py:377-425 | every reply that did not end a request used one retry or the one renewal |
| `TokenCache.RetriedIsTransient` | backend/src/screener/modules/market/infrastructure/toss.py:389-423 | retried are exactly network errors, rate limits and server errors below 600 |
| `TokenCache.OutcomeOfCode` | backend/src/screener/modules/market/infrastructure/toss.py:517-538 | which status code gives a response and which one which error |
| `TokenCache.WorstCaseContinues` | backend/src/screener/modules/market/infrastructure/toss.py:377-425 | the bound on the sends is reached |

## Left out

- PortfolioSolvency.SolventExactly: has no highest price; the columns hold at most fourteen digits before the point, and for very large capitals the failing market may need more. The trade columns are not bounded either (`quantity` has 32 bits, money sixteen digits before the point): the failing market buys at one price step, so its quantity can exceed that column.
- PortfolioSolvency.DrawdownPctExactly: has no highest price and no bound on the trade columns either.
- PortfolioUtilization.InRangeExactly: has no highest price and no bound on the trade columns either.
- PortfolioLastDay.LastDayDisagrees: buys at one price step as well, with no bound on the quantity.
- PipelineTables.PipelineStore.Acquire: is one atomic step, as the advisory lock makes it; databases without that lock, and lost updates between sessions, are not modelled.
- PipelineService.DailyWatchlistPipeline.Run: has nobody in between; interleavings are the subject of `PipelineProtocol`. An exception while a failure is being recorded is the crash step there. An exception after the committed success (building or logging the result, still inside the outer `try`) would mark the succeeded row as failed; the model has no such exception.
- TokenCache.TokenManager.Get: has nobody in between; interleavings are the subject of `TokenProtocol`.
- TradeMetrics.CalculateMetrics: gives numbers where the original gives their text.
- Ranking.Rank: takes the evaluation of each setup as given; the window arithmetic of the box, pullback and contraction setups is left out, their scores being one more weighted sum. A missing setup score or one outside 0..100, which evaluation never produces, is the rejection `Unscorable`.
- DecimalText.CompareIsOrder: covers plain numerals; numerals with an exponent, such as `0E-8`, are outside it.
- Open positions are values in a map that is updated, not shared objects: aliasing of a position object is not captured.
- Parsing of parameters from untyped input, row loading and the duplicate-bar error: only the resulting ranges and tables are modelled.
- The 28-digit context of decimal arithmetic: arithmetic is exact between the explicit roundings.
- Reading lists across dates (`latest`, `history`, `exists`), upsert counters, the run lifecycle of backtests and the breakout strategy: they would add only easy members.
- HTTP, JSON mapping, candle pagination, sleeping, Slack, database sessions, schemas, migrations, tokens and passwords of users, and the React components: outside the model.
