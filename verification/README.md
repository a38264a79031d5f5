# hx_quant alert and strategy core, in Dafny

This project models the sequential logic of the hx_quant trading tools. It has four parts.

- **The turnover alert** (`alerts/turnover_alert.py`).
  - `pre_run` collects the stocks of the monitored blocks without duplicates. It also stores each stock's circulating market value, which is the open price times the circulating share count, kept only when both are positive.
  - `_detect_continuous_buy_orders` scans a transaction frame once. It finds the longest contiguous run of buy rows. Equal lengths are decided by strictly larger turnover, so the earliest run wins a full tie.
  - The run is reported when its turnover is strictly above the threshold `cmv / 5000 * 6`.
  - `run` turns each reporting stock into one `AlertData`, in monitoring order.
- **The main alert window** (`alert_monitor_gui.py`).
  - Each alert is classified as a buy, sell or unknown alert from its description.
  - Its numeric fields are read back out of the description with fixed regular expressions. This part is the `DescriptionParser` module.
  - The alert replaces any earlier record for the same stock code in the buy and sell lists.
  - A per-direction, per-stock-name counter is bumped.
  - The window also ranks stocks by count and clears its state on request.
  - The worker's polling step flattens the runners' alert lists and hands the alerts over one at a time.
- **The simpler alert window** (`gui/alert_monitor.py`). It keeps an append-only history, the same list again as the table rows, and a per-name counter. It also has a top-N ranking, row selection and reset.
- **The MACD crossover strategy** (`strategies/macd_strategy.py`).
  - `on_bar` keeps DIF/DEA histories of at most ten entries.
  - It detects golden and death crosses and issues orders that depend on the current position.

Python objects whose fields are updated in place become classes: `TurnoverAlert`, both `AlertMonitorWindow`s, `MacdStrategy`, and the `MacdHistory` that all strategy instances share. Their loops become methods with loop invariants. Each method is proved equal to a specification function, and the properties are proved about those functions.

Python dicts keep insertion order, and `sorted` is stable; both matter for the rankings. So a dict is an association list (`OrderedDict`), and `sorted(..., reverse=True)` is a stable insertion sort (`Ranking`).

The data feed, the alert runners, the MACD indicator, the clock and the user's confirmation are all parameters.

Where the documentation and the code disagree, the model follows the code.

- **The threshold.** The code computes 0.12% of the market value. The docstring, the demo and the repository's own tests describe 1/500, which is 0.2%. `TurnoverAlert.Threshold` states the code's value and proves it lies below 1/500.
- **Rows without a direction.** A row whose `buyorsell` column is missing counts as a buy. The tests in `tests/test_continuous_buy_detection.py` build rows from `buy_vol`/`sell_vol`, which the detector never reads.
- **Cumulative totals.** In `_update_alert` the "existing record" branch (lines 373-383) cannot run, because the first loop has already removed every record with the incoming code. So `total_amount`/`total_ratio` always equal the current values and never accumulate. The model has `assert false` in that branch. Every listed and historical record is proved to be `Settled`, with totals equal to current values.

## Model

| member | source | states |
|---|---|---|
| TurnoverAlert.StepNonBuy | alerts/turnover_alert.py:219-223 | a non-buy row resets the current run (count 0, amount 0, no start) and keeps the recorded best run valid |
| TurnoverAlert.EndingBlocksFitRun | alerts/turnover_alert.py:199-205 | a buy row extends the current run, starting it at this row when the count was 0; no buy block ending at this row is longer than the extended run |
| TurnoverAlert.StepBuyLonger | alerts/turnover_alert.py:208-212 | a run longer than the recorded maximum becomes the recorded run, with its amount, start and end |
| TurnoverAlert.StepBuyRicher | alerts/turnover_alert.py:213-218 | a run of equal length with strictly larger turnover replaces the recorded run |
| TurnoverAlert.StepBuyKeep | alerts/turnover_alert.py:213-218 | a shorter run, or one of equal length and no larger turnover, leaves the recorded run, which stays the best |
| TurnoverAlert.Step | alerts/turnover_alert.py:196-223 | one iteration: a buy extends the current run by one row and its turnover, starting it at this row when there was none; any other row resets it; the recorded maximum never shrinks, at an unchanged length its turnover never drops, and it stays at least the current run |
| TurnoverAlert.StepPreserves | alerts/turnover_alert.py:194-223 | one loop iteration keeps both invariants: the current run ends at the row and is maximal to the left, and the recorded run is the best so far |
| TurnoverAlert.ScanPrefixInvariant | alerts/turnover_alert.py:183-223 | after any prefix of the rows the loop variables describe the current run and the best run of that prefix |
| TurnoverAlert.Scan | alerts/turnover_alert.py:183-223 | the reported count is the longest contiguous buy run; the amount is the largest turnover among runs of that length, the earliest winning ties; the start and end indices bound that all-buy block |
| TurnoverAlert.LongestBuyRunUnique | alerts/turnover_alert.py:208-218 | that characterisation fixes count, amount and indices completely |
| TurnoverAlert.AllBuyRowsFormOneRun | alerts/turnover_alert.py:196-212 | when every row is a buy (including a frame without `buyorsell`) the count is the row count and the amount the total turnover, from the first row to the last |
| TurnoverAlert.Threshold | alerts/turnover_alert.py:180 | the threshold is `cmv * 12 / 10000`, and for a positive market value it is positive and strictly below `cmv / 500` |
| TurnoverAlert.TimeAt | alerts/turnover_alert.py:228-229 | a time exactly when the index is set and inside the frame, and then the time of that row |
| TurnoverAlert.Detect | alerts/turnover_alert.py:165-254 | no result for an empty frame or a stock without market value; otherwise a result exactly when the longest run's turnover is strictly above the threshold, carrying that run, the threshold, `amount / cmv * 100` and the rows' times; a zero market value raises |
| TurnoverAlert.TurnoverAlert.DetectContinuousBuyOrders | alerts/turnover_alert.py:165-254 | the single-pass loop returns exactly `Detect` of the rows and the stored market values |
| TurnoverAlert.ExchangeFor | alerts/turnover_alert.py:90 | Shenzhen exactly for codes starting with `000`, `002` or `300`, Shanghai otherwise |
| TurnoverAlert.AlertForFields | alerts/turnover_alert.py:134-161 | `AlertFor`, one stock's turn of the loop: no alert when the feed fails, the frame is empty or the stock has no market value; an alert only when the detection reports, carrying the stock's code, the name "TurnoverAlert" and a description behind the fixed prefix |
| TurnoverAlert.AlertsForExtend | alerts/turnover_alert.py:133-155 | monitoring one more stock appends exactly that stock's alert, if any, to the alerts so far |
| TurnoverAlert.AlertsFor | alerts/turnover_alert.py:131-163 | no more alerts than entries in the monitored list (one per stock when the list has no duplicates, by `AtMostOneAlertPerStock`); each alert is the one its own stock's detection produces; every stock whose detection reports has an alert, and a failing stock affects no other |
| TurnoverAlert.AlertsInMonitoringOrder | alerts/turnover_alert.py:133-155 | the alerts' codes are a subsequence of the monitored list |
| TurnoverAlert.AtMostOneAlertPerStock | alerts/turnover_alert.py:133-155 | with a duplicate-free monitored list, no code gets two alerts |
| TurnoverAlert.TurnoverAlert.Run | alerts/turnover_alert.py:131-163 | the loop over the monitored stocks returns exactly `AlertsFor` of them, named "TurnoverAlert" with the fixed description prefix |
| TurnoverAlert.MarketValue | alerts/turnover_alert.py:107-115 | a market value, when one is recorded, is positive |
| TurnoverAlert.MarketValuesExact | alerts/turnover_alert.py:85-122 | `MarketValues`, the entries the loop writes: exactly the monitored stocks whose open price and share count are both present and positive get an entry, and its value is the price times the count |
| TurnoverAlert.Deduplicate | alerts/turnover_alert.py:78 | the de-duplicated list has no repeats and the same stocks |
| TurnoverAlert.Gathered | alerts/turnover_alert.py:64-76 | the stocks collected from the blocks are exactly the stocks of the blocks whose lookup succeeds; a failing block adds nothing |
| TurnoverAlert.TurnoverAlert.constructor | alerts/turnover_alert.py:12-17 | no monitored stocks and an empty market-value map |
| TurnoverAlert.TurnoverAlert.PreRun | alerts/turnover_alert.py:55-130 | without `monitor_blks` nothing changes; otherwise the monitored list holds the old stocks and every block's stocks, without duplicates, and the map gains the market values of the monitored stocks while keeping earlier entries |
| TurnoverAlert.TurnoverAlert.StoreMarketValues | alerts/turnover_alert.py:85-122 | the market-value loop adds exactly `MarketValues` of the monitored stocks to the map |
| DescriptionParser.ClassRun | alert_monitor_gui.py:469-472 | the greedy `C+` run from a position: all class characters, followed by the end of the text or a character outside the class |
| DescriptionParser.ClassRunLongest | alert_monitor_gui.py:469-472 | no run of class characters from that position is longer than the greedy one |
| DescriptionParser.MatchAt | alert_monitor_gui.py:469-472 | a match found at a position is a real match of prefix, class run and suffix there |
| DescriptionParser.MatchAtLongest | alert_monitor_gui.py:469-472 | whenever the pattern matches at a position a match is found there, and it is the longest capture (backtracking from the greedy run) |
| DescriptionParser.SearchFrom | alert_monitor_gui.py:469-472 | the position found is at or after the start and the pattern matches there |
| DescriptionParser.SearchFromFirst | alert_monitor_gui.py:469-472 | `re.search` semantics: the pattern matches at no earlier position, and the capture is the longest at the position found |
| DescriptionParser.ExtractValue | alert_monitor_gui.py:469-472 | a capture, when there is one, is non-empty and all class characters |
| DescriptionParser.ExtractValueMatches | alert_monitor_gui.py:469-472 | the capture is the text of a real match, and there is none exactly when the pattern occurs nowhere |
| DescriptionParser.ExtractWritten | alert_monitor_gui.py:469-472 | a capture written between prefix and suffix is read back unchanged when the prefix does not occur earlier and the suffix does not start with a class character |
| DescriptionParser.MatchAtExact | alert_monitor_gui.py:469-472 | a run ended by a non-class character followed by the suffix is the match found at that position |
| DescriptionParser.SearchSkips | alert_monitor_gui.py:469-472 | when the prefix starts nowhere before a position where the pattern matches, the search returns that position and its match |
| DescriptionParser.ShowNatDigitsValue | alerts/turnover_alert.py:235 | `int` of the digits `str` writes for a count gives the count back |
| DescriptionParser.RemoveCommas | alert_monitor_gui.py:339 | `replace(',', '')` keeps exactly the non-comma characters |
| DescriptionParser.RemoveCommasAppend | alert_monitor_gui.py:339 | stripping commas distributes over concatenation |
| DescriptionParser.ParseDecimal | alert_monitor_gui.py:339-341 | `float` of digits and dots succeeds exactly with at least one digit and at most one dot, giving a non-negative value; otherwise it raises |
| DescriptionParser.ParseDecimalDigits | alert_monitor_gui.py:339-341 | `float` of a non-empty digit string is its integer value |
| DescriptionParser.ParseDecimalJoin | alert_monitor_gui.py:340-341 | `float` of digits, a dot and digits is the whole part plus the fraction over its power of ten |
| DescriptionParser.ParseDecimalFixed | alerts/turnover_alert.py:237 | a fixed-point number written as `{w}.{f}` parses back to its value |
| DescriptionParser.CountField | alert_monitor_gui.py:330-338 | the count is 0 when the pattern is absent, otherwise `int` of the capture |
| DescriptionParser.AmountField | alert_monitor_gui.py:332-339 | the amount is 0 when absent; the conversion fails exactly when the capture holds only commas |
| DescriptionParser.RatioField | alert_monitor_gui.py:333-341 | a ratio is 0 when absent, otherwise `float` of the capture, failing as `float` does |
| DescriptionParser.ShowGroupedValue | alerts/turnover_alert.py:236 | removing the separators of a comma-grouped integer leaves digits whose value is the integer |
| DescriptionParser.GroupedDigits | alerts/turnover_alert.py:236 | the separators of a number of at least 1000 sit between its thousands groups |
| DescriptionParser.CountFieldReadsBack | alert_monitor_gui.py:330-337 | a count written as `连续{n}笔` reads back as `n` |
| DescriptionParser.AmountFieldReadsBack | alert_monitor_gui.py:332-339 | an amount written with thousands separators as `成交额{n}万元` reads back as `n` |
| DescriptionParser.RatioFieldReadsBack | alert_monitor_gui.py:334-341 | a ratio written as `占流通市值{w}.{f}%` reads back as its value |
| AlertMonitorGui.Classify | alert_monitor_gui.py:315-326 | buy exactly when the description contains "买单"; sell exactly when it does not but contains "卖单"; unknown otherwise |
| AlertMonitorGui.TurnoverAlertsAreBuys | alerts/turnover_alert.py:154 | every description the turnover alert writes is classified as a buy alert |
| AlertMonitorGui.ReadAlert | alert_monitor_gui.py:304-342 | skipped exactly when `code` or `stock_name` is missing; a failed `float` conversion stores nothing; otherwise the record has the alert's code, name and description (defaults `异动` and ""), its classification and the five fields read from the description |
| AlertMonitorGui.Completed | alert_monitor_gui.py:384-387 | the completed record's totals equal its current amount and ratio |
| AlertMonitorGui.WithoutCode | alert_monitor_gui.py:361-364 | the first loop never lengthens the list (its members are given by `WithoutCodeMembers`) |
| AlertMonitorGui.WithoutCodeMembers | alert_monitor_gui.py:361-364 | the first loop keeps exactly the records of other codes |
| AlertMonitorGui.OfKind | alert_monitor_gui.py:394-395 | a split list is never longer than the merged list (its members are given by `OfKindMembers`) |
| AlertMonitorGui.OfKindMembers | alert_monitor_gui.py:394-395 | each split list holds exactly the records of its type |
| AlertMonitorGui.DropCode | alert_monitor_gui.py:357-364 | the first loop builds the records of other codes, in order |
| AlertMonitorGui.FindCode | alert_monitor_gui.py:367-371 | the search loop finds the first record with the code, or reports that none has it |
| AlertMonitorGui.Merged | alert_monitor_gui.py:357-392 | the merged list ends with the completed incoming record, after at most the old records |
| AlertMonitorGui.MergedSplit | alert_monitor_gui.py:357-395 | the new buy list is the old one without the incoming code, followed by the new record when it is a buy alert; the same for sell |
| AlertMonitorGui.MergedCodeCounts | alert_monitor_gui.py:357-395 | afterwards the incoming code occurs exactly once across buy and sell lists for a buy or sell alert and not at all for an unknown one; other codes occur as often as before |
| AlertMonitorGui.MergedKeepsOthers | alert_monitor_gui.py:361-395 | the records of other codes keep their contents and order in both lists |
| AlertMonitorGui.Bump | alert_monitor_gui.py:399-404 | the dict stays well formed, the alert's stock has an entry, and its count is one more than before |
| AlertMonitorGui.Tally | alert_monitor_gui.py:397-404 | an alert bumps its own side by one for its stock and leaves the other side's dict unchanged; non-buy alerts count as sell |
| AlertMonitorGui.BumpEntry | alert_monitor_gui.py:397-404 | the alert's stock count rises by exactly one and its totals are overwritten, not summed; every other stock's entry is unchanged |
| AlertMonitorGui.BumpKeepsStatsMatch | alert_monitor_gui.py:397-404 | bumping the alert's own side keeps that side's counts and totals in agreement with the extended history |
| AlertMonitorGui.OtherSideKeepsStatsMatch | alert_monitor_gui.py:397-401 | the other side's statistics are untouched and stay in agreement; non-buy alerts go to `sell_stats` |
| AlertMonitorGui.MergeKeepsListsValid | alert_monitor_gui.py:357-395 | the merge keeps buy records in the buy list and sell records in the sell list, at most one record per code, and every listed total equal to its current value |
| AlertMonitorGui.RecordKeepsHistoryValid | alert_monitor_gui.py:345-404 | recording a completed alert and bumping its side keeps the history settled and both statistics dicts in agreement with it |
| AlertMonitorGui.HandleKeepsValid | alert_monitor_gui.py:345-404 | one handled alert gives the split lists above and keeps the window's invariant |
| AlertMonitorGui.RankStats | alert_monitor_gui.py:564-586 | a placeholder exactly for empty statistics; otherwise `min(top_n, len)` entries from the statistics in non-increasing count, none left out counting more than one kept |
| AlertMonitorGui.RankStatsKeepsTieOrder | alert_monitor_gui.py:569-572 | stocks with equal counts keep their insertion order in the ranking |
| AlertMonitorGui.AlertMonitorWindow.TopBuyStocks | alert_monitor_gui.py:564-574 | the "no buy data" placeholder exactly when `buy_stats` is empty; otherwise `min(top_n, len)` entries of `buy_stats` in non-increasing count |
| AlertMonitorGui.AlertMonitorWindow.TopSellStocks | alert_monitor_gui.py:576-586 | the same ranking over `sell_stats` |
| AlertMonitorGui.SideCountPositive | alert_monitor_gui.py:524-527 | a stock has a count on a side exactly when the history holds one of its alerts on that side |
| AlertMonitorGui.UniqueNamesAgreeWithStats | alert_monitor_gui.py:521-527 | the buy unique count covers exactly the stocks in `buy_stats`; the sell count's stocks are among those of `sell_stats` |
| AlertMonitorGui.AlertMonitorWindow.constructor | alert_monitor_gui.py:119-125 | empty history, lists and statistics |
| AlertMonitorGui.AlertMonitorWindow.UpdateAlert | alert_monitor_gui.py:354-407 | `_update_alert`: the record is completed with its own totals (the existing-record branch is unreachable), merged and split by type, and its side's statistics bumped |
| AlertMonitorGui.AlertMonitorWindow.Handle | alert_monitor_gui.py:345-348 | the completed record is appended to the history and merged into the lists, keeping the invariant |
| AlertMonitorGui.AlertMonitorWindow.UpdateAlerts | alert_monitor_gui.py:302-352 | nothing changes for an empty list, a missing `code`/`stock_name` or a failed conversion; otherwise exactly one record is appended to the history, the lists and statistics are updated as above, and the invariant holds |
| AlertMonitorGui.AlertMonitorWindow.ClearHistory | alert_monitor_gui.py:588-604 | when confirmed, history, lists and both statistics dicts are empty; otherwise nothing changes |
| AlertMonitorGui.Flatten | alert_monitor_gui.py:98-101 | the flattened list holds exactly the alerts of the runners' non-`None` lists |
| AlertMonitorGui.FlattenAlerts | alert_monitor_gui.py:98-101 | the flattening loop concatenates the runners' lists in order, skipping `None` and empty lists |
| AlertMonitorGui.OneByOne | alert_monitor_gui.py:106-107 | one single-alert signal per alert, in order |
| AlertMonitorGui.WorkerSignals | alert_monitor_gui.py:88-113 | nothing unless running and initialised; otherwise the checking status first; a raising runner ends with the error; a batch of `n > 0` alerts gives `n + 3` signals with the count second, and no alerts gives two |
| AlertMonitorGui.RunOnce | alert_monitor_gui.py:88-113 | `run_once` emits nothing unless running and initialised; then a status, followed by an error when the runners raise, by a count, one signal per alert and the batch signal, or by "no new alerts" |
| AlertMonitorGui.WorkerDeliversEveryAlert | alert_monitor_gui.py:104-108 | a successful step hands the window every alert of every runner, one per signal and in order |
| AlertMonitorGui.DeliveredBatch | alert_monitor_gui.py:104-108 | the signals announcing a batch carry exactly its alerts, in order |
| AlertMonitorGui.WorkerCompletesBatch | alert_monitor_gui.py:104-110 | the batch signal is sent exactly when some alert was found, and always last |
| AlertMonitor.RecordOf | gui/alert_monitor.py:228-234 | a record exists exactly when the alert has all four attributes, and carries its code and stock name |
| AlertMonitor.Records | gui/alert_monitor.py:226-236 | one record per alert, in input order |
| AlertMonitor.ProcessedCount | gui/alert_monitor.py:226-242 | the loop gets through every alert before the first one missing an attribute, and stops there |
| AlertMonitor.ProcessedCountIs | gui/alert_monitor.py:226-242 | the processed count is determined by the first alert missing an attribute |
| AlertMonitor.Count | gui/alert_monitor.py:239 | the counter stays a dict with unique keys (`CountKeepsStatsMatch` gives the counts) |
| AlertMonitor.CountKeepsStatsMatch | gui/alert_monitor.py:239 | counting a record keeps the counter equal to the per-name counts of the history, with entries only for alerted names |
| AlertMonitor.CountsGrow | gui/alert_monitor.py:239 | each name's count rises by the number of added records with that name; other names are unchanged |
| AlertMonitor.UniqueStocksCount | gui/alert_monitor.py:310 | the distinct stock names of the history are the counter's keys, and their number is the counter's size |
| AlertMonitor.TopStocks | gui/alert_monitor.py:339-346 | `min(top_n, len)` entries from the counter in non-increasing count, none left out counting more than one kept |
| AlertMonitor.TopStocksKeepsTieOrder | gui/alert_monitor.py:341-342 | names with equal counts keep their insertion order |
| AlertMonitor.AlertMonitorWindow.GetTopStocks | gui/alert_monitor.py:339-346 | `min(top_n, len)` entries of the window's counter, in non-increasing count |
| AlertMonitor.AlertMonitorWindow.constructor | gui/alert_monitor.py:61-65 | empty history, table list and counter |
| AlertMonitor.AlertMonitorWindow.UpdateAlerts | gui/alert_monitor.py:222-249 | history and table list grow by the processed alerts' records in input order, and each name's count by its number of processed alerts |
| AlertMonitor.AlertMonitorWindow.SelectedAlert | gui/alert_monitor.py:286-302 | a detail exists exactly for `0 <= row < len(current_alerts)`: that row's record and its stock's count |
| AlertMonitor.SelectedAlertIsCounted | gui/alert_monitor.py:286-302 | the count shown for a selected alert includes that alert |
| AlertMonitor.AlertMonitorWindow.Statistics | gui/alert_monitor.py:307-310 | the total is the history length and the unique count the number of distinct stock names in it, which is the number of stocks the counter holds |
| AlertMonitor.AlertMonitorWindow.ClearHistory | gui/alert_monitor.py:348-358 | when confirmed, history, table list and counter are empty; otherwise nothing changes |
| MacdStrategy.Push | strategies/macd_strategy.py:82-86 | the newest value is last and a history within ten entries stays within ten |
| MacdStrategy.PushIsLastTen | strategies/macd_strategy.py:82-86 | one push keeps exactly the last ten values of the extended history |
| MacdStrategy.PushAllKeepsLastTen | strategies/macd_strategy.py:82-86 | after any number of bars the history is exactly the last ten values pushed, oldest dropped first |
| MacdStrategy.CrossOf | strategies/macd_strategy.py:89-103 | no cross with fewer than two entries; golden exactly when DIF is now above DEA and was not above before; death exactly when it is now below and was not below before; at most one fires |
| MacdStrategy.Orders | strategies/macd_strategy.py:92-103 | no order without a cross or when already long on a golden (short on a death) cross; otherwise the order opening the new direction comes last, preceded by a cover (sell) exactly when the position was the opposite one (`OrdersKeepPositionInRange` gives the resulting position) |
| MacdStrategy.OrdersKeepPositionInRange | strategies/macd_strategy.py:90-103 | with full fills the position stays flat, long or short by the fixed size: golden ends long, death ends short, no cross leaves it |
| MacdStrategy.MacdHistory.constructor | strategies/macd_strategy.py:29-30 | both histories start empty |
| MacdStrategy.MacdHistory.Record | strategies/macd_strategy.py:82-86 | both histories get the new value last, drop the oldest past ten entries, and keep equal length |
| MacdStrategy.MacdStrategy.constructor | strategies/macd_strategy.py:23-28 | indicator values zero, flat position, the fixed size, and the shared history |
| MacdStrategy.MacdStrategy.OnBar | strategies/macd_strategy.py:60-105 | `cancel_all` comes first on every bar; before the bar buffer is initialised nothing else happens; otherwise the indicator values are stored and pushed, and the cross decides the orders from the position, followed by `put_event` |
| Ranking.SortDescending | alert_monitor_gui.py:569-570 | the sort keeps the length (its order and contents are given by `SortCorrect` and `SortStable`) |
| Ranking.SortCorrect | alert_monitor_gui.py:569-570 | the descending sort is a permutation in non-increasing key order |
| Ranking.SortStable | alert_monitor_gui.py:569-570 | entries with equal keys keep their order (Python's sort is stable) |
| Ranking.PrefixDominates | alert_monitor_gui.py:572 | the first `top_n` of a sorted list hold the largest keys |
| Ranking.TopN | alert_monitor_gui.py:569-572 | `sorted(...)[:top_n]` has `min(top_n, len)` entries from the input, in non-increasing key order, and none left out has a larger key than one kept |
| Ranking.TopNKeepsTieOrder | alert_monitor_gui.py:569-572 | ties appear in their input order |
| OrderedDict.Get | alert_monitor_gui.py:399-401 | a lookup gives the stored value, or the default for a missing key |
| OrderedDict.Put | alert_monitor_gui.py:399-404 | assignment keeps keys unique, keeps an existing key's place, appends a new key last, and changes no other entry |
| OrderedDict.PutGet | alert_monitor_gui.py:399-404 | after assignment the key maps to the new value and every other key to its old value |
| OrderedDict.KeySetSize | gui/alert_monitor.py:310 | a dict has as many entries as distinct keys |

## Left out

- Qt windows, widgets, tables, timers, signals and threads are not modelled. The worker's signals are a list of values. `start_monitoring`/`stop_monitoring` become the `isRunning`/`initialized` parameters of `RunOnce`.
- Logging (`_log`, `configure_logging`) and every text the windows only display are not modelled: status labels, `add_alert_to_table`, `refresh_alert_table`, `show_alert_detail` formatting, and the statistics panel text. The `len(alerts_history) % 3` refresh of the statistics panel is display-only and is not modelled either.
- `on_alert_selected` of `alert_monitor_gui.py` reads the code back from a table cell, so it is not modelled. The simpler window's row bounds are (`SelectedAlert`).
- `is_recent_alert` and `recent_alerts` depend on the wall clock. `export_alerts` writes files. Neither is modelled.
- The data feed (`TdxDatafeed`: block lists, daily bars, finance data, transactions), `AlertsRunner.run_alerts` and `load_config` are given as functions or values. The same goes for the TA-Lib MACD computation and the `ArrayManager.inited` flag. An exception in any of them is `None`.
- The engine's order calls are values of `Action`. The position `pos` changes when the engine fills orders, so `OnBar` leaves it alone. `OrdersKeepPositionInRange` assumes full fills.
- Floating point is modelled as exact `real` arithmetic, so rounding and NaN are not modelled. A zero market value with turnover above the threshold raises `ZeroDivisionError`; the model returns `Raised`, and `run` skips that stock.
- `\d` is modelled as the ASCII digits. Python's `re` also accepts other Unicode decimal digits.
- The description's number formatting (`:,.0f`, `:.3f`) is not modelled as text. The round-trip lemmas use an integer written with thousands separators and a decimal `{w}.{f}` instead.
- Python's `list(set(...))` has no defined order. `Deduplicate` keeps the last occurrence of each stock, and only its contents and distinctness are stated.
- Frame rows are identified by their position. A pandas index other than `0..n-1` is not modelled, and a frame without a `time` column (a `KeyError`) is not modelled either.
- `AlertData` has no `stock_name` attribute (`alerts/alerts_runner.py` is not part of this model). The main window would therefore skip every turnover alert. The alert and the windows are modelled separately, on `IncomingAlert` values whose attributes may all be missing.
- `IncomingAlert` distinguishes a missing attribute from a present string only. An attribute present with the value `None` is not modelled, because `AlertData` (`alerts/alerts_runner.py:6-10`) sets every attribute to a string. With such an attribute the source differs from the model as follows.
  - In `gui/alert_monitor.py`, an alert whose `descr` is `None` is still appended and counted (lines 228-239) before `add_alert_to_table` raises. `AlertMonitor.RecordOf` stops before recording it.
  - In `alert_monitor_gui.py`, a `descr` of `None` raises at line 316, where `AlertMonitorGui.ReadAlert` would use "". A `code` of `None` is processed by the source, but the model skips it.
- The unused `seen_codes` set of `_update_alert` is not modelled.
- The Python class attributes `dif_history`/`dea_history` are shared by every strategy instance. This is modelled by one `MacdHistory` object that the strategies share.
