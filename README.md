# dividend-calculator core, modelled in Dafny

This project models the core of **dividend-calculator**. It is a tool for Korean ETF dividend investors. It builds a universe of ETFs with their distribution history, trailing-twelve-month (TTM) yields, estimated yields and returns. It keeps one or more portfolios of holdings and computes a portfolio's weighted yield and income. It also offers CSV import and export of holdings, and sector and net-purchase insights.

What is modelled, one Dafny module per file:

- `sector.dfy` (`SectorClassifier`): `classify_sector`, keyword buckets tried in priority order.
- `history.dfy` (`DistributionHistory`): number cleaning, the distribution-history sources and their precedence, the HTML column rule, and the retrying fetch of the dividend API.
- `metrics.dfy` (`DistributionMetrics`): the TTM scan, frequency inference, the yield estimate, the income figures and the yield label and warning.
- `horizons.dfy` (`Horizons`): simple returns, CAGR and total return, and the per-horizon derivation in `process_single_ticker`.
- `quote.dfy` (`Quote`): the Naver quote record, its backfill from the stock page, the daily change, the returns taken from price history, and name resolution.
- `refresh.dfy` (`Refresh`): ticker selection and discovery, the completion loop with its progress percentage, the cache fallback columns, the target list and the stop-or-merge end of a run.
- `portfolio.dfy` (`PortfolioStore`) and `engine.dfy` (`PortfolioEngine`): the account-based `PortfolioStorage` with its load-time migrations, and `PortfolioEngine.calculate`.
- `flat_portfolio.dfy` (`FlatPortfolio`): the older flat `PortfolioStorage` of the v1.0.1 backup.
- `bulk.dfy` (`BulkPositions`) and `update_task.dfy` (`UpdateTask`): the bulk-update filter and `run_update_task`, shared by both Flask front ends.
- `account_csv.dfy` (`AccountCsv`): the CSV import, export and update-target handlers of the v1.0.3 front end.
- `flat_csv.dfy` (`FlatCsv`): the CSV and JSON import and export handlers of the v1.0.1 front end.
- `insight.dfy` (`Insight`): `get_sector_rotation` and the capped ranking of `process_df`.
- `common.dfy` (`Common`) and `sorting.dfy` (`Sorting`): shared string, number and sort helpers.

Conventions:

- Dates are day numbers, and "today" is a parameter. `_parse_date_any` is a function parameter.
- Prices and amounts are integers. Yields and returns are reals; rounding to 2 or 4 places is not modelled.
- A dictionary is a `map`. Where the source iterates over one, the model visits its keys in an unspecified order (`Common.KeysOf`). Every result is proved for any such order.
- Objects whose fields the source updates become classes. These are the storages, the update status and the quote record. A portfolio file is a field holding either `Missing`, `Unreadable` or a stored document.
- Loops become `while`/`for` loops proved against specification functions. The properties the source promises are lemmas about those functions.

Verify with `dafny verify` on all `.dfy` files together.

## Model

| member | source | states |
|---|---|---|
| SectorClassifier.FirstHit | kr_etf_investor/loader.py:381-440 | the index found is the first bucket, in priority order, whose keywords occur in the text; None exactly when no bucket is hit |
| SectorClassifier.Classify | kr_etf_investor/loader.py:376-440 | `classify_sector` answers a bucket's label exactly when that bucket is hit and no earlier one is; it answers "[기타] 분류미상" exactly when no bucket is hit |
| SectorClassifier.ClassifyText | kr_etf_investor/loader.py:383-440 | the same first-hit characterisation for an already upper-cased search text |
| SectorClassifier.LabelsDistinct | kr_etf_investor/loader.py:383-440 | the thirteen labels are pairwise different and differ from the unclassified label, so a label identifies its bucket |
| SectorClassifier.BondFirst | kr_etf_investor/loader.py:383-385 | a bond/cash keyword in the text decides "[자산] 채권/현금" whatever else it contains |
| SectorClassifier.CaseInsensitive | kr_etf_investor/loader.py:381 | the search text is upper-cased, so upper-casing the name and index first changes nothing |
| DistributionHistory.KeepNumChars | kr_etf_investor/loader.py:73 | the cleaned text is no longer than the input and holds only digits, '.' and '-' |
| DistributionHistory.KeepNumCharsCounts | kr_etf_investor/loader.py:73 | each digit, '.' and '-' is kept as often as it occurs; every other character is dropped |
| DistributionHistory.CleanNum | kr_etf_investor/loader.py:70-73 | `_clean_num(None)` is "" and otherwise the text with every non-numeric character removed |
| DistributionHistory.KeepNumCharsConcat | kr_etf_investor/loader.py:73 | cleaning works character by character: it distributes over concatenation |
| DistributionHistory.KeepNumCharsFixed | kr_etf_investor/loader.py:73 | a text made only of kept characters is unchanged |
| DistributionHistory.SafeInt | kr_etf_investor/loader.py:107-111 | a run of digits, or one after a "+" or "-", with white space around it, gives its value (negated after "-"); any other text, where `int()` raises, gives the default 0; a negative result comes only from a leading "-" |
| DistributionHistory.CleanNumIdempotent | kr_etf_investor/loader.py:70-73 | cleaning a cleaned text changes nothing |
| DistributionHistory.SafeIntPrinted | kr_etf_investor/loader.py:107-111 | `_safe_int` of a printed natural number gives the number back |
| DistributionHistory.ApiRows | kr_etf_investor/loader.py:595-600 | the API rows are exactly the pairs whose date parses and whose amount reads as an integer > 0 |
| DistributionHistory.ManualRows | kr_etf_investor/loader.py:587-593 | the manual rows are exactly the override items whose date parses, whatever their amount |
| DistributionHistory.RemoveSpaces | kr_etf_investor/loader.py:158-159 | the result holds no space and is no longer than the input |
| DistributionHistory.RemoveSpacesConcat | kr_etf_investor/loader.py:158-159 | removing spaces distributes over concatenation |
| DistributionHistory.FindColumn | kr_etf_investor/loader.py:156-161 | `find_col` answers the first column that, spaces removed, contains a space-free key; None exactly when no column does |
| DistributionHistory.ColumnMatchesMeans | kr_etf_investor/loader.py:158-159 | a column matches exactly when, spaces removed, it contains one of the keys with spaces removed |
| DistributionHistory.CellRows | kr_etf_investor/loader.py:171-176 | a table row is kept exactly when both cells are present, the date parses and the cleaned amount is a non-empty digit run |
| DistributionHistory.TableRows | kr_etf_investor/loader.py:163-176 | every amount read from a table is ≥ 0, and a table yields rows only when both a date and a distinct amount column were found |
| DistributionHistory.HtmlRows | kr_etf_investor/loader.py:145-182 | the rows of all tables, each exactly once, newest first |
| DistributionHistory.SharedColumn | kr_etf_investor/loader.py:163-176 | a table whose first column matches both the date and the amount rule yields no rows |
| DistributionHistory.SharedColumnExample | kr_etf_investor/loader.py:153-159 | "분배금 지급기준일" matches both the date keys and the amount keys |
| DistributionHistory.NormalizeProps | kr_etf_investor/loader.py:610-611 | `list(set(...))` plus the date sort yield each input row exactly once, newest first |
| DistributionHistory.NormalizeTwice | kr_etf_investor/loader.py:610-611 | de-duplicating and sorting again changes nothing |
| DistributionHistory.BuildHistory | kr_etf_investor/loader.py:586-611 | API rows if any, else manual rows if any, else the HTML-table rows when the page text is non-empty, else none; the result has no duplicates and is sorted newest first |
| DistributionHistory.ChosenHistory | kr_etf_investor/loader.py:602-611 | the source precedence stated on sets of rows: the result holds exactly the rows of the chosen source |
| DistributionHistory.DotsToDashes | kr_etf_investor/loader.py:227 | every '.' of the date text becomes '-' and nothing else changes |
| DistributionHistory.Payload | kr_etf_investor/loader.py:222-231 | the pairs are exactly those of the usable items: a missing date is "", a missing amount "0", and an item is usable when its dashed date is non-empty and its amount neither "" nor "0"; a missing `result` gives no pairs |
| DistributionHistory.PayloadConcat | kr_etf_investor/loader.py:225-231 | the pairs of consecutive item lists follow each other, so the answer's order is kept |
| DistributionHistory.PayloadOne | kr_etf_investor/loader.py:226-231 | one item gives its pair when usable and nothing otherwise |
| DistributionHistory.FetchDividendHistory | kr_etf_investor/loader.py:209-237 | at most three attempts; only 403/429 and exceptions retry; a 200 returns its payload and any other status stops with no pairs |
| DistributionMetrics.ScanTtm | kr_etf_investor/loader.py:614-624 | the loop's count and amount are the size and the sum of the rows dated at or after today − 365 |
| DistributionMetrics.Window | kr_etf_investor/loader.py:620 | the window holds exactly the input rows dated at or after today − 365 |
| DistributionMetrics.TtmAsFilter | kr_etf_investor/loader.py:614-624 | the accumulator equals count and sum of the window; its date is that of the window's first row |
| DistributionMetrics.TtmOf | kr_etf_investor/loader.py:614-624 | the count never exceeds the rows scanned, and a last payout date is set exactly when some row was counted |
| DistributionMetrics.TtmDateIffCount | kr_etf_investor/loader.py:617-624 | `dist_ttm_last_date` is set exactly when the TTM count is positive |
| DistributionMetrics.TtmNewest | kr_etf_investor/loader.py:610-624 | on the date-sorted history the TTM date is the newest in-window date |
| DistributionMetrics.TtmOrderFree | kr_etf_investor/loader.py:614-624 | the TTM count and amount do not depend on the order of the rows |
| DistributionMetrics.WindowOrderFree | kr_etf_investor/loader.py:619-622 | the size and the sum of the window do not depend on the order of the rows |
| DistributionMetrics.TtmYield | kr_etf_investor/loader.py:636-644 | the yield is amount / price × 100 when count > 0 and price > 0, and 0 otherwise |
| DistributionMetrics.TtmExample | kr_etf_investor/loader.py:614-644 | rows at −10, −100 and −400 days of 100 each at price 1000 give count 2, amount 200, newest date −10 and yield 20 |
| DistributionMetrics.GapFreq | kr_etf_investor/loader.py:630-634 | gaps of 20-40, 80-110, 170-200 and 340-380 days give 12, 4, 2 and 1, and each of those results only for its band; any other gap gives 0; a positive result times the gap lies between 240 and 480 days |
| DistributionMetrics.InferFreq | kr_etf_investor/loader.py:627-634 | a parsed frequency, or a history of fewer than two rows, is left as it is; otherwise the frequency is that of the gap between the first two rows |
| DistributionMetrics.GapFreqBands | kr_etf_investor/loader.py:631-634 | gaps 30, 91, 182 and 365 give 12, 4, 2 and 1; gaps 60, 0 and 400 give 0 |
| DistributionMetrics.InferFreqFromNewest | kr_etf_investor/loader.py:628-630 | for every history of two or more rows only the first two rows count, their order does not matter, and a gap of 20 to 40 days gives 12 |
| DistributionMetrics.EstimateOf | kr_etf_investor/loader.py:646-654 | the estimate is made exactly when TTM count is 0 and recent, frequency and price are all > 0; it is recent × frequency with yield amount / price × 100, else all zero and "" |
| DistributionMetrics.EstimateExample | kr_etf_investor/loader.py:651-654 | recent 50, frequency 12 at price 1000 estimate 600 a year, yield 60 |
| DistributionMetrics.DivInfoOf | kr_etf_investor/loader.py:613-654 | a positive TTM count rules out the estimate; a zero count gives zero TTM amount and yield |
| DistributionMetrics.IncomeYieldAnnual | kr_etf_investor/loader.py:682-687 | the TTM yield if > 0, else the estimated yield if > 0, else 0 |
| DistributionMetrics.IncomeAmountAnnual | kr_etf_investor/loader.py:689-694 | the TTM amount if > 0, else the estimated amount if > 0, else 0 |
| DistributionMetrics.YieldLabel | kr_etf_investor/loader.py:879 | "TTM", "EST" or "NONE", each exactly under its condition |
| DistributionMetrics.WarningMatchesLabel | kr_etf_investor/loader.py:836-879 | `dist_warning` holds exactly when the label is "NONE"; the label names the yield that is used |
| DistributionMetrics.DistWarning | kr_etf_investor/loader.py:878 | the warning is raised exactly when neither the trailing nor the estimated yield is positive |
| DistributionMetrics.MonthlyIncomeEst | kr_etf_investor/loader.py:846-847 | twelve months of the monthly estimate make the annual income amount |
| DistributionMetrics.WarningWithIncome | kr_etf_investor/loader.py:878 | at price 0 a TTM payout still counts as income but its yield is 0, so the warning is raised |
| DistributionMetrics.EstimateUsed | kr_etf_investor/loader.py:651-694 | with no TTM rows the estimate supplies the yield, the amount and the "EST" label |
| Horizons.CalcReturnPct | kr_etf_investor/loader.py:713-719 | 0 when past ≤ 0; otherwise (now − past) / past × 100, positive exactly when now > past and negative exactly when now < past |
| Horizons.ReturnExample | kr_etf_investor/loader.py:713-719 | 100 against 80 is a 25 % return |
| Horizons.CalcCagr | kr_etf_investor/loader.py:119-125 | 0 unless past, now and years are all positive; otherwise ((now / past)^(1/years) − 1) × 100 |
| Horizons.CagrOneYear | kr_etf_investor/loader.py:713-719 | over one year the CAGR is the plain return |
| Horizons.TotalCagr | kr_etf_investor/loader.py:127-133 | ((1 + pc)(1 + iy) − 1) × 100 in percent, that is pc + iy + pc·iy / 100 |
| Horizons.TotalCagrParts | kr_etf_investor/loader.py:127-133 | symmetric in its two rates, 0 is neutral, and with non-negative rates it is at least their sum |
| Horizons.TotalReturnFromCagr | kr_etf_investor/loader.py:135-140 | over one year the total return is the CAGR; over zero years it is 0 |
| Horizons.TotalReturnGrowth | kr_etf_investor/loader.py:135-140 | a zero CAGR gives a zero return; a non-negative one compounds to at least itself |
| Horizons.PastPrice | kr_etf_investor/loader.py:793-805 | the horizon's closing price from the master table, 0 when the ticker or that price is missing |
| Horizons.PriceNow | kr_etf_investor/loader.py:795-812 | a positive updated price wins; otherwise the master close, or 0 for an unknown ticker |
| Horizons.Derive | kr_etf_investor/loader.py:817-844 | no past price means zero CAGR, total CAGR and total return; a computed non-zero return wins; when none is computed the 1m/3m/6m/1y site return is used if present, else 0; with a past price on a long horizon the CAGR figures follow the formulas |
| Horizons.UnknownTicker | kr_etf_investor/loader.py:802-844 | a ticker missing from the master table gets zero CAGR and total figures, and a zero return unless the site supplies one |
| Horizons.ComputedWins | kr_etf_investor/loader.py:817-830 | when past > 0 and the price moved, the site return is ignored |
| Quote.SignValue | kr_etf_investor/loader.py:495-497 | the change value keeps its magnitude; it is made ≤ 0 for FALLING/SHOCK/LOWER_LIMIT and ≥ 0 for RISING/UPPER_LIMIT, and left alone otherwise |
| Quote.SignRate | kr_etf_investor/loader.py:1097-1103 | the same sign rule for the change rate of the fast refresh |
| Quote.StockQuote | kr_etf_investor/loader.py:1091-1112 | the stock-page quote of the fast refresh: cleaned close price, the rate and value signed by the status, the stock name or else the ticker |
| Quote.Backfilled | kr_etf_investor/loader.py:480-501 | the stock page fills only what the ETF quote lacks (name, close price, change rate, signed change value, an "Etc" sector); present fields are kept, and nothing changes when both name and price are present or the stock page is empty |
| Quote.BackfillFalling | kr_etf_investor/loader.py:480-501 | a falling stock page gives a non-positive change value, and once name and price are present a second backfill changes nothing |
| Quote.NaverInfo.Empty | kr_etf_investor/loader.py:374 | the ETF quote after three failed attempts: empty name, price 0, sector "Etc", no change fields and no returns |
| Quote.NaverInfo.Fetched | kr_etf_investor/loader.py:343-367 | the ETF quote read from a successful answer, with its rate in both `fluctuationRate` and `change_rate` |
| Quote.NaverInfo.Backfill | kr_etf_investor/loader.py:480-501 | updates the mutable quote dictionary in place exactly as `Backfilled` says; the change rate and the site returns stay as they were |
| Quote.NaverInfo.DailyChange | kr_etf_investor/loader.py:505-513 | the rate is `fluctuationRate`, or `change_rate` when that is 0; the value keeps its magnitude and is made negative when the rate is negative and positive |
| Quote.NaverInfo.FillReturns | kr_etf_investor/loader.py:547-553 | only the returns dictionary changes, and it becomes `Filled` of its old value |
| Quote.FilledMeans | kr_etf_investor/loader.py:549-553 | a non-zero site return is kept; keys other than 1m/3m/6m/1y are untouched; a missing or zero 1m/3m/6m/1y return becomes the price-history return over 30/90/180/365 days |
| Quote.FirstAtOrBefore | kr_etf_investor/loader.py:540-541 | the first history point dated at or before the cutoff; None when there is none |
| Quote.HistReturnOf | kr_etf_investor/loader.py:536-545 | 0 for an empty history or when no point is old enough; otherwise the return from that first old-enough point to the newest point |
| Quote.HistReturn | kr_etf_investor/loader.py:536-545 | the loop of `calc_hist_return` returns `HistReturnOf` |
| Quote.ResolveName | kr_etf_investor/loader.py:561-582 | the quote name wins unless empty or the ticker; then, for an empty quote name with a fund page, a usable page title; when neither is usable the stock quote's non-empty name, else the ticker; the result is always one of these |
| Refresh.FilterIn | kr_etf_investor/loader.py:754-761 | the kept tickers are exactly the input tickers that are listed, and no more of them |
| Refresh.FilterInAll | kr_etf_investor/loader.py:754-761 | when every ticker is listed the filter keeps them all in order |
| Refresh.FilterInDistinct | kr_etf_investor/loader.py:754-761 | filtering a duplicate-free list gives a duplicate-free list |
| Refresh.FilterInConcat | kr_etf_investor/loader.py:754-761 | filtering a concatenation is the concatenation of the filtered parts, so the kept tickers stay in input order |
| Refresh.FilterInOne | kr_etf_investor/loader.py:754-761 | a single ticker is kept exactly when it is listed |
| Refresh.Candidates | kr_etf_investor/loader.py:739-752 | on a full update with new listed tickers, the candidates are the duplicate-free union of the input and the listed tickers; otherwise the input as given |
| Refresh.KeepListed | kr_etf_investor/loader.py:754-761 | the filter loop keeps exactly the candidates present in the discovery map |
| Refresh.SelectValid | kr_etf_investor/loader.py:739-761 | every selected ticker is listed; after a discovery the selection is exactly the listed tickers, each once |
| Refresh.PartialUpdateStaysSmall | kr_etf_investor/loader.py:743-752 | a run that is not a full update has 1 to 50 tickers, all known, and discovers nothing |
| Refresh.ProgressPct | kr_etf_investor/loader.py:785 | the percentage is the floor of done / total × 100: within 0..100, and 100 exactly when all are done |
| Refresh.FloorPct | kr_etf_investor/loader.py:785 | the same bounds for `done * 100 / total` on natural numbers |
| Refresh.ProgressMonotone | kr_etf_investor/loader.py:785 | progress never goes down as more tickers complete |
| Refresh.CollectedMeans | kr_etf_investor/loader.py:781-782 | a ticker is in the results exactly when some completed task returned it, and it holds the last such answer |
| Refresh.CollectResults | kr_etf_investor/loader.py:773-786 | the completion loop stops when the stop flag is seen; it collects the answers handled so far and reports one percentage per completed task, ending at 100 |
| Refresh.ProcessTickers | kr_etf_investor/loader.py:724-788 | every result belongs to a listed ticker, is that ticker's answer, and is an input ticker unless discovery replaced the list; without a stop every listed ticker with an answer, input or discovered, is in the results; with no discovery and no input ticker listed there are no results |
| Refresh.LastFor | kr_etf_investor/loader.py:781-782 | the results hold, for a ticker, the answer of the last task that returned it |
| Refresh.TargetList | kr_etf_investor/loader.py:1017-1028 | no targets means every master ticker; otherwise `NonEmpty` of the targets: a ticker is in it exactly when it is a non-empty target |
| Refresh.NonEmptyConcat | kr_etf_investor/loader.py:1028 | dropping empty targets distributes over concatenation, so the comprehension keeps the targets' order and their repeats |
| Refresh.NonEmptyOne | kr_etf_investor/loader.py:1028 | one target is kept exactly when it is not empty |
| Refresh.FallbackPast | kr_etf_investor/loader.py:980-990 | a zero price or return gives 0; r = −100 divides by zero and fails the load; otherwise `int(p / (1 + r/100))`, below p for a gain and above p − 1 for a loss |
| Refresh.FallbackColumn | kr_etf_investor/loader.py:973-992 | the column holds one `FallbackPast` value per cached ticker, or fails as a whole when one of them divides by zero |
| Refresh.FinishRun | kr_etf_investor/loader.py:1049-1063 | a stopped run saves nothing; otherwise the saved map is `existing` overwritten by `results`, and every other stored ticker keeps its record |
| PortfolioStore.Stamped | kr_etf_investor/portfolio.py:47-55 | after the timestamp migration every position has `added_at`; quantities, prices and existing stamps are untouched, and an already stamped account is returned as it is |
| PortfolioStore.BaseAccounts | kr_etf_investor/portfolio.py:36-45 | legacy top-level positions move under the default account; a missing or empty `accounts` map becomes the default; otherwise the accounts are kept; the account map is never empty |
| PortfolioStore.StampedAccounts | kr_etf_investor/portfolio.py:48-55 | the migration keeps every account and stamps each one's positions |
| PortfolioStore.Loaded | kr_etf_investor/portfolio.py:25-63 | a missing or unreadable file loads as the default document; a stored one loads with its migrated accounts stamped, the save time when migration changed something (else its own), and the top-level `positions` key dropped only when it was migrated |
| PortfolioStore.AfterLoad | kr_etf_investor/portfolio.py:57-58 | loading either leaves the file as it was or writes back exactly the migrated document |
| PortfolioStore.LegacyMigration | kr_etf_investor/portfolio.py:36-58 | a legacy file loads with each of its positions, stamped, under the default account alone, the top-level `positions` key removed, and the save time recorded |
| PortfolioStore.LoadIdempotent | kr_etf_investor/portfolio.py:25-60 | a migrated document needs no further migration: loading twice writes the file at most once |
| PortfolioStore.Target | kr_etf_investor/portfolio.py:85-86 | an empty account name means the default account; the target name is never empty |
| PortfolioStore.UpsertedMeans | kr_etf_investor/portfolio.py:82-125 | upsert creates a missing target account and leaves every other account and every other symbol unchanged; qty ≤ 0 removes only that symbol; qty > 0 sets qty, keeps an existing `added_at` (else stamps now), and stores the given average price, keeping the old one only for an explicit None and 0 when there is none |
| PortfolioStore.UpsertTwice | kr_etf_investor/portfolio.py:82-125 | repeating an upsert with an explicit price, or a removal, changes nothing more |
| PortfolioStore.AddAccountTo | kr_etf_investor/portfolio.py:161-168 | "Invalid name" for an empty name, "Account already exists" for a duplicate; otherwise exactly one new, empty account and every other account unchanged |
| PortfolioStore.RenameIn | kr_etf_investor/portfolio.py:170-180 | "Invalid name", "Account not found" and "New name already exists" in that order; on success the positions move intact under the new name and the old key is gone |
| PortfolioStore.RenameBack | kr_etf_investor/portfolio.py:170-180 | renaming back restores the original account map |
| PortfolioStore.DeleteFrom | kr_etf_investor/portfolio.py:182-190 | "Account not found" for a missing name, "Cannot delete last account" when at most one exists; otherwise exactly that account goes and the map stays non-empty |
| PortfolioStore.AddThenDelete | kr_etf_investor/portfolio.py:161-190 | deleting an account just added restores the original map |
| PortfolioStore.PortfolioStorage.constructor | kr_etf_investor/portfolio.py:16-19 | a storage over the given file state with no named portfolios |
| PortfolioStore.PortfolioStorage.Save | kr_etf_investor/portfolio.py:65-75 | the document is stamped with the time and becomes the file; named portfolios are untouched |
| PortfolioStore.PortfolioStorage.Load | kr_etf_investor/portfolio.py:25-63 | returns `Loaded` of the file and writes the migrated document back only when migration changed something |
| PortfolioStore.PortfolioStorage.Upsert | kr_etf_investor/portfolio.py:82-128 | load, `Upserted` on the accounts, save; the result is the saved document |
| PortfolioStore.PortfolioStorage.BulkSaveAccount | kr_etf_investor/portfolio.py:130-141 | the target account's positions are replaced by the given ones; every other account is kept |
| PortfolioStore.PortfolioStorage.BulkSave | kr_etf_investor/portfolio.py:143-148 | the whole account map is replaced by the given one |
| PortfolioStore.PortfolioStorage.Clear | kr_etf_investor/portfolio.py:150-156 | afterwards exactly one account, the default one, with no positions |
| PortfolioStore.PortfolioStorage.AddAccount | kr_etf_investor/portfolio.py:161-168 | an empty name is refused before loading; otherwise the outcome of `AddAccountTo`, saved only on success (a refusal still writes back what the load migrated) |
| PortfolioStore.PortfolioStorage.RenameAccount | kr_etf_investor/portfolio.py:170-180 | an empty or unchanged new name is refused before loading; otherwise the outcome of `RenameIn`, saved only on success (a refusal still writes back what the load migrated) |
| PortfolioStore.PortfolioStorage.DeleteAccount | kr_etf_investor/portfolio.py:182-190 | the outcome of `DeleteFrom`, saved only on success (a refusal still writes back what the load migrated) |
| PortfolioStore.PortfolioStorage.SaveAs | kr_etf_investor/portfolio.py:207-218 | an empty name or one holding '/' or '\\' is refused with nothing changed; otherwise the loaded document is stored under that name |
| PortfolioEngine.Ret1y | kr_etf_investor/portfolio.py:320-322 | the 1-year total return when it is non-zero, else the plain 1-year return |
| PortfolioEngine.ValidHoldings | kr_etf_investor/portfolio.py:281-296 | at most as many valid holdings as holdings, each with a positive amount |
| PortfolioEngine.ValidHoldingsMeans | kr_etf_investor/portfolio.py:281-296 | a holding counts exactly when its ticker is non-empty, its amount > 0 and the universe has data for it |
| PortfolioEngine.WeightedYieldIsAverage | kr_etf_investor/portfolio.py:310-317 | the sum of yield × weight is the amount-weighted yield sum over the total |
| PortfolioEngine.WeightedReturnIsAverage | kr_etf_investor/portfolio.py:310-324 | the same for the 1-year return |
| PortfolioEngine.TotalPositive | kr_etf_investor/portfolio.py:297-299 | the total of valid holdings is non-negative and 0 exactly when there are none |
| PortfolioEngine.YieldBetween | kr_etf_investor/portfolio.py:310-317 | when every yield held lies between lo and hi, the amount-weighted yield sum lies between lo × total and hi × total |
| PortfolioEngine.IncomeOf | kr_etf_investor/portfolio.py:326-327 | annual income is the yield sum / 100 and monthly income the yield sum / 1200 |
| PortfolioEngine.CollectValid | kr_etf_investor/portfolio.py:281-297 | the validation loop yields the valid holdings and their total, which is 0 exactly when there are none |
| PortfolioEngine.WeightedSums | kr_etf_investor/portfolio.py:310-324 | the weighting loop yields the weighted yield and return |
| PortfolioEngine.Calculate | kr_etf_investor/portfolio.py:256-341 | no valid holding gives the all-zero record; otherwise total, weighted yield and return, annual and monthly income as stated, and twelve equal monthly entries |
| AccountCsv.Plain | backups/kr_etf_investor_backup_v1.0.3_20260103_1436/kr_etf_investor/flask_app.py:248 | each kept quantity becomes a position holding only `qty` |
| AccountCsv.BulkUpdate | backups/kr_etf_investor_backup_v1.0.3_20260103_1436/kr_etf_investor/flask_app.py:236-250 | the filtered positions replace the target account's positions (the default account when none is named); every other account is kept |
| AccountCsv.RowOf | backups/kr_etf_investor_backup_v1.0.3_20260103_1436/kr_etf_investor/flask_app.py:470-483 | a row is produced only for a non-empty ticker and a quantity that reads as an integer > 0, under the given account and ticker |
| AccountCsv.RowOfMeans | backups/kr_etf_investor_backup_v1.0.3_20260103_1436/kr_etf_investor/flask_app.py:470-483 | a row is produced exactly when no field is a header word or empty and the quantity reads as an integer > 0; it carries the given account, the ticker and that quantity |
| AccountCsv.ParseLine | backups/kr_etf_investor_backup_v1.0.3_20260103_1436/kr_etf_investor/flask_app.py:452-483 | a line yields a row only with a non-empty ticker and a positive quantity |
| AccountCsv.ParseLineFields | backups/kr_etf_investor_backup_v1.0.3_20260103_1436/kr_etf_investor/flask_app.py:457-483 | fewer than two fields are skipped; two fields are checked as (ticker, qty) under "Imported"; three or more as stripped (account, ticker, qty) by `RowOf` |
| AccountCsv.TwoFieldsImported | backups/kr_etf_investor_backup_v1.0.3_20260103_1436/kr_etf_investor/flask_app.py:462-466 | a two-field line is read as a position of the "Imported" account |
| AccountCsv.ExtraFieldsIgnored | backups/kr_etf_investor_backup_v1.0.3_20260103_1436/kr_etf_investor/flask_app.py:457-461 | fields after the third do not change how a line is read |
| AccountCsv.ParseLines | backups/kr_etf_investor_backup_v1.0.3_20260103_1436/kr_etf_investor/flask_app.py:450-453 | one parse per line of the upload, in order |
| AccountCsv.Collect | backups/kr_etf_investor_backup_v1.0.3_20260103_1436/kr_etf_investor/flask_app.py:479-482 | every account the upload creates holds at least one position |
| AccountCsv.CollectHas | backups/kr_etf_investor_backup_v1.0.3_20260103_1436/kr_etf_investor/flask_app.py:452-483 | an (account, ticker) pair is in the upload exactly when some line carries it |
| AccountCsv.CollectLast | backups/kr_etf_investor_backup_v1.0.3_20260103_1436/kr_etf_investor/flask_app.py:482 | a later line for the same (account, ticker) overwrites an earlier one: the kept quantity is that of the last line carrying the pair |
| AccountCsv.UploadedPositive | backups/kr_etf_investor_backup_v1.0.3_20260103_1436/kr_etf_investor/flask_app.py:475-482 | every imported position has a non-empty ticker and a positive quantity |
| AccountCsv.ReadLine | backups/kr_etf_investor_backup_v1.0.3_20260103_1436/kr_etf_investor/flask_app.py:453-483 | the body of the line loop answers `ParseLine` |
| AccountCsv.ParseUpload | backups/kr_etf_investor_backup_v1.0.3_20260103_1436/kr_etf_investor/flask_app.py:445-483 | the line loop builds exactly the upload the lines describe |
| AccountCsv.Overwritten | backups/kr_etf_investor_backup_v1.0.3_20260103_1436/kr_etf_investor/flask_app.py:503-505 | the merged account holds its old tickers and the imported ones; imported tickers get the imported quantity and every other ticker is kept |
| AccountCsv.Merged | backups/kr_etf_investor_backup_v1.0.3_20260103_1436/kr_etf_investor/flask_app.py:498-505 | the merged account map holds exactly the old and the imported account names |
| AccountCsv.MergedMeans | backups/kr_etf_investor_backup_v1.0.3_20260103_1436/kr_etf_investor/flask_app.py:497-509 | an imported position overwrites; every other position of every account is unchanged; missing accounts are created |
| AccountCsv.MergeAccount | backups/kr_etf_investor_backup_v1.0.3_20260103_1436/kr_etf_investor/flask_app.py:504-506 | the inner merge loop gives `Overwritten` and counts the imported tickers |
| AccountCsv.MergedOverAll | backups/kr_etf_investor_backup_v1.0.3_20260103_1436/kr_etf_investor/flask_app.py:498-505 | merging account by account, in any order, gives `Merged` |
| AccountCsv.SizeOverAll | backups/kr_etf_investor_backup_v1.0.3_20260103_1436/kr_etf_investor/flask_app.py:497-506 | the running count, summed account by account, is the number of imported (account, ticker) pairs |
| AccountCsv.MergeUpload | backups/kr_etf_investor_backup_v1.0.3_20260103_1436/kr_etf_investor/flask_app.py:497-509 | the merge loop gives `Merged` and `count` equals the number of imported positions |
| AccountCsv.ImportPortfolio | backups/kr_etf_investor_backup_v1.0.3_20260103_1436/kr_etf_investor/flask_app.py:433-516 | "No file part", "No selected file" and "No valid data found" leave the store unchanged; otherwise the merge is saved, its count and account list are returned, and a valid file stem is also saved as a named portfolio |
| AccountCsv.RowLines | backups/kr_etf_investor_backup_v1.0.3_20260103_1436/kr_etf_investor/flask_app.py:402 | one `acc,sym,qty` line per exported row |
| AccountCsv.CsvTextConcat | backups/kr_etf_investor_backup_v1.0.3_20260103_1436/kr_etf_investor/flask_app.py:396-402 | appending rows appends their lines to the export text |
| AccountCsv.CsvTextLines | backups/kr_etf_investor_backup_v1.0.3_20260103_1436/kr_etf_investor/flask_app.py:396-402 | the export text is the header line followed by one line per row, each ended by a newline |
| AccountCsv.TickerRowsListed | backups/kr_etf_investor_backup_v1.0.3_20260103_1436/kr_etf_investor/flask_app.py:400-402 | the rows of one account list each of its positions exactly once with its quantity |
| AccountCsv.AppendAccount | backups/kr_etf_investor_backup_v1.0.3_20260103_1436/kr_etf_investor/flask_app.py:399-402 | the inner export loop appends exactly one line per position of the account |
| AccountCsv.ListsAllStep | backups/kr_etf_investor_backup_v1.0.3_20260103_1436/kr_etf_investor/flask_app.py:398-402 | adding the rows of a new account keeps the rows a complete, duplicate-free listing of the positions |
| AccountCsv.ExportAccounts | backups/kr_etf_investor_backup_v1.0.3_20260103_1436/kr_etf_investor/flask_app.py:396-402 | the export text lists every (account, ticker, qty) exactly once, after the header |
| AccountCsv.ExportCsv | backups/kr_etf_investor_backup_v1.0.3_20260103_1436/kr_etf_investor/flask_app.py:374-402 | without a name the active portfolio is loaded and exported; with a name the named portfolio is exported, or "not found" when there is none |
| AccountCsv.SplitJoinThree | backups/kr_etf_investor_backup_v1.0.3_20260103_1436/kr_etf_investor/flask_app.py:453 | splitting a joined comma-free triple on ',' gives it back |
| AccountCsv.SkippedAsQty | backups/kr_etf_investor_backup_v1.0.3_20260103_1436/kr_etf_investor/flask_app.py:471 | a line whose quantity field reads "qty" in any case is skipped |
| AccountCsv.HeaderSkipped | backups/kr_etf_investor_backup_v1.0.3_20260103_1436/kr_etf_investor/flask_app.py:471-472 | the export header "Account,Ticker,Qty" is skipped on import |
| AccountCsv.RowParsed | backups/kr_etf_investor_backup_v1.0.3_20260103_1436/kr_etf_investor/flask_app.py:452-483 | an exported line of comma-free, unpadded, non-header names parses back to its row when qty > 0 and is skipped otherwise |
| AccountCsv.ExportedSplit | backups/kr_etf_investor_backup_v1.0.3_20260103_1436/kr_etf_investor/flask_app.py:450 | `splitlines` of the export text gives back the header and the row lines |
| AccountCsv.ExportLinesParsed | backups/kr_etf_investor_backup_v1.0.3_20260103_1436/kr_etf_investor/flask_app.py:396-483 | parsing the lines of an export gives nothing for the header and then each row (or nothing for qty ≤ 0) in order |
| AccountCsv.CollectedExport | backups/kr_etf_investor_backup_v1.0.3_20260103_1436/kr_etf_investor/flask_app.py:452-483 | the upload collected from those parses holds exactly the exported positions with qty > 0, at their quantities |
| AccountCsv.ExportThenImport | backups/kr_etf_investor_backup_v1.0.3_20260103_1436/kr_etf_investor/flask_app.py:396-483 | re-importing the export text recovers exactly the positions with qty > 0, with their quantities, when names have no commas, no surrounding spaces and are not header words |
| AccountCsv.HeldAdd | backups/kr_etf_investor_backup_v1.0.3_20260103_1436/kr_etf_investor/flask_app.py:628-629 | adding an account adds its tickers to the held set |
| AccountCsv.HeldAmongAll | backups/kr_etf_investor_backup_v1.0.3_20260103_1436/kr_etf_investor/flask_app.py:628-630 | collecting the tickers account by account over all accounts gives every held ticker |
| AccountCsv.SelectTargets | backups/kr_etf_investor_backup_v1.0.3_20260103_1436/kr_etf_investor/flask_app.py:621-639 | None (update everything) for a full update or an empty portfolio; otherwise the held tickers, each once, with "069500" added when absent |
| AccountCsv.TriggerTargets | backups/kr_etf_investor_backup_v1.0.3_20260103_1436/kr_etf_investor/flask_app.py:621-639 | `full=true` in any case selects everything without loading; otherwise the portfolio is loaded and `SelectTargets` applies |
| BulkPositions.Formatted | backups/kr_etf_investor_backup_v1.0.3_20260103_1436/kr_etf_investor/flask_app.py:241-248 | exactly the entries whose quantity, bare or under `qty`, is > 0 are kept, each truncated to an integer |
| BulkPositions.FormatPositions | backups/kr_etf_investor_backup_v1.0.3_20260103_1436/kr_etf_investor/flask_app.py:241-248 | the filter loop gives `Formatted` |
| BulkPositions.FormattedQuantities | backups/kr_etf_investor_backup_v1.0.3_20260103_1436/kr_etf_investor/flask_app.py:247-248 | a quantity ≥ 1 stays ≥ 1, a whole quantity is kept as is, and a fraction below 1 becomes 0 |
| UpdateTask.Summarize | backups/kr_etf_investor_backup_v1.0.3_20260103_1436/kr_etf_investor/flask_app.py:110-120 | total = the number of new tickers, new_count = \|new − old\|, updated_count = \|new ∩ old\|, and new_symbols lists new − old once each |
| UpdateTask.SummaryAddsUp | backups/kr_etf_investor_backup_v1.0.3_20260103_1436/kr_etf_investor/flask_app.py:110-120 | new_count + updated_count = total; without new tickers new_count is 0 |
| UpdateTask.UpdateStatus.constructor | backups/kr_etf_investor_backup_v1.0.3_20260103_1436/kr_etf_investor/flask_app.py:68-74 | the status starts not running, with progress 0 and no summary |
| UpdateTask.UpdateStatus.RunUpdate | backups/kr_etf_investor_backup_v1.0.3_20260103_1436/kr_etf_investor/flask_app.py:82-134 | a cancelled run reports "Update Cancelled", a failed one "Error: …" with progress 0, a finished one "Update Completed" with progress 100, the run time and the summary; the status is never left running |
| FlatPortfolio.LoadedFlat | backups/kr_etf_investor_backup_v1.0.1_20260102_2215/kr_etf_investor/portfolio.py:18-28 | a readable file's document is returned as stored; a missing or unreadable file gives an empty position map |
| FlatPortfolio.FlatUpserted | backups/kr_etf_investor_backup_v1.0.1_20260102_2215/kr_etf_investor/portfolio.py:49-62 | a quantity ≤ 0 removes the symbol, a positive one sets it; every other symbol keeps its quantity |
| FlatPortfolio.FlatUpsertLaws | backups/kr_etf_investor_backup_v1.0.1_20260102_2215/kr_etf_investor/portfolio.py:49-62 | setting and then zeroing a symbol removes it whatever it held before; repeating the same upsert changes nothing |
| FlatPortfolio.FlatStorage.constructor | backups/kr_etf_investor_backup_v1.0.1_20260102_2215/kr_etf_investor/portfolio.py:9-12 | the storage starts over the given file, with no named copies |
| FlatPortfolio.FlatStorage.Load | backups/kr_etf_investor_backup_v1.0.1_20260102_2215/kr_etf_investor/portfolio.py:18-28 | loading returns `LoadedFlat` of the file and writes nothing |
| FlatPortfolio.FlatStorage.Save | backups/kr_etf_investor_backup_v1.0.1_20260102_2215/kr_etf_investor/portfolio.py:30-47 | the document is stamped with the time and becomes the file; named copies are untouched |
| FlatPortfolio.FlatStorage.Upsert | backups/kr_etf_investor_backup_v1.0.1_20260102_2215/kr_etf_investor/portfolio.py:49-62 | the file becomes the loaded positions (none when the key is absent) upserted by `FlatUpserted`, stamped with the time |
| FlatPortfolio.FlatStorage.BulkSave | backups/kr_etf_investor_backup_v1.0.1_20260102_2215/kr_etf_investor/portfolio.py:64-70 | the file becomes exactly the given positions and the time |
| FlatPortfolio.FlatStorage.Clear | backups/kr_etf_investor_backup_v1.0.1_20260102_2215/kr_etf_investor/portfolio.py:72-74 | the file becomes an empty position map and the time |
| FlatPortfolio.FlatStorage.SaveAs | backups/kr_etf_investor_backup_v1.0.1_20260102_2215/kr_etf_investor/portfolio.py:92-105 | an empty name or one with '/' or '\\' is refused with "Invalid name" and nothing changes; otherwise the loaded document is stored under the name and the file is unchanged |
| FlatCsv.BulkUpdate | backups/kr_etf_investor_backup_v1.0.1_20260102_2215/kr_etf_investor/flask_app.py:240-256 | the file becomes exactly the posted positive quantities, truncated, with the time |
| FlatCsv.EntryOf | backups/kr_etf_investor_backup_v1.0.1_20260102_2215/kr_etf_investor/flask_app.py:409-424 | an entry is kept exactly when the ticker is not the header word and the quantity reads as an integer > 0; it has the given ticker, possibly empty, and that quantity |
| FlatCsv.ParseFlatLine | backups/kr_etf_investor_backup_v1.0.1_20260102_2215/kr_etf_investor/flask_app.py:406-424 | fewer than two fields are skipped; otherwise the first two fields, stripped, are checked by `EntryOf`; a kept entry has a positive quantity |
| FlatCsv.ExtraColumnsIgnored | backups/kr_etf_investor_backup_v1.0.1_20260102_2215/kr_etf_investor/flask_app.py:410-413 | columns after the second do not change how a line is read |
| FlatCsv.FlatCollectHas | backups/kr_etf_investor_backup_v1.0.1_20260102_2215/kr_etf_investor/flask_app.py:405-424 | a ticker is imported exactly when some line names it |
| FlatCsv.FlatCollectLast | backups/kr_etf_investor_backup_v1.0.1_20260102_2215/kr_etf_investor/flask_app.py:405-424 | the imported quantity is that of the last line naming the ticker |
| FlatCsv.FlatPositionsPositive | backups/kr_etf_investor_backup_v1.0.1_20260102_2215/kr_etf_investor/flask_app.py:421-423 | every position read from a CSV upload has a positive quantity |
| FlatCsv.ReadFlatLine | backups/kr_etf_investor_backup_v1.0.1_20260102_2215/kr_etf_investor/flask_app.py:406-424 | the loop body answers `ParseFlatLine` |
| FlatCsv.ParseFlatCsv | backups/kr_etf_investor_backup_v1.0.1_20260102_2215/kr_etf_investor/flask_app.py:404-424 | the line loop reads exactly `FlatPositionsFrom` of the lines |
| FlatCsv.SplitExtSuffix | backups/kr_etf_investor_backup_v1.0.1_20260102_2215/kr_etf_investor/flask_app.py:395-396 | the root and the extension put back together give the file name |
| FlatCsv.UploadPositions | backups/kr_etf_investor_backup_v1.0.1_20260102_2215/kr_etf_investor/flask_app.py:402-433 | a .csv/.txt file (in any case) is read as CSV lines; otherwise the JSON `positions` key is used, and there are none exactly when the JSON is malformed or lacks the key |
| FlatCsv.ReadUpload | backups/kr_etf_investor_backup_v1.0.1_20260102_2215/kr_etf_investor/flask_app.py:402-433 | the reading branch answers `UploadPositions` |
| FlatCsv.ImportFlat | backups/kr_etf_investor_backup_v1.0.1_20260102_2215/kr_etf_investor/flask_app.py:384-458 | "No file part", "No selected file", a parse error, a JSON without `positions` and an import without positions ("No valid positions found imported") write nothing; otherwise the positions and the time are written under the form name or the file stem, and the count is returned |
| FlatCsv.FlatCsvTextLines | backups/kr_etf_investor_backup_v1.0.1_20260102_2215/kr_etf_investor/flask_app.py:353-357 | the export text is the header line and one `sym,qty` line per entry, each ended by a newline |
| FlatCsv.EntriesListed | backups/kr_etf_investor_backup_v1.0.1_20260102_2215/kr_etf_investor/flask_app.py:355-357 | one entry per ticker lists every position exactly once with its quantity |
| FlatCsv.ExportPositions | backups/kr_etf_investor_backup_v1.0.1_20260102_2215/kr_etf_investor/flask_app.py:353-357 | the export loop's text lists every position exactly once, after the header |
| FlatCsv.ExportFlatCsv | backups/kr_etf_investor_backup_v1.0.1_20260102_2215/kr_etf_investor/flask_app.py:334-363 | without a name the loaded file is exported; with a name the named copy, or "not found" when there is none |
| FlatCsv.SplitJoinTwo | backups/kr_etf_investor_backup_v1.0.1_20260102_2215/kr_etf_investor/flask_app.py:406 | splitting a joined comma-free pair on ',' gives it back |
| FlatCsv.ParseTwo | backups/kr_etf_investor_backup_v1.0.1_20260102_2215/kr_etf_investor/flask_app.py:406-409 | a line of two unpadded comma-free fields is parsed as those fields |
| FlatCsv.SkippedAsTicker | backups/kr_etf_investor_backup_v1.0.1_20260102_2215/kr_etf_investor/flask_app.py:410 | a line whose first field reads "ticker" in any case is skipped |
| FlatCsv.HeaderSkipped | backups/kr_etf_investor_backup_v1.0.1_20260102_2215/kr_etf_investor/flask_app.py:410 | the export header "Ticker,Qty" is skipped on import |
| FlatCsv.EntryParsed | backups/kr_etf_investor_backup_v1.0.1_20260102_2215/kr_etf_investor/flask_app.py:406-424 | an exported line of an unpadded, comma-free, non-header ticker is read back as its entry when qty > 0 and skipped otherwise |
| FlatCsv.ExportedSplit | backups/kr_etf_investor_backup_v1.0.1_20260102_2215/kr_etf_investor/flask_app.py:404 | `splitlines` of the export text gives back the header and the entry lines |
| FlatCsv.CollectedExport | backups/kr_etf_investor_backup_v1.0.1_20260102_2215/kr_etf_investor/flask_app.py:405-424 | the import of those lines collects exactly the positions with qty > 0 at their quantities |
| FlatCsv.ExportThenImport | backups/kr_etf_investor_backup_v1.0.1_20260102_2215/kr_etf_investor/flask_app.py:353-424 | importing an exported CSV recovers exactly the positions with qty > 0, with their quantities, when tickers have no comma, line break or surrounding spaces and are not the header word |
| Insight.SectorOf | services/insight.py:21-24 | an ETF without a sector goes under "기타"; an empty or "[기타] 분류미상" sector goes under "기타_미분류"; any other sector is kept; the group is never empty or the unclassified label |
| Insight.YieldOf | services/insight.py:45-46 | a positive trailing yield is used, else the estimated one; the result is positive exactly when one of the two is |
| Insight.TallyCounts | services/insight.py:20-47 | after visiting distinct tickers, a sector has totals exactly when one of them is grouped under it, and its count is the number of those tickers |
| Insight.CountSumPerm | services/insight.py:62 | reordering the rows does not change the sum of their counts |
| Insight.RowsCount | services/insight.py:50-59 | the counts of the rows built sector by sector add up to the number of tickers in those sectors |
| Insight.TallyAll | services/insight.py:20-47 | tallying the whole universe gives every non-empty sector, each counting its members |
| Insight.CoveredAll | services/insight.py:20-24 | every ticker falls under one of the tallied sectors |
| Insight.RankedRows | services/insight.py:50-62 | the sorted rows report each sector's totals and their counts add up to the size of the universe |
| Insight.SectorRotation | services/insight.py:10-64 | an empty universe gives no data; otherwise one row per sector, each reporting its count and the sums of its tickers' 1- and 3-month returns and yields, sorted by 3-month average descending, with counts adding up to the size of the universe |
| Insight.SingleTickerSector | services/insight.py:36-58 | a sector holding one ETF reports that ETF's returns (0 when missing) and its trailing yield when positive, else its estimated yield |
| Insight.Top | services/insight.py:103-117 | the loop keeps at most `room` entries, each a positive net purchase of the given kind, and only universe tickers when the universe is given |
| Insight.TopDescending | services/insight.py:101-117 | from rows sorted by net purchase the entries come out largest first |
| Insight.ProcessFrame | services/insight.py:94-118 | no frame, an empty frame or one without the net-purchase column gives no entries; otherwise the rows sorted by net purchase, descending, are taken as `Top` takes them, at most ten |
| Insight.TakeTop | services/insight.py:103-117 | the loop stops at the first row that is not a net purchase, skips rows outside a given universe and stops after ten entries, giving exactly `Top` |
| Insight.RankingShape | services/insight.py:94-118 | a ranking holds at most ten positive net purchases, largest first, and only universe tickers when the universe is given |
| Sorting.SortDesc | services/insight.py:62 | the sort returns the same rows, in descending order of the key |
| Sorting.SortSorted | services/insight.py:62 | rows already in descending order are left as they are |
| Common.KeysOf | services/insight.py:51 | a dictionary's keys are visited once each, in some order |
| Common.Dedup | backups/kr_etf_investor_backup_v1.0.3_20260103_1436/kr_etf_investor/flask_app.py:630 | `list(set(...))` keeps every element exactly once |
| Common.DedupDistinct | backups/kr_etf_investor_backup_v1.0.3_20260103_1436/kr_etf_investor/flask_app.py:630 | a list without repeats comes back unchanged |
| Common.Lower | backups/kr_etf_investor_backup_v1.0.3_20260103_1436/kr_etf_investor/flask_app.py:471 | `lower()` maps every ASCII capital to its small letter and keeps every other character |
| Common.StripUnchanged | backups/kr_etf_investor_backup_v1.0.3_20260103_1436/kr_etf_investor/flask_app.py:462-468 | a field without surrounding spaces is its own `strip()` |
| Common.StripTrimmed | backups/kr_etf_investor_backup_v1.0.3_20260103_1436/kr_etf_investor/flask_app.py:462-468 | `strip()` never lengthens a field and leaves no white space at either end |
| Common.ParseQty | backups/kr_etf_investor_backup_v1.0.3_20260103_1436/kr_etf_investor/flask_app.py:478 | `int(float(q))` succeeds exactly on the texts `QtyText` describes (a run of digits, or one '.' with digits on either side and at least one digit, optionally after one '+' or '-'); every other text is None |
| Common.ParseQtyDigits | backups/kr_etf_investor_backup_v1.0.3_20260103_1436/kr_etf_investor/flask_app.py:478 | a run of digits reads as its value, "+" before one as the same value, and "-" before one as its negation |
| Common.ParseQtyDecimal | backups/kr_etf_investor_backup_v1.0.1_20260102_2215/kr_etf_investor/flask_app.py:421 | `w.f` with digit runs `w` and `f` reads as the value of `w`, the fraction cut off; unchanged after "+", negated after "-" |
| Common.ParseQtyFractionCut | backups/kr_etf_investor_backup_v1.0.1_20260102_2215/kr_etf_investor/flask_app.py:421 | "10.7" and "10." both read as 10 |
| Common.ParseQtySignedFraction | backups/kr_etf_investor_backup_v1.0.3_20260103_1436/kr_etf_investor/flask_app.py:478 | "-0.5" truncates toward zero to 0, and a lone "." is not a number |
| Common.Upper | kr_etf_investor/loader.py:381 | `upper()` keeps the length and maps every character to its capital |
| Common.Split | backups/kr_etf_investor_backup_v1.0.3_20260103_1436/kr_etf_investor/flask_app.py:453 | `split(',')` gives at least one part, none containing the separator |
| Common.SplitJoin | backups/kr_etf_investor_backup_v1.0.3_20260103_1436/kr_etf_investor/flask_app.py:453 | splitting a joined line gives back its fields when none contains the separator |
| Common.SplitLinesJoin | backups/kr_etf_investor_backup_v1.0.3_20260103_1436/kr_etf_investor/flask_app.py:450 | `splitlines()` of newline-terminated lines gives back the lines |
| Common.SplitLines | backups/kr_etf_investor_backup_v1.0.3_20260103_1436/kr_etf_investor/flask_app.py:450 | no line of the result holds a line break |
| Common.SplitExtRoot | backups/kr_etf_investor_backup_v1.0.3_20260103_1436/kr_etf_investor/flask_app.py:513 | the stem is the whole path exactly when the last component has no dot preceded by a non-dot; otherwise the path cut at a dot after which the last component holds no further dot |
| Common.SplitExtOf | backups/kr_etf_investor_backup_v1.0.3_20260103_1436/kr_etf_investor/flask_app.py:513 | a plain file name loses exactly its extension |
| Common.Trunc | backups/kr_etf_investor_backup_v1.0.3_20260103_1436/kr_etf_investor/flask_app.py:248 | `int(x)` truncates toward zero |
| Common.QtyRoundTrip | backups/kr_etf_investor_backup_v1.0.3_20260103_1436/kr_etf_investor/flask_app.py:478 | a printed integer reads back as the same quantity |
| Common.QtyTextSafe | backups/kr_etf_investor_backup_v1.0.3_20260103_1436/kr_etf_investor/flask_app.py:402 | a printed integer contains no comma, line break or surrounding space and is not the word "qty" |

## Left out

- Network access is not modelled: aiohttp sessions, the Naver pages and APIs, pykrx, requests and their HTML or JSON decoding. Their answers are parameters. Only the retry policy of the dividend-history fetch is modelled.
- Concurrency is not modelled: `asyncio`, semaphores, `as_completed` and the update thread. Task completion order is a given sequence. `STOP_EVENT` is a flag read at the points the source reads it.
- Regular expressions are not modelled: `_find_text_by_label`, the stock-name and `giName` patterns. Their matches are parameters.
- `_parse_date_any` is a function parameter, and `datetime.now()` is a parameter `now`.
- Floating point is not modelled. Reals are exact, so `round(x, 2)` and `round(x, 4)` are left out. `int(done / total * 100)` is modelled as the exact floor.
- Fractional powers in `_calc_cagr` are a parameter `pow`. Only the guards and the formula around them are stated.
- File I/O is not modelled: JSON encoding, temporary files and atomic moves. Writes always succeed, so the `False` returns of `save` and `save_as` on an OS error are not modelled.
- `load_named`, `delete_portfolio` and `list_portfolios` of both storages are left out: directory listing and file copies only.
- The Flask routes are reduced to their handler logic: request parsing, `jsonify` and HTTP status codes are left out. So are the JSON branch of the exports (`send_file` of the stored file) and the BOM stripping of `utf-8-sig`.
- The optimizer, the calculator, `get_market_indicators`, the price-history and intraday endpoints and the CLI are not part of this model.
- Python's sort is stable and the model's insertion sort is too. pandas `sort_values` (quicksort, not stable) is modelled by that same stable order, so rows with equal net purchase may come out in another order in the source.
- `list(set(...))` has an unspecified order. `Common.Dedup` keeps first occurrences. What is stated about its result (each element exactly once, the same elements) holds for any order.
- Common.ParseQty: `int(float(q))` is modelled for `[+|-]digits[.digits]` and `[+|-].digits` only. Exponent forms, `inf`/`nan`, underscores and inner white space are read as not a number. Loss of precision above 2^53 is not modelled.
- Common.Strip: strips space, tab, CR, LF, VT and FF only, not the other Unicode white space Python's `strip()` removes.
- Common.Lower: lower-cases ASCII letters only. The keywords and header words involved are ASCII or Hangul.
- Common.Upper: upper-cases ASCII letters only, where `classify_sector` uses Python's full Unicode `upper()`. The keywords it looks for are ASCII or Hangul.
- Common.SplitLines: breaks only at "\n". Python's `splitlines()` also breaks at "\r", "\v", "\f", "\x1c" to "\x1e", "\x85", "\u2028" and "\u2029". A CRLF upload still parses the same, because stripping the last field removes the "\r"; a file with other line breaks is read as fewer lines.
- Common.IsDigit: ASCII digits only. Python's `\d`, `isdigit()` and `int()` also accept other Unicode digits.
- DistributionHistory.SafeInt: accepts ASCII digits only, and not the underscores between digits that `int()` allows.
- DistributionHistory.KeepNumChars: keeps ASCII digits only, where the source's `\d` keeps every Unicode digit.
- Common.SplitExtRoot: "/" is the only path separator, as in `os.path` on POSIX. On Windows `os.path.splitext` also splits at "\\".
- Every timestamp of one call is the single text `now`. The source writes `added_at` with `isoformat()` and `updated_at` with `strftime("%Y-%m-%d %H:%M:%S")`, and reads the clock anew each time. The model does not tell these formats or instants apart.
- Uploads are given as decoded text. A file that is not valid UTF-8 makes the source answer "Failed to parse CSV" (v1.0.3) or "Parse Error: …" (v1.0.1); the model has no such input.
- DistributionHistory.ManualItem: manual amounts are integers. In the source `int(v)` raises on a non-numeric amount, and a missing "date" or "amount" key raises `KeyError` (kr_etf_investor/loader.py:589-593). The model cannot express either failure.
- Insight.SectorOf: a `sector` key present with value `None` is not distinguished from an absent key, which the source groups under "기타". The source groups `None` under "기타_미분류".
- Insight.SectorRotation: a `dist_ttm_yield` of `None` would make the source's `y > 0` raise. The model's yields are always numbers.
- FlatCsv.ImportFlat: the "Parse Error: …" message is modelled without the exception text that follows it.
- UpdateTask.UpdateStatus.RunUpdate: the loader's progress callbacks are not modelled, so a cancelled run reports progress 0 rather than the last percentage reported. The loader itself is a parameter saying how the run ended.

