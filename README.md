# TransactionTracker: verified model of the portfolio arithmetic

TransactionTracker turns pasted Wealthsimple transaction history into a
frame of records (`date`, `security`, `transaction_type`, `amount`). It does
this by asking a language model for CSV, cleaning the reply and checking
its header and columns. The home page (main.py:57-62) stores that frame as
it is, and the dashboard page computes metrics on it
(pages/1_📊_Investment_Dashboard.py:19). `parse_transactions`, which would
convert the dates and amounts and upper-case the types, has no caller, so the
views see types as the language model wrote them: a lower-case `buy` is a
record of some other type to them. The model covers the guards and
normalisation of `parse_transactions` anyway, as an operation of its own.
A dashboard then shows a realised profit per security by first-in-first-out
(FIFO) matching, plus several views built on it. This project models that
arithmetic in Dafny and proves what it promises.

- `ledger.dfy` (module `Ledger`): the record type and the column operations
  the pandas calls stand for. These are `unique()` (`Distinct`, in order of
  first appearance), boolean-mask selection (`Filter`, `TradesOf`), the
  list of missing columns (`Missing`), `sort_values` (`SortBy`) and `sum`
  (`SumBy`), with their algebra.
- `profit_loss.dfy` (module `ProfitLoss`): the FIFO matcher of
  `Dashboard._calculate_profit_loss`. `Sell` and `Replay` are its
  specification on values. `SellLots`, `SecurityProfit` and
  `CalculateProfitLoss` are the imperative loops, with the same queue
  updates (`append`, `pop(0)`, `insert(0, …)`), proved equal to that
  specification.
- `dashboard_views.dfy` (module `DashboardViews`): the dashboard's data
  steps. These are the top-3 gainers, the ascending chart order, the
  cumulative SELL series, the per-security net position and the net
  profit/loss metric.
- `data_parser.py`'s two operations are in `data_parser.dfy` (module
  `DataParser`): the guards of `parse_transactions` and the four aggregates
  of `calculate_portfolio_metrics`.
- `response_cleanup.dfy` (module `ResponseCleanup`): the post-processing in
  `convert_to_csv`. It trims the reply, removes one ``` fence pair and a
  leading `csv` tag in any case, requires the exact header line, and
  requires the exact column list.

Modelling choices:
- Amounts are exact reals.
- Dates are day numbers, used only for ordering.
- `transaction_type` stays a string, so records that are neither BUY nor
  SELL can be modelled. The code lets them through everywhere.
- An error the code raises becomes an `Err` value of a `Result`.
- The CSV reader's output is a parameter: the frame's columns and rows are
  inputs to the model.

For a fully used lot, components/dashboard.py:62 adds the sell volume still
unmatched minus the lot, not zero. An over-sell of a 100 lot by 150
therefore yields 50 (`ProfitLoss.OversellExample`).

## Model

| member | source | states |
|---|---|---|
| Ledger.Abs | utils/data_parser.py:51-52 | Python's `abs`: the result is non-negative and equals `x` or `-x`. |
| Ledger.Distinct | components/dashboard.py:45 | `unique()`: exactly the values of the column, none twice, kept in order of first appearance; empty only for an empty column. |
| Ledger.DistinctFirstAppearance | components/dashboard.py:45 | `unique()` keeps order of first appearance: for any two values it lists, the earlier one occurs in the column before the later one first occurs. |
| Ledger.DistinctCardinality | utils/data_parser.py:54 | `nunique()`: the number of distinct values is the size of the set of values. |
| Ledger.Filter | components/dashboard.py:46 | Mask selection keeps each element satisfying the mask exactly as often as it occurs, drops the rest, and keeps the order. |
| Ledger.TradesOf | components/dashboard.py:46 | `df[df['security'] == security]`: exactly the rows of that security, in frame order. |
| Ledger.Missing | utils/data_parser.py:31 | The missing-columns list holds exactly the required names absent from the columns, in required order; it is empty iff every required column is present. |
| Ledger.SortBy | components/dashboard.py:46 | `sort_values`: a permutation of the input, non-decreasing in the key. |
| Ledger.InsertBySorted | components/dashboard.py:46 | Inserting into a sorted list keeps it sorted (the step that makes `SortBy` sorted). |
| Ledger.SumBy | utils/data_parser.py:51-52 | Definition; the sum of a term over a column, `sum()`; its properties are stated by `SumByPermutation` and `SumByFilter`. |
| Ledger.SumByPermutation | components/dashboard.py:120-126 | A sum does not depend on the order of its terms. |
| Ledger.SumByFilter | utils/data_parser.py:51 | The sum of the selected rows equals the sum over all rows of the masked term. |
| Ledger.GroupsPartitionRows | components/dashboard.py:45-46 | Every record lies in exactly one security's group: the group sizes over the distinct securities add up to the number of records. |
| ProfitLoss.PartialLotGainIsZero | components/dashboard.py:67 | For a lot larger than the remaining sell, `s - b*(s/b)` is 0 over exact reals. |
| ProfitLoss.Sell | components/dashboard.py:57-72 | The sell loop as a function on the queue; the profit it adds is never negative. |
| ProfitLoss.SellConservesVolume | components/dashboard.py:57-72 | After a SELL of `s`, lots stay non-negative, the open volume is `max(0, before - s)`, and a SELL larger than the open volume empties the queue (the excess is dropped). |
| ProfitLoss.SellConsumesFromHead | components/dashboard.py:58-71 | A SELL only removes lots from the head: what is left is a tail of the queue whose first lot may be reduced and keeps its date. |
| ProfitLoss.OversellExample | components/dashboard.py:60-64 | Selling 150 against one 100 lot empties the queue and yields 50. |
| ProfitLoss.PartialSellExample | components/dashboard.py:65-72 | Selling 50 from a 200 lot leaves a 150 lot with the same date and yields 0. |
| ProfitLoss.TwoLotExample | components/dashboard.py:57-72 | Selling 150 against lots of 100 and 30 consumes both and yields 50 + 20. |
| ProfitLoss.ApplyTrade | components/dashboard.py:50-72 | Definition; one trade of the matcher: a BUY appends a lot of its absolute amount, a SELL runs `Sell` on its absolute amount, anything else is skipped; its properties are stated by `BuyAppendsLot`, `OtherTypeIgnored` and `ReplayInvariant`. |
| ProfitLoss.Run | components/dashboard.py:50-72 | Definition; the trades applied in order from a given book; its properties are stated by `RunAppend`, `OnlyBuysAndSellsMatter`, `NoBuyNoLots` and `NoSellNoProfit`. |
| ProfitLoss.Replay | components/dashboard.py:50-72 | Definition; `Run` from an empty queue and zero profit; its properties are stated by `ReplayInvariant`, `ProfitNonNegative`, `SellsBeforeBuysEarnNothing` and `SecurityProfit`. |
| ProfitLoss.RunAppend | components/dashboard.py:50 | Processing two runs of trades is processing their concatenation. |
| ProfitLoss.BuyAppendsLot | components/dashboard.py:51-52 | A BUY appends `(abs(amount), date)` at the tail of the lot queue and leaves the profit unchanged. |
| ProfitLoss.OtherTypeIgnored | components/dashboard.py:51-53 | A record that is neither BUY nor SELL changes neither queue nor profit. |
| ProfitLoss.OnlyBuysAndSellsMatter | components/dashboard.py:51-53 | Dropping every record that is neither BUY nor SELL gives the same result. |
| ProfitLoss.ReplayInvariant | components/dashboard.py:50-72 | Along a security's trades the queue's lots stay non-negative and the running profit never drops below 0. |
| ProfitLoss.ProfitNonNegative | components/dashboard.py:48-74 | Each security's profit is at least 0. |
| ProfitLoss.NoBuyNoLots | components/dashboard.py:53-57 | Without a BUY, SELLs against an empty queue change nothing. |
| ProfitLoss.NoSellNoProfit | components/dashboard.py:51-52 | Without a SELL the profit stays where it was (all-BUY or empty input gives 0). |
| ProfitLoss.SellsBeforeBuysEarnNothing | components/dashboard.py:57 | SELLs that all come before any BUY earn nothing: the profit is 0. |
| ProfitLoss.SellLots | components/dashboard.py:53-72 | The `while` loop over the queue returns exactly `Sell`'s remaining lots and adds exactly its profit. |
| ProfitLoss.SecurityProfit | components/dashboard.py:47-72 | The per-security `for` loop over the queue returns the profit of replaying that security's trades from an empty queue. |
| ProfitLoss.SecurityTrades | components/dashboard.py:46 | Definition; one security's rows sorted by date; its properties are stated by `TradesOf` and `SortBy`. |
| ProfitLoss.FifoProfit | components/dashboard.py:46-72 | Definition; the replayed profit of one security's date-sorted trades; its properties are stated by `ProfitNonNegative`, `ProfitsOfEntries` and `CalculateProfitLoss`. |
| ProfitLoss.ProfitsOf | components/dashboard.py:43-74 | Definition; the results map built one security at a time; its properties are stated by `ProfitsOfEntries` and `CalculateProfitLoss`. |
| ProfitLoss.ProfitsOfEntries | components/dashboard.py:43-74 | The results hold exactly the securities handled, each with its FIFO profit, none negative. |
| ProfitLoss.CalculateProfitLoss | components/dashboard.py:41-76 | One key per distinct security (both directions), each value that security's FIFO profit over its date-sorted records, and every value is at least 0. |
| DashboardViews.SeriesOf | components/dashboard.py:290 | `pd.Series(results)`: one entry per key, the i-th entry being the i-th key with that key's value. |
| DashboardViews.Gainers | components/dashboard.py:293 | Definition; the positive entries sorted by decreasing profit; its properties are stated by `GainersArePositives`. |
| DashboardViews.TopGainers | components/dashboard.py:293 | Definition; the first three gainers; its properties are stated by the `TopGainers…` lemma rows below. |
| DashboardViews.GainersArePositives | components/dashboard.py:293 | The sorted gainers are a permutation of the positive entries, in non-increasing order. |
| DashboardViews.TopGainersCount | components/dashboard.py:293 | `head(3)`: at most 3 entries, and exactly `min(3, number of positive entries)`. |
| DashboardViews.TopGainersIsPrefix | components/dashboard.py:293 | The shown gainers are the first entries of the sorted positive entries. |
| DashboardViews.TopGainersSubMultiset | components/dashboard.py:293 | No entry is shown more often than it occurs in the series. |
| DashboardViews.TopGainersDrawnFromPositives | components/dashboard.py:293 | Every entry shown comes from the series and has a profit strictly above 0. |
| DashboardViews.TopGainersDescending | components/dashboard.py:293 | The shown entries are in non-increasing profit order. |
| DashboardViews.SortedPrefixDominates | components/dashboard.py:293 | In a list sorted by decreasing profit, no entry outside the first `k` beats any of them. |
| DashboardViews.TopGainersAreTheLargest | components/dashboard.py:293 | No positive entry left out has more profit than any entry shown. |
| DashboardViews.TopGainersAreTheLargestOfResults | components/dashboard.py:290-293 | Over the profit map itself: no security with a positive profit that is left out of the top gainers has more profit than any gainer shown. |
| DashboardViews.TopGainersFromResults | components/dashboard.py:290-293 | Every gainer shown is a key of the profit map, with that key's profit, and that profit is above 0. |
| DashboardViews.ChartOrder | components/dashboard.py:252 | The chart series is a permutation of the profits, ascending. |
| DashboardViews.SellContribution | components/dashboard.py:123-125 | Definition; a record's daily P/L, minus its amount for a SELL and 0 otherwise; its properties are stated by `SellContributionSum`. |
| DashboardViews.CumulativePl | components/dashboard.py:119-126 | Definition; the running totals of those contributions in date order; its properties are stated by `CumulativeIsPrefixSum`, `CumulativeNonIncreasing` and `CumulativeEndsAtSellTotal`. |
| DashboardViews.RunningTotals | components/dashboard.py:126 | `cumsum`: the i-th value is the sum of the first i+1 terms. |
| DashboardViews.CumulativeIsPrefixSum | components/dashboard.py:119-126 | The cumulative series has one value per record, each the sum of the SELL contributions (`-amount` for a SELL, 0 otherwise) of the date-sorted records up to it. |
| DashboardViews.PrefixSumsNonIncreasing | components/dashboard.py:126 | With no positive term, the prefix sums never increase. |
| DashboardViews.CumulativeNonIncreasing | components/dashboard.py:123-126 | With SELL amounts ≥ 0, the cumulative series never increases. |
| DashboardViews.SellContributionSum | components/dashboard.py:123-125 | The contributions add up to minus the sum of SELL amounts. |
| DashboardViews.CumulativeEndsAtSellTotal | components/dashboard.py:123-126 | The last cumulative value is minus the sum of SELL amounts. |
| DashboardViews.CumulativeEndsAtTotalSold | components/dashboard.py:123-126 | With SELL amounts ≥ 0, the last cumulative value is minus the `total_sold` metric. |
| DashboardViews.NetAmount | components/dashboard.py:225 | Definition; a record's signed amount, its amount for a BUY and minus it otherwise; its properties are stated by `NetAmountSum`, `AllocationIsBoughtMinusSold` and `AllocationSubtractsOtherTypes`. |
| DashboardViews.Allocation | components/dashboard.py:225-226 | One entry per security of the frame (both directions), each non-negative. |
| DashboardViews.NetAmountSum | components/dashboard.py:225 | With only BUY and SELL records, the net amounts sum to BUY total minus SELL total. |
| DashboardViews.AllocationIsBoughtMinusSold | components/dashboard.py:225-226 | For a security with only BUY and SELL records, its position is `abs(bought - sold)`. |
| DashboardViews.AllocationSubtractsOtherTypes | components/dashboard.py:225 | A record that is neither BUY nor SELL is subtracted from its security's net amount, as a SELL would be. |
| DashboardViews.OtherSecurityIgnored | components/dashboard.py:45-46 | A record of another security changes neither a security's position nor its FIFO result: each value depends only on that security's records. |
| DashboardViews.NetProfit | components/dashboard.py:99 | Definition; total sold minus total invested; its properties are stated by `NetProfitIsMinusNetAmount` and `NetProfitIsNotFifoProfit`. |
| DashboardViews.NetProfitIsMinusNetAmount | components/dashboard.py:99 | With only BUY and SELL records of non-negative amount, net profit/loss (sold minus invested) is minus the sum of net amounts. |
| DashboardViews.PartialSellNetLoss | components/dashboard.py:99 | BUY 100 then SELL 60 shows a net of -40. |
| DashboardViews.PartialSellFifoProfit | components/dashboard.py:65-72 | BUY 100 then SELL 60 has FIFO profit 0. |
| DashboardViews.NetProfitIsNotFifoProfit | components/dashboard.py:99 | The key-metrics net figure and the FIFO profit differ on the same records. |
| DataParser.UpperChar | utils/data_parser.py:24 | Upper-casing one character: a lower-case ASCII letter becomes its capital, anything else is unchanged; never lower-case afterwards. |
| DataParser.Upper | utils/data_parser.py:24 | `str.upper()` keeps the length, maps every character and leaves no lower-case letter. |
| DataParser.UpperIdempotent | utils/data_parser.py:24 | Upper-casing twice is upper-casing once. |
| DataParser.UpperBuy | utils/data_parser.py:24 | Upper-casing `buy` gives `BUY` and `Sell` gives `SELL`. |
| DataParser.NormalizeType | utils/data_parser.py:24 | Definition; a record with its type upper-cased; its properties are stated by `Upper` and `ParseTransactions`. |
| DataParser.ParseTransactions | utils/data_parser.py:17-33 | Refused with the no-data error iff the frame is empty; accepted iff non-empty with all four required columns; on acceptance the same columns and rows, each type upper-cased and nothing else changed. |
| DataParser.CalculatePortfolioMetrics | utils/data_parser.py:45-55 | An error iff a required column is missing, listing exactly the missing ones; otherwise both totals ≥ 0, the count is the record count, and the distinct-securities count is at most the record count and 0 iff there are no records. |
| DataParser.UniqueSecuritiesIsSetSize | utils/data_parser.py:54 | The distinct-securities metric is the size of the set of securities. |
| DataParser.OtherTypeCountsOnlyAsRecord | utils/data_parser.py:51-53 | A record that is neither BUY nor SELL adds one to the count and nothing to either total. |
| DataParser.TypeSum | utils/data_parser.py:51-52 | Definition; the sum of the amounts of one type; its properties are stated by `TypeSumsSplitAmounts`, `TotalsSplitAmounts` and `OtherTypeCountsOnlyAsRecord`. |
| DataParser.TypeSumsSplitAmounts | utils/data_parser.py:51-52 | With BUY and SELL records of non-negative amount, the two sums are ≥ 0 and add up to the sum of all amounts. |
| DataParser.TotalsSplitAmounts | utils/data_parser.py:51-52 | With BUY and SELL records of non-negative amount, invested plus sold is the sum of all amounts. |
| DataParser.AbsoluteValueOfSum | utils/data_parser.py:51 | `total_invested` is the absolute value of the sum: a BUY of 100 and one of -40 give 60, not 140. |
| DataParser.MetricsExample | utils/data_parser.py:50-55 | BUY 100 and SELL 60 of one security and BUY 40 of another give 140 invested, 60 sold, 3 records, 2 securities. |
| ResponseCleanup.TrimStart | utils/api.py:66 | Leading whitespace removal: the result is a suffix, what was removed is all whitespace, and the result does not start with whitespace. |
| ResponseCleanup.TrimEnd | utils/api.py:66 | Trailing whitespace removal: the result is a prefix, what was removed is all whitespace, and the result does not end with whitespace. |
| ResponseCleanup.Strip | utils/api.py:66 | `str.strip()` leaves no whitespace at either end. |
| ResponseCleanup.StripOfPadded | utils/api.py:66 | Stripping whitespace padding around an already trimmed text returns that text. |
| ResponseCleanup.Clean | utils/api.py:66-72 | The cleaned content never has leading or trailing whitespace. |
| ResponseCleanup.StripFence | utils/api.py:69-70 | Definition; one fence pair removed, then stripped, only when the text both starts and ends with a fence; its properties are stated by `StripOneFencePair`, `FenceNeedsBothEnds` and `CleanFencedCsvBlock`. |
| ResponseCleanup.StripOneFencePair | utils/api.py:69-70 | Exactly one fence pair comes off: a trimmed text inside one pair comes back unchanged, even if it is fenced itself. |
| ResponseCleanup.FenceNeedsBothEnds | utils/api.py:69 | Any text with a fence at one end but not the other is left unchanged. |
| ResponseCleanup.LowerChar | utils/api.py:71 | Definition; ASCII `str.lower()` on one character; its properties are stated by `StripAnyCaseTag` and `HeaderIsCaseSensitive`. |
| ResponseCleanup.StripCsvTag | utils/api.py:71-72 | Definition; a leading `csv` in any case removed, then stripped; its properties are stated by `StripAnyCaseTag` and `CleanFencedCsvBlock`. |
| ResponseCleanup.StripAnyCaseTag | utils/api.py:71-72 | A leading `csv` tag in any letter case, with the whitespace after it, is removed. |
| ResponseCleanup.CleanFencedCsvBlock | utils/api.py:66-72 | A fenced, `csv`-tagged block cleans to its trimmed body: the tag is removed after the fences. |
| ResponseCleanup.FirstLine | utils/api.py:75 | Definition; the text before the first newline, stripped; its properties are stated by `HeaderLineIffFirstLine` and `ValidateHeader`. |
| ResponseCleanup.LineEnd | utils/api.py:75 | The end of the first line is the first newline, or the end of the text. |
| ResponseCleanup.HeaderLineIffFirstLine | utils/api.py:75-77 | For a trimmed text, which is all line 75 sees: the trimmed first line equals the header iff the text starts with the header and the rest of that line is whitespace. |
| ResponseCleanup.ValidateHeader | utils/api.py:66-78 | Accepted iff the first line of the cleaned content is the exact header; on acceptance the cleaned content starts with it; otherwise the error is `InvalidHeader` carrying the first line of the cleaned content, which differs from the header. |
| ResponseCleanup.HeaderIsCaseSensitive | utils/api.py:77 | Any content starting with a capital `D` is refused, whatever follows: the header check is case-sensitive. |
| ResponseCleanup.CheckColumns | utils/api.py:92-99 | Passes iff the columns equal the required list in order; a missing column gives the missing list in required order; all present but in another order gives the order error. |
| ResponseCleanup.ConvertToCsv | utils/api.py:66-99 | Accepted iff the header line is exact, the CSV reader succeeds and its columns are exactly the required ones; then it returns the cleaned content, which is trimmed and starts with the header. A bad header is refused with that header line before the reader runs; a reader that raises refuses the reply. |

## Left out

- The HTTP request to the language model, its prompts, status-code handling, `analyze_portfolio` and `chat_response`. These are network I/O. The reply text and the CSV reader's outcome (its columns, or the fact that it raised) are parameters of `ConvertToCsv`.
- ResponseCleanup.ConvertToCsv: `pd.read_csv`'s own parsing is not modelled. Whether it raises (on an amount that is not a number, or a row with more fields than the header) and which columns it finds are an input, not derived from the reply text; a raise refuses the reply (`ReadFailed`).
- `pd.to_datetime` and `pd.to_numeric(errors='coerce')`. These are library parsing. Dates are day numbers and amounts are reals already.
- DataParser.ParseTransactions: the in-place overwrite of the frame's columns is modelled as returning a new frame. The date and amount conversions are the identity; only their column-not-found errors are kept.
- DataParser.ParseTransactions: the `KeyError` pandas raises for an absent `date`, `transaction_type` or `amount` column is modelled as a `ColumnNotFound` error, checked in the order the code reads those columns.
- Floating-point behaviour. With exact reals, `b*(s/b)` is exactly `s` (ProfitLoss.PartialLotGainIsZero). The float percentages and rounding of the key metrics and the allocation chart (components/dashboard.py:103, 230) are not modelled. Neither is the allocation total (line 227).
- Ledger.SortBy: pandas' default sort is not stable. The model uses a stable insertion sort, so equal dates keep their input order. The only properties claimed are sortedness and permutation. So for same-date trades of one security, `FifoProfit`, `CalculateProfitLoss` and `CumulativePl` follow input order, which pandas does not guarantee; a BUY and a SELL on the same day in the other order can give a different FIFO profit.
- DataParser.Upper: only ASCII letters change case. The same holds for the case-insensitive `csv` tag (`LowerChar`). Python's full Unicode case mapping is not modelled.
- All Streamlit and Plotly rendering, styling, session state, string formatting and the table of the 10 most recent transactions. These are display only.
- The daily transaction-count chart (components/dashboard.py:204). It is not among the modelled views.
- The `print` logging in the error handlers, and the re-wrapping of every error as `Exception("Failed to …: <message>")` (utils/data_parser.py:37-39, utils/data_parser.py:59-61, utils/api.py:103-105). The model returns the inner error; only the message prefix differs.
- The views' in-place writes to the shared frame: the cumulative chart overwrites its `date` column (components/dashboard.py:119) and the allocation view adds a `net_amount` column (components/dashboard.py:225). The model computes the views on values, so later views, and the next page run of the same frame, are not modelled as seeing those columns.
- NaN amounts. `pd.read_csv` reads an empty amount field as NaN without raising (utils/api.py:81-89). Such a BUY lot would make that security's FIFO profit NaN at its next SELL, because the comparison at components/dashboard.py:60 is false and line 67 runs. Amounts in the model are always reals.
