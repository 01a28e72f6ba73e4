# ETF portfolio tracker: a Dafny model of its core

The tracker is a single-user Streamlit application. It keeps a list of ETF
buy transactions in the session, values them against current prices, shows
a dashboard of totals and a table of chosen columns, and lets the user add,
delete, purge, restore and reset transactions. A sidebar button refreshes
the current prices from Yahoo Finance into a Supabase table. The settings
page uploads an ETF's holdings into the `etf_holdings` table. This project
models that core and proves properties of it.

Modules, one per source file:

- `Values` (values.dfy): the loose values of the Python program. A cell is
  a number, a text, a bool, None or an undefined float (NaN or an infinity).
  A record is a map from key to cell. The module also holds `dict.get`,
  truthiness, `or` and `str.upper`.
- `Dates` (dates.dfy): calendar dates and the "%Y-%m-%d" and "%d/%m/%Y"
  renderings, each with a parser that reads it back.
- `Frames` (frames.dfy): the part of a pandas DataFrame the core uses. That
  is a set of columns and one row per record, and a column absent from a
  record holds NaN in that row.
- `Schema` (schema.dfy): the Italian column names that the pages share.
- `Seqs` (seqs.dfy): list comprehension with a filter (`Where`) and the
  indices it selects (`Positions`), with their laws.
- `Metrics` (metrics.dfy): `metrics.py`, that is `calculate_metrics` and
  `max_drawdown`.
- `Dashboard` (dashboard.dfy): `views/dashboard.py`.
- `Session` (session.dfy): `st.session_state`, a class whose two fields the
  pages reassign.
- `Transactions` (transactions.dfy): `views/gestione_eft.py`, the form that
  saves a transaction and the deletion of the selected ones.
- `Database` (database.dfy): `database.py`, `insert_holdings` over a table
  object.
- `Settings` (settings.dfy): `views/impostazioni.py`, that is the holdings
  upload, the backup restore, the purge of test transactions and the reset.
- `FinanceInfo` (finance.dfy): `finance_info.py`, that is `get_etf_price`
  and `get_etf_info`.
- `PriceRefresh` (refresh.dfy): `views/sidebar.py`, the price refresh loop.
- `Utils` (utils.dfy): `utils.py`, that is `format_currency`,
  `validate_isin` and `format_date`.

Conventions:

- Float rounding to two decimals (`round(2)`) is a parameter `round2`.
- Everything external is a parameter:
  - the quote provider, as two functions from a symbol to its answer;
  - the database's answer to an insert;
  - Python's `str` of a cell, a parameter `show`;
  - the current time.
- An exception that the source catches becomes an explicit outcome, such as
  `None`, `Failed` or `failed`.

A zero cost is divided by: `(mv - cost) / cost` at metrics.py:22 is a
pandas division, which gives NaN or an infinity there, and the model gives
`Undefined`.

## Model

| member | source | states |
|---|---|---|
| Values.Or | finance_info.py:21 | `a or b` is `a` when `a` is truthy and `b` otherwise |
| Values.Upper | views/gestione_eft.py:42 | upper-casing keeps the length, maps every lower-case ASCII letter to its capital and leaves every other character as it is |
| Values.UpperIdempotent | views/gestione_eft.py:42 | upper-casing twice is upper-casing once |
| Dates.FormatIso | views/gestione_eft.py:45 | "%Y-%m-%d" gives ten characters with the two dashes after the year and after the month |
| Dates.IsoRoundTrip | views/gestione_eft.py:45 | parsing the "%Y-%m-%d" text of a valid date gives the date back |
| Dates.IsoCanonical | metrics.py:26 | a text that parses as an ISO date is exactly the rendering of that date |
| Dates.FormatDmy | metrics.py:26 | "%d/%m/%Y" gives ten characters with the two slashes after the day and after the month |
| Dates.DmyRoundTrip | utils.py:7-8 | parsing the "%d/%m/%Y" text of a valid date gives the date back |
| Dates.IsoToDmyRearranges | metrics.py:26 | rendering a parsed ISO date as "%d/%m/%Y" moves its day, month and year fields around and changes no digit |
| Utils.ValidateIsin | utils.py:4-5 | true exactly for a string of twelve characters; None and non-strings are rejected |
| Utils.FormatCurrencyRoundTrip | utils.py:1-2 | the text `FormatCurrency` builds (`format_currency`) starts with the symbol and ends with a point and two digits, and the amount in cents reads back from it |
| Utils.FormatCurrencyGrouped | utils.py:2 | for any amount, negative ones after their minus sign, the integer part has its digits in groups of three separated by commas, with no leading zero unless it is 0 |
| Utils.NegativeAmountExample | utils.py:2 | −1234.50 is written as the symbol, a minus sign, then "1,234.50" |
| Utils.DefaultSymbolIsNotEuro | utils.py:1 | with the default symbol as written, the output starts with the three characters U+00E2 U+201A U+00AC and does not read back as a euro amount |
| Utils.FormatEuro | utils.py:1-2 | with the euro sign as default, the output starts with U+20AC and the amount reads back |
| Utils.FormatDate | utils.py:7-8 | the default "%d/%m/%Y" text has the day/month/year shape and parses back to the same date |
| Frames.AllKeys | metrics.py:11 | every key of every record is a column of `pd.DataFrame(records)` |
| Frames.AllKeysFrom | metrics.py:11 | every column of `pd.DataFrame(records)` is a key of some record |
| Frames.Filled | metrics.py:11 | a record's row has every column, holding the record's value where it has the key and NaN elsewhere |
| Frames.FromRecords | metrics.py:11 | one row per record, with every column of the frame; a key the record has keeps its value, and any other key holds NaN |
| Frames.SetColumn | metrics.py:17 | `df[col] = f(row)` adds the column, sets it in every row and changes no other cell |
| Metrics.DisplayDate | metrics.py:26 | the result is text exactly for a parseable ISO date inside the pandas timestamp range, and then it names the same date as "%d/%m/%Y"; anything else becomes NaT |
| Metrics.EnsureColumn | metrics.py:15-17 | a column no record has is added with 0 in every row, and every other cell still holds the record's value |
| Metrics.AddRequiredColumns | metrics.py:11-17 | the frame has every record key plus the three required columns, and each cell is the record's value, NaN, or 0 for a required column no record has |
| Metrics.DeriveColumns | metrics.py:20-26 | each row gains cost = quantity × purchase price and market value = quantity × current price (`Metrics.Product`, undefined unless both cells are numbers), and the rounded growth percentage (`Metrics.GrowthPct`); where there is a purchase date it is re-rendered |
| Metrics.RoundColumns | metrics.py:28-32 | the two price columns and the two value columns are rounded, and every other cell is unchanged |
| Metrics.CalculateMetrics | metrics.py:3-34 | an empty list gives the empty frame; otherwise every row holds the derived values over the defaulted inputs, rounded where the source rounds, with the other columns kept |
| Metrics.MissingRequiredIsZero | metrics.py:14-17 | a required column that no record has reads 0 (rounded for the prices) in every row |
| Metrics.DisplayDateOfIso | metrics.py:25-26 | a stored ISO date in range is shown as its day, month and year fields in that order, separated by slashes |
| Metrics.GrowthIgnoresQuantity | metrics.py:20-22 | for non-zero quantity and purchase price, `GrowthPct` of the two `Product`s is (current − purchase) / purchase × 100, whatever the quantity |
| Metrics.GrowthOfZeroCost | metrics.py:22 | `GrowthPct` of a zero cost is undefined, not a number |
| Metrics.MetricsExample | metrics.py:20-22 | 10 units bought at 50 and priced at 55 cost 500, are worth 550 and grew 10 % (each then rounded) |
| Metrics.RunningMax | metrics.py:64 | `cummax` has the input's length, bounds every earlier value, never decreases and is always one of the values seen so far |
| Metrics.Drawdowns | metrics.py:65 | one drawdown per value |
| Metrics.MinOfFinite | metrics.py:66 | the NaN-skipping minimum of finite values is one of them and below each |
| Metrics.DrawdownOfPositive | metrics.py:65 | for 0 < v ≤ m, (v − m) / m is finite and in (−1, 0] |
| Metrics.MaxDrawdownBounds | metrics.py:60-66 | for a non-empty positive series, `Metrics.MaxDrawdown` (`max_drawdown`, the NaN-skipping minimum of the drawdowns) is finite, in (−1, 0], attained at some point and below every point's drawdown |
| Metrics.NonDecreasingNoDrawdown | metrics.py:60-66 | a positive series that never falls has a maximum drawdown of 0 |
| Seqs.PositionsSpec | views/gestione_eft.py:88-92 | the indices of the qualifying elements are exactly those positions, in increasing order, one per element the filter keeps |
| Dashboard.ColumnSumAppend | views/dashboard.py:15 | `Dashboard.ColumnSum` (`.sum()`, which skips non-numeric cells) over two blocks of rows is the sum of the two blocks' sums |
| Dashboard.ColumnSumNonNegative | views/dashboard.py:15 | a column of non-negative numbers has a non-negative sum |
| Dashboard.Total | views/dashboard.py:15-18 | the sum of the column, or 0 when the frame lacks it |
| Dashboard.ReturnPct | views/dashboard.py:24 | exactly 0 unless more than 0 was invested; otherwise return × invested = gain × 100 |
| Dashboard.Summarize | views/dashboard.py:15-24 | invested and market value are the column totals, gain is their difference and the return is the guarded percentage |
| Dashboard.ReturnSign | views/dashboard.py:21-24 | with money invested, the return is positive exactly when the value exceeds the cost, and zero exactly when they are equal |
| Dashboard.ReturnReconstructsValue | views/dashboard.py:21-24 | the amount invested, grown by the return percentage, is the market value |
| Dashboard.InvestedIsSumOfCosts | views/dashboard.py:10-18 | for a non-empty ledger the totals are the sums of the cost and market-value columns of the metrics table |
| Dashboard.Offered | views/dashboard.py:46-47 | a column is offered exactly when it is in the fixed list and in the frame |
| Dashboard.OfferedOrdered | views/dashboard.py:31-47 | the offered columns keep the fixed list's order |
| Dashboard.DefaultSelection | views/dashboard.py:53 | the first min(8, n) offered columns, in order |
| Dashboard.MetricsOfferMetricColumns | views/dashboard.py:45-49 | the metrics table of a non-empty ledger always offers the six metric columns |
| Dashboard.Display | views/dashboard.py:58 | the frame restricted to the selected columns, with every row's cells unchanged |
| Transactions.NewTransaction | views/gestione_eft.py:41-55 | the record has exactly the thirteen keys; the ticker is upper-cased, and so is the ISIN unless empty |
| Transactions.NewTransactionDate | views/gestione_eft.py:45 | the stored date text parses back to the date chosen in the form |
| Transactions.NewTransactionValues | views/gestione_eft.py:43-54 | the quantity, the two prices and the test flag are stored as entered, with the insertion time |
| Transactions.SaveTransaction | views/gestione_eft.py:37-59 | saved exactly when submitted and `Complete` (non-empty ticker and issuer, positive quantity and purchase price, non-negative current price, as line 38 tests); then one record is appended at the end, the earlier records stay in place and the new one is last with its ticker upper-cased; otherwise nothing changes |
| Transactions.Describe | views/gestione_eft.py:81-90 | a description exists exactly when the record has ticker, date and quantity, and is "T - D - Q quote" |
| Transactions.Survivors | views/gestione_eft.py:88-96 | the records left after a deletion are no more than before and none of them is chosen |
| Transactions.Doomed | views/gestione_eft.py:88-92 | every collected index is inside the list and points at a chosen record |
| Transactions.SurvivorsSpec | views/gestione_eft.py:88-96 | a record survives exactly when its description is not selected; survivors keep their order and number the length minus the chosen indices |
| Transactions.SameDescriptionSameFate | views/gestione_eft.py:88-92 | two records with the same description are both deleted or both kept |
| Transactions.Gap | views/gestione_eft.py:88-96 | no record between two consecutive chosen indices is chosen |
| Transactions.CollectChosen | views/gestione_eft.py:88-92 | the collected indices are those of the chosen records, in increasing order |
| Transactions.PopIndices | views/gestione_eft.py:95-96 | the list after popping the chosen indices from the largest down is exactly the survivors |
| Transactions.PoppedAll | views/gestione_eft.py:95-96 | once every chosen index is popped, what remains is the survivors |
| Transactions.PopChosen | views/gestione_eft.py:94-96 | popping the indices from the largest down leaves exactly the survivors |
| Transactions.AllDescribed | views/gestione_eft.py:81-82 | true exactly when every record can be described |
| Transactions.DeleteSelected | views/gestione_eft.py:63-100 | nothing shown for an empty list or a frame without columns; a record without its keys fails before anything is asked; no selection or no click changes nothing; otherwise the survivors remain and the count is the number removed |
| Database.HoldingRow | database.py:57-71 | the row carries the ETF ticker, and each of the twelve columns holds the holding's value for its source key, or None |
| Database.HoldingRows | database.py:56-71 | one row per holding, in order |
| Database.RowsCarryTicker | database.py:58 | every stored row carries the ETF ticker it was inserted under |
| Database.HoldingRowsAppend | database.py:56-73 | the rows of two lists joined are the two lists' rows joined |
| Database.HoldingsTable.InsertHoldings | database.py:46-74 | the rows of a prefix of the holdings are appended and returned; the call fails exactly when the prefix is short, and then the next row was refused; when nothing fails the table grows by exactly the rows of all the holdings |
| Database.ExampleRows | database.py:77-110 | the example stores two rows under VWCE, one per holding, in order |
| Database.ExampleFirstRow | database.py:80-93 | the first example row is AAPL's, with weight 5.2 |
| Database.ExampleSecondRow | database.py:94-107 | the second example row is MSFT's, with price 164.0 |
| Settings.UploadHoldings | views/impostazioni.py:52-58 | the uploaded records become the holdings details and their rows are inserted under "TEST_ETF"; every stored row was accepted, and a failed upload stopped at the first refused row |
| Settings.UploadUnderTestEtf | views/impostazioni.py:58 | every row the upload stores is under "TEST_ETF" |
| Settings.RestoreBackup | views/impostazioni.py:150-151 | a confirmed restore replaces the whole list, and otherwise nothing changes |
| Settings.Purged | views/impostazioni.py:172-175 | the purged list is no longer than before and holds no test record (`IsTest`: the flag read with `get(..., False)` is truthy) |
| Settings.PurgedSpec | views/impostazioni.py:172-175 | the purge keeps exactly the non-test records, in order, and removes as many as there are tests |
| Settings.UnflaggedKept | views/impostazioni.py:174 | a record without the flag, or with a false flag, is kept |
| Settings.PurgeIdempotent | views/impostazioni.py:172-175 | purging twice removes nothing more |
| Settings.PurgeTestTransactions | views/impostazioni.py:169-178 | the list becomes its non-test records and the reported number is how many were removed |
| Settings.ResetData | views/impostazioni.py:192-195 | an enabled, pressed button with the exact phrase empties transactions and details; anything else changes nothing |
| Settings.ResetPage | views/impostazioni.py:192 | the button is rendered disabled, so the reset never changes anything |
| FinanceInfo.MilanSymbol | finance_info.py:16 | the symbol is the ticker followed by ".MI" |
| FinanceInfo.Candidate | finance_info.py:21 | `currentPrice` when truthy, else `regularMarketPrice` or None |
| FinanceInfo.GetEtfPrice | finance_info.py:15-33 | a non-string ticker or a failed info lookup gives None; a candidate that is not `Missing` (None or equal to 0) is returned; otherwise the last close, None when the history fails, or the candidate when the history is empty |
| FinanceInfo.PriceUsesMilanSymbolOnly | finance_info.py:16-27 | only the ".MI" symbol is consulted: two providers that agree on it give the same price |
| FinanceInfo.PriceFallback | finance_info.py:23-27 | a missing candidate with positive closes gives a positive price |
| FinanceInfo.GetEtfInfo | finance_info.py:46-62 | None exactly when the lookup of the bare ticker fails; otherwise the given ticker, the time, the line-21 candidate of the bare ticker's info with no history fallback, and each text field from the provider or "N/A" |
| PriceRefresh.TickerOf | views/sidebar.py:21 | a dict's `etf_ticker` (None when absent), or the item itself |
| PriceRefresh.FateOf | views/sidebar.py:20-35 | an item has no price exactly when the lookup of its ticker gives None; otherwise its price is that answer, and it is stored exactly when the write answers |
| PriceRefresh.Errors | views/sidebar.py:29-35 | at most one error message per item, and no success message among them |
| PriceRefresh.Writes | views/sidebar.py:24-26 | at most one write per item, and none with a None price |
| PriceRefresh.PricesAfter | views/sidebar.py:25-29 | the table only gains entries, each for the ticker of some item |
| PriceRefresh.RefreshPrices | views/sidebar.py:16-38 | the count is the number of stored prices; one error message per failure, in order, then the success message, so every item is counted or reported exactly once; a write for every price found; the table gets every stored price |
| PriceRefresh.CountedOrReported | views/sidebar.py:20-35 | every item is either counted or reported, never both |
| PriceRefresh.WritesAreFoundPrices | views/sidebar.py:24-26 | a write is attempted exactly for the items whose price is not None, including a price of 0 |
| PriceRefresh.StoredPriceKept | views/sidebar.py:25-29 | the table afterwards holds the last item's stored price |
| PriceRefresh.ThreeTickersExample | views/sidebar.py:19-38 | with prices 10, none and 0, two are counted and written and the second is reported |

## Left out

- I/O is not modelled: loading and saving the JSON and CSV files (`save_etf_data`, `load_etf_data`), `st.rerun`, logging and `print`.
- The Streamlit widgets are their returned values (a submit flag, a selection, typed text). Layout, messages' wording and the Plotly charts are not modelled.
- The Yahoo Finance and Supabase clients are parameters, so their behaviour and timeouts are outside the model.
- `get_etf_list` and `insert_update_etf_price` are imported at views/sidebar.py:9 but not defined in database.py. `RefreshPrices` takes their results as parameters.
- Floating point is not modelled: numbers are exact reals, and `round(2)` is a parameter.
- `FormatCurrency`, `FormatEuro`: the amount is given in whole cents, so the float rounding of `:,.2f` is not modelled.
- `Utils.FormatDate`: only the default "%d/%m/%Y" format; other `fmt` values are not modelled, and neither are dates before year 1000, which `strftime` writes with an unpadded year.
- `Metrics.DisplayDate`: only canonical "YYYY-MM-DD" text is parsed as a date. The other formats `pd.to_datetime` infers, and years before 1000, become NaT in the model. The format is chosen per cell; pandas chooses it once per column from the first parsable element, which the model does not capture.
- `Values.Upper`: ASCII letters only; `str.upper` beyond ASCII is not modelled.
- `Metrics.Product`, `Dashboard.ColumnSum`: a text cell in arithmetic gives `Undefined`, and a sum skips it, where pandas would raise instead.
- `Metrics.MaxDrawdown`: the series holds finite reals only, so NaN inputs are not modelled.
- `Database.HoldingRow`: states that each column of the row is a table column, rather than naming the exact key set.
- `Settings.UploadHoldings`: a CSV that fails to parse is not modelled. Only an insert refusal stands for the caught exception.
- `Settings.RestoreBackup`: the JSON and CSV decoding is not modelled. The decoded records are the input.
- `Transactions.Describe`: Python's `str` of a value is the parameter `show`.
- The Directa import, the configuration tab, the export buttons and the placeholder buttons that only show "in sviluppo" are not modelled, because they change no state.
- `sharpe_ratio` and `sortino_ratio` (metrics.py:40-58) are not modelled: they need floating-point standard deviation.
- `get_etf_history` (finance_info.py:65-83) only forwards the provider's answer, so it is not modelled.

## Findings

| source | as written | input that shows it | evidently intended | confidence | as-written member | corrected member |
|---|---|---|---|---|---|---|
| utils.py:1 | the default symbol is "â‚¬", the UTF-8 bytes of the euro sign read as Windows-1252 | `format_currency(1234.5)` gives "â‚¬1,234.50" | "€1,234.50", with the euro sign U+20AC that the dashboard writes directly | high, not executed | Utils.DefaultSymbolIsNotEuro | Utils.FormatEuro |
