# SteamMarketTracker core in Dafny

SteamMarketTracker polls the Steam Community Market price overview for a watchlist of
Counter-Strike skins, stores every quote in a local SQLite database, raises a price alarm when a
quote falls to a configured limit, and draws price, volume and spread charts. This project models
the parts of it that make decisions:

- `quote.dfy` — the quote parsers of `data/fetcher.py`. It covers price strings in German, US and
  thousands notation, volume strings, the two spread figures and the validity test of a quote.
- `store.dfy` — the observation store of `data/db.py` as a class over its schema, version ledger,
  rows and backups. It covers the initial schema, the v1→v2 migration, the migration chain, inserts
  and the cleanup of old rows.
- `history.dfy`, `statistics.dfy`, `integrity.dfy` — the read side of `data/db.py`. This is the
  market history query with its filters and limit, the latest price, the export's argument checks,
  the price statistics with their trend, the database aggregates and the integrity check.
- `worker.dfy` — `check_alert` and the polling cycle of the update worker in `ui/main_window.py`,
  as a class whose `Run` method is proved against a trace function. The fetch results and the
  moment a concurrent `stop()` lands are inputs.
- `mainwindow.dfy` — the watchlist operations, the start guards of an update, the overlap warning
  of the automatic update, the export file name and the status-message truncation of
  `ui/main_window.py`, as a class `Window`.
- `chart.dfy` — `plots/chart.py`: preprocessing of history rows, the price axis limits, whether
  the median series is drawn, the unit of the spread panel, and the x-axis label interval and date
  format.
- `text.dfy`, `observation.dfy`, `json.dfy`, `wrappers.dfy` — the ASCII string functions the
  program relies on (`strip`, `lower`, `isdigit`, `split`, `replace`, character filtering), the
  stored row and its TEXT timestamp order, JSON documents, and `Option`/`Result`.

Prices are exact reals. Timestamps are ISO-8601 strings compared as SQLite compares TEXT.

## Model

| member | source | states |
|---|---|---|
| Text.TrimSpec | ui/main_window.py:1092 | `strip()` returns a contiguous part of its input that neither starts nor ends with whitespace; the result is empty exactly when the input is all whitespace |
| Text.TrimKeepsNonSpace | ui/main_window.py:1092 | stripping removes only whitespace: each other character keeps its number of occurrences |
| Text.TrimIdempotent | ui/main_window.py:1092 | stripping twice gives the same as stripping once |
| Text.LowerSpec | ui/main_window.py:1099 | after `lower()` no ASCII capital is left, lower-casing twice is lower-casing once, a string without capitals is unchanged, and `lower()` commutes with concatenation |
| Text.SplitOnce | data/fetcher.py:196-199 | with exactly one comma, `split(',')` yields the parts before and after it |
| Text.ReplaceSpec | data/fetcher.py:204 | after `replace(',', '.')` no comma is left, the dots are the old dots plus the old commas, and a string without commas is unchanged |
| Text.DigitsValueAppend | data/fetcher.py:248 | `int()` of a digit string reads it left to right: the left part is shifted by the length of the right part |
| Quote.CleanKeepsPriceChars | data/fetcher.py:166 | cleaning keeps exactly the digits, dots, commas and minus signs of the raw string (stripping first changes nothing), each as often as it occurs; everything else goes |
| Quote.WholeNumberDropsSeparators | data/fetcher.py:172-187 | before a `,--` or `.-` suffix both branches agree: the integer part only loses its dots and commas |
| Quote.NormalizeKeepsDigits | data/fetcher.py:172-204 | the rewriting of the cleaned string never adds, drops or reorders a digit |
| Quote.NormalizeAddsNoMinus | data/fetcher.py:172-204 | the rewriting never introduces a minus sign |
| Quote.NormalizePoint | data/fetcher.py:193-205 | a dot decimal over digits such as `12.34` is left unchanged |
| Quote.NormalizeComma | data/fetcher.py:201-204 | a comma decimal over digits such as `24,50` gets a decimal point for its comma |
| Quote.NormalizeThousands | data/fetcher.py:193-200 | thousands dots before a single decimal comma (`1.234,56`) are dropped and the comma becomes the point |
| Quote.NormalizeWholeSuffix | data/fetcher.py:172-187 | a whole number with a `,--` or `.-` suffix becomes the digits before the suffix, whose value then converts (0.0 without a digit) |
| Quote.NormalizeSeveralCommas | data/fetcher.py:196-197 | with both separators and two or more commas nothing is rewritten, and the conversion yields 0.0 |
| Quote.NormalizeCommaThenDot | data/fetcher.py:193-200 | one comma followed later by a dot yields a second dot, which the conversion rejects: 0.0 |
| Quote.LiteralOfDecimal | data/fetcher.py:211-212 | `float("w.f")` over digit strings is the exact decimal `w.f` |
| Quote.LiteralOfWhole | data/fetcher.py:211-212 | `float(w)` of a non-empty digit string is its integer value |
| Quote.NotLiteralWithComma | data/fetcher.py:211-216 | `float()` rejects every string with a comma, which then gives 0.0 |
| Quote.NotLiteralWithTwoDots | data/fetcher.py:211-216 | `float()` rejects every string with two dots |
| Quote.ToFloatNeedsDigit | data/fetcher.py:211-216 | a string without a digit converts to 0.0 |
| Quote.ToFloatNonNegative | data/fetcher.py:211-212 | a string without a minus sign never converts to a negative value |
| Quote.ParsePriceByClean | data/fetcher.py:157-166 | the empty-input guard agrees with the general path: the price is always the conversion of the normalised cleaned string |
| Quote.ParsePriceOfCleaned | data/fetcher.py:166 | characters around the price that cleaning drops, such as a currency sign, do not change the result |
| Quote.ParsePriceWithoutDigits | data/fetcher.py:157-216 | an empty input or one without any digit parses to 0.0 |
| Quote.ParsePriceNonNegative | data/fetcher.py:157-216 | without a minus sign in the raw string the price is never negative |
| Quote.ParsePriceDecimal | data/fetcher.py:157-216 | `w.f` or `w,f` over digits, with a currency sign or spaces around it, parses to the decimal `w.f` |
| Quote.ParsePriceWholeSuffix | data/fetcher.py:172-187 | a whole number with a `,--` or `.-` suffix parses to the value of its digits |
| Quote.ParsePriceThousands | data/fetcher.py:193-200 | thousands dots before one decimal comma are ignored: the price is the digits of the integer part, then the fraction |
| Quote.ParsePriceCommaThenDot | data/fetcher.py:193-216 | a comma followed later by a dot (`$1,234.56`) parses to 0.0 |
| Quote.ParsePriceGermanExample | data/fetcher.py:148-149 | `"24,50 €"` parses to 24.5 |
| Quote.ParsePriceDashExample | data/fetcher.py:150-151 | `"5,--€"` parses to 5.0 |
| Quote.ParsePriceDollarExample | data/fetcher.py:152-153 | `"$12.34"` parses to 12.34 |
| Quote.ParsePriceInvalidExample | data/fetcher.py:154-155 | `"invalid"` parses to 0.0 |
| Quote.ParsePriceThousandsExample | data/fetcher.py:194 | `"1.234,56"` parses to 1234.56 |
| Quote.ParsePriceCommaThenDotExample | data/fetcher.py:193-205 | `"1,234.56"` gives 0.0 |
| Quote.ParseVolume | data/fetcher.py:241-251 | the volume is never negative |
| Quote.ParseVolumeValue | data/fetcher.py:241-251 | the volume is the value of all digits of the input in order, 0 when there is none |
| Quote.ParseVolumeIgnoresNonDigit | data/fetcher.py:245 | a comma, dot, space or any other non-digit anywhere in the input is ignored |
| Quote.ParsersAgreeOnDigits | data/fetcher.py:211-251 | on a plain digit string the price and volume parsers give the same number |
| Quote.ParseVolumeThousandsExample | data/fetcher.py:236-237 | `"1,234"` gives 1234 |
| Quote.ParseVolumeSingleExample | data/fetcher.py:238-239 | `"5"` gives 5 |
| Quote.ValidityIgnoresMedianAndSpread | data/fetcher.py:94-109 | validity depends only on a positive lowest price and a positive volume; changing the median or the spreads keeps a valid quote valid |
| Quote.SpreadAbsolute | data/fetcher.py:451-454 | the absolute spread is the non-negative distance of median and lowest price when both are positive, 0.0 otherwise |
| Quote.SpreadPercentage | data/fetcher.py:457-460 | the relative spread is positive exactly when the lowest price and the spread are, and then is the spread in percent of the lowest price |
| Quote.SpreadSymmetric | data/fetcher.py:451-452 | the spread does not depend on which price is the larger |
| Quote.Assemble | data/fetcher.py:466-472 | the quote carries the given prices and volume, and its spread fields agree with its prices |
| Quote.QuoteOf | data/fetcher.py:437-472 | the quote holds the parsed raw fields, a non-negative volume and consistent spreads |
| Quote.QuoteWithoutDigitsInvalid | data/fetcher.py:437-444 | a response whose lowest price or volume has no digit, an absent field included, never gives a valid quote |
| Observation.ToPoints | data/db.py:713-723 | each history tuple is the timestamp and the five figures of the row at the same position |
| Observation.TextLeTotalOrder | data/db.py:702 | the TEXT order of timestamps is a total order |
| Store.UpsertSpec | data/db.py:263-290 | `INSERT OR REPLACE` keeps one ledger entry per version, the new entry replaces any old one for its version, every other entry stays, and a version not below any recorded one becomes the schema version |
| Store.AlterColumnsByName | data/db.py:367-383 | adding the metric columns by name adds exactly the missing ones and cannot fail; a second run adds nothing |
| Store.AlterByNameAddsMissing | data/db.py:378-383 | the column loop adds exactly the definitions whose names are missing |
| Store.AddColumns | data/db.py:378-383 | the loop method computes the column loop's result |
| Store.CreateAll | data/db.py:386-391 | the `CREATE ... IF NOT EXISTS` loop method computes the loop's result |
| Store.CreateObjectsSucceeds | data/db.py:99-155 | when every column an index refers to exists, all indexes and views end up present and nothing fails; a view's columns are not checked at creation |
| Store.CreateObjectsFails | data/db.py:99-118 | a new index that refers to a missing column makes the loop fail |
| Store.ViewsAlwaysCreated | data/db.py:120-155 | the view loop never fails and leaves both views present, whatever columns `market_data` has |
| Store.SchemaObjectsUseCurrentColumns | data/db.py:71-155 | every index and view refers only to columns of the current `market_data` table; the six statements of `CREATE_INDEXES` are indexes and the two of `CREATE_VIEWS` views |
| Store.BackfillSpec | data/db.py:394-398 | the backfill sets the median to the lowest price exactly where the median is 0 and the lowest price positive, changes nothing else, and a second backfill changes nothing |
| Store.KeepRecentSpec | data/db.py:1175-1178 | the deletion leaves no row older than the cutoff and keeps every other row as often as it was stored; with nothing older the rows are untouched |
| Store.InitialSchemaWithVolume | data/db.py:476-505 | on an existing well-formed `market_data` with `volume`, even without `median_price`, the initial schema succeeds, keeps the columns and adds every index and view |
| Store.InitialSchemaOnNewFile | data/db.py:476-505 | on a file without `market_data` the initial schema cannot fail and creates the current table, every index and every view |
| Store.InitialSchemaFailsWithoutVolume | data/db.py:116 | on a version-1 table the initial schema fails, because `idx_volume_analysis` needs `volume` |
| Store.InitialSchemaKeeps | data/db.py:476-505 | a successful initial schema has both tables, keeps what was present and is well formed |
| Store.MigratedSchemaByName | data/db.py:327-416 | with the column named, the v1→v2 step cannot fail on a well-formed table and adds exactly the missing metric columns and every index and view |
| Store.MigratedSchemaIdempotent | data/db.py:327-416 | migrating a migrated schema changes nothing |
| Store.MigratedSchemaKeeps | data/db.py:327-416 | a successful step keeps the schema well formed, only grows it and provides `median_price` |
| Store.MigratedSchemaAsWrittenFails | data/db.py:380 | as written, the step fails on every table missing both `median_price` and `spread_absolute`, so on every version-1 table |
| Store.AlterAsWrittenFailsOnV1Table | data/db.py:371-383 | as written, the statement names the new columns `REAL`, `INTEGER` and `REAL` again, and the repeated name fails |
| Store.AlterAsWrittenAddsNoMetric | data/db.py:380 | as written, even a step that succeeds adds no metric column |
| Store.ObservationStore.SetSchemaVersion | data/db.py:263-290 | the ledger entry is upserted; without the ledger table the call fails and nothing changes |
| Store.ObservationStore.CreateInitialSchema | data/db.py:476-505 | the schema becomes the initial schema when that succeeds; the model treats a failure as leaving the old schema; rows and ledger stay |
| Store.ObservationStore.MigrateV1ToV2 | data/db.py:327-416 | a backup of the rows is taken first; on success the schema is migrated and the rows backfilled; a failure leaves schema and rows as they were |
| Store.ObservationStore.UpgradeToV1 | data/db.py:454-461 | the initial schema, then version 1 recorded with its description |
| Store.ObservationStore.UpgradeToV2 | data/db.py:463-467 | the v1→v2 step with the columns named as the `naming` argument says, then version 2 recorded. It passes exactly when the step succeeds and the ledger table exists, and a failed step changes nothing. With the columns named, the step succeeds exactly when `market_data` exists and adds every current column, index and view. As written (db.py:380), it fails without change on every table missing `median_price` and `spread_absolute` |
| Store.ObservationStore.Migrate | data/db.py:418-474 | with the v1→v2 columns named as the `naming` argument says: the current version changes nothing, and a newer one fails without change. An older one that passes ends at version 2 with the backfilled rows; with the columns named it also has every current column, index and view, and a version-1 store always passes. As written, a version-1 store missing `median_price` and `spread_absolute` fails with nothing changed. A fresh file ends with the current schema and exactly the two ledger entries either way, and a failure keeps the rows |
| Store.MigratedCurrentSchema | data/db.py:366-384 | the v1→v2 step on the current schema changes nothing, however the columns are named, because none is missing |
| Store.ObservationStore.InsertMarketData | data/db.py:575-635 | the argument checks come first, in order; the insert passes exactly when they pass and the table has every column, and then appends one row with the stripped name; otherwise the rows stay |
| Store.ObservationStore.CleanupOldData | data/db.py:1138-1190 | after a backup, the result is the number of rows older than the cutoff, and exactly those are deleted |
| Store.ObservationStore.CleanupOldDataAsWritten | data/db.py:1175-1184 | as written the rows never change, and the call succeeds only when there is nothing to delete |
| History.Select | data/db.py:687-699 | the selection holds exactly the rows of the skin that are not older than the cutoff, each as often as it is stored |
| History.SortByTimeSorted | data/db.py:702 | `ORDER BY timestamp ASC` yields chronological order |
| History.SortByTime | data/db.py:702 | the sort is a permutation of its input |
| History.Since | data/db.py:679-680 | a time filter applies exactly for a positive number of days |
| History.HistoryArguments | data/db.py:672-680 | a blank name gives the empty list, and a limit or number of days that is not positive counts as not given |
| History.HistoryContents | data/db.py:682-702 | without a limit the history is chronological and holds exactly the stripped skin's rows not older than the cutoff, with their multiplicities |
| History.HistoryLimitEarliest | data/db.py:705-707 | with a positive limit the history is a prefix of the unlimited one: the earliest rows, and no row left out is older than one returned |
| History.HistoryRowsMatch | data/db.py:687-699 | every returned row is stored, belongs to the stripped skin and is not older than the cutoff when days are given |
| History.Latest | data/db.py:772-776 | the latest row is absent exactly for no rows, and otherwise is a stored row no row postdates |
| History.LatestPriceSpec | data/db.py:744-797 | a blank name or a skin without rows gives 0.0; otherwise the price is that of a row of the skin that no row of the skin postdates |
| History.LatestIsLastOfHistory | data/db.py:637-797 | the latest row and the last row of the unlimited history share their timestamp |
| History.HistoryOfAllRows | data/db.py:637-734 | the unlimited history of a non-blank name is the sorted selection of its rows, empty exactly when the skin has none |
| History.ExportSpec | data/db.py:841-870 | a blank skin, then a blank file name, then any format but CSV raises, each case naming its own argument; a skin without rows writes nothing; otherwise the whole history goes to the stripped file name with its first and last timestamp as the range |
| Statistics.Minimum | data/db.py:1107 | `min(prices)` is a price not above any other |
| Statistics.Maximum | data/db.py:1108 | `max(prices)` is a price not below any other |
| Statistics.MeanAtMost | data/db.py:1109 | the average does not exceed a bound on every price |
| Statistics.MeanAtLeast | data/db.py:1109 | the average is not below a bound on every price |
| Statistics.Classify | data/db.py:1120-1125 | a change under one cent either way is `stable`, a larger rise `rising`, a larger fall `falling` |
| Statistics.StatsOfPricesSpec | data/db.py:1100-1132 | no statistics for no prices; otherwise the count, the extremes as prices of the series, an average between them, a non-negative range, the last price, and the half-against-half trend or `insufficient_data` with change 0.0 |
| Statistics.NonDecreasingNeverFalling | data/db.py:1115-1125 | prices that never fall have a non-negative trend change and are never `falling` |
| Statistics.ConstantIsStable | data/db.py:1115-1125 | a constant series is `stable` with change 0.0 |
| Statistics.LowestPrices | data/db.py:1103 | the prices are the lowest prices of the history points, in order |
| Statistics.PriceStatisticsOfHistory | data/db.py:1086-1136 | the statistics are empty exactly when the history is, and their latest figure is the last history point's price |
| Statistics.Skins | data/db.py:958-959 | the distinct skins are exactly the stored skin names, no more of them than rows |
| Statistics.FirstTimestamp | data/db.py:962-967 | `MIN(timestamp)` is absent exactly for no rows and otherwise is a stored timestamp |
| Statistics.LastTimestamp | data/db.py:962-967 | `MAX(timestamp)` is absent exactly for no rows and otherwise is a stored timestamp |
| Statistics.DbStatisticsSpec | data/db.py:930-994 | no more skins than records and at least one with a record; the time range is absent exactly for an empty store and otherwise runs from an earliest to a latest stored timestamp |
| Integrity.CountRows | data/db.py:1030-1045 | a count is at most the number of rows and is zero exactly when no row matches |
| Integrity.TwinCount | data/db.py:1048-1057 | the duplicate entries counted are zero exactly when no row shares its skin and timestamp with another |
| Integrity.CriticalIssues | data/db.py:1066 | the critical issues are exactly the issues naming empty values, and there are none exactly when no such issue exists |
| Integrity.ValidateIntegritySpec | data/db.py:1019-1080 | the check raises exactly when some row has an empty skin or timestamp, reporting their number; bad timestamps and duplicates are reported but never fatal |
| Integrity.EmptyTimestampIsInvalid | data/db.py:1039-1045 | an empty timestamp also fails the timestamp pattern |
| Integrity.DuplicatesComeInPairs | data/db.py:1048-1057 | a duplicate issue covers at least one group and at least two entries |
| Integrity.CleanStorePasses | data/db.py:1019-1072 | rows with distinct keys, well-formed timestamps and non-empty skins pass with no issue |
| Worker.CheckAlertSpec | ui/main_window.py:64-98 | a missing or unreadable file, or no limit for the skin, gives no alarm and no error; a numeric limit fires exactly when the price does not exceed it; `TypeError`, `AttributeError` or `UnicodeDecodeError` escape exactly for a file that is not UTF-8, a document that is not an object or a limit of another type; a cheaper price fires whenever a dearer one does |
| Worker.UndecodableAlertsSkipPause | ui/main_window.py:192-216 | with an alert file that is not UTF-8, an item with a valid quote emits its progress message and the quote, no alarm, and does not reach the pause |
| Worker.ItemShape | ui/main_window.py:187-194 | each item starts with one progress message reporting it 1-based out of the snapshot length |
| Worker.ItemContents | ui/main_window.py:192-211 | within an item the message names the skin, the quote is the fetched valid one, and the alarm follows it only when `check_alert` holds |
| Worker.RunCompletion | ui/main_window.py:225-227 | a run ends with exactly one completion event whose count is the number of quotes emitted, at most the number of valid quotes |
| Worker.RunProgress | ui/main_window.py:187-194 | the progress messages count 1, 2, … with at most one per item; a stop before the run leaves only the completion |
| Worker.RunWithoutStop | ui/main_window.py:187-227 | without a stop every item is processed, every valid quote reported, and a pause follows every item but the last whose fetch and alert test did not raise |
| Worker.RunOrigin | ui/main_window.py:187-227 | every event other than a pause or the completion belongs to one item of the snapshot |
| Worker.RunProgressEvents | ui/main_window.py:192-194 | every progress message is for an item, 1-based, out of the snapshot length, with that item's message |
| Worker.RunQuotes | ui/main_window.py:200-211 | every quote event is an item's valid quote; every alarm is for an item with a valid quote whose limit `check_alert` accepts |
| Worker.RunAlertsFollowQuotes | ui/main_window.py:200-211 | every alarm comes right after the quote it is about |
| Worker.CycleWithStop | ui/main_window.py:187-189 | once `stop()` has landed no further item starts |
| Worker.PriceUpdateWorker.constructor | ui/main_window.py:141-158 | a copy of the list, the update type, and no stop requested |
| Worker.PriceUpdateWorker.Stop | ui/main_window.py:233-240 | the stop flag is set and nothing else changes |
| Worker.PriceUpdateWorker.ProcessItem | ui/main_window.py:192-218 | one item's events are appended, and it reports whether the item reached the pause test and gave a valid quote |
| Worker.PriceUpdateWorker.CycleItem | ui/main_window.py:187-222 | one item's events and its pause are appended, with the flag-read count after it |
| Worker.PriceUpdateWorker.Run | ui/main_window.py:160-231 | the events appended are the trace of the run for the given fetch results, alert file and stop moment |
| MainWindow.DisplayMessage | ui/main_window.py:768 | a message of at most 80 characters is shown as is; a longer one is cut to its first 80 characters plus `...` |
| MainWindow.DisplayMessageIdempotent | ui/main_window.py:768 | shortening a displayed message again changes nothing |
| MainWindow.SafeFilenameChars | ui/main_window.py:1225 | the file name holds only letters, digits, spaces, `-` and `_`, and neither starts nor ends with a space |
| MainWindow.SafeFilenameKeepsAlnum | ui/main_window.py:1225 | every letter and digit of the skin name survives, as often as it occurs |
| MainWindow.SafeFilenameIdempotent | ui/main_window.py:1225 | sanitising a safe file name changes nothing |
| MainWindow.OverlapWarningIff | ui/main_window.py:920-921 | the warning appears exactly when there are more than 24 skins per minute of interval |
| MainWindow.RecommendedAsWritten | ui/main_window.py:927 | the recommendation as written is the number of skins divided by 30, plus 2 minutes |
| MainWindow.RecommendationStillWarns | ui/main_window.py:920-927 | with 145 skins the recommended 6 minutes draw the same warning again |
| MainWindow.RecommendationWarnsForLargeLists | ui/main_window.py:920-927 | for more than 240 skins the recommendation always draws the warning again |
| MainWindow.Recommended | ui/main_window.py:920-927 | the corrected recommendation avoids the warning, is never below the written one, equals it when that avoids the warning, and is otherwise the shortest interval without the warning |
| MainWindow.AddKeepsCaseDistinct | ui/main_window.py:1092-1104 | adding keeps the entries distinct up to case, and the new entry is stripped and not empty |
| MainWindow.Without | ui/main_window.py:1124 | `takeItem` removes the entry at the index and shifts the later ones down |
| MainWindow.RemoveKeepsCaseDistinct | ui/main_window.py:1122-1124 | removing keeps the entries distinct up to case and removes one occurrence |
| MainWindow.LoadedEntriesStripped | ui/main_window.py:1059-1062 | there are no more entries than list elements, and each is stripped and not empty |
| MainWindow.LoadedEntriesMember | ui/main_window.py:1059-1062 | a name is loaded exactly when it is the stripped form of a non-blank string of the list |
| MainWindow.LoadedEntriesAppend | ui/main_window.py:1060-1062 | the loop handles the elements one by one: loading a concatenation concatenates the loads |
| MainWindow.LoadKeepsDuplicates | ui/main_window.py:1059-1062 | loading does not drop duplicates: a name listed twice is loaded twice |
| MainWindow.Window.constructor | ui/main_window.py:311-318 | an empty watchlist, no auto-update and no worker; the window's own `load_watchlist` call is the separate method `LoadWatchlist` |
| MainWindow.Window.StartUpdateWorker | ui/main_window.py:696-746 | nothing while a worker runs; otherwise a fresh running worker over a copy of the watchlist; the watchlist and timer stay |
| MainWindow.Window.StartAutoUpdateCycle | ui/main_window.py:680-694 | a worker starts exactly while auto-updating, with a non-empty watchlist and no worker running; it is an automatic one over the watchlist |
| MainWindow.Window.StartManualUpdate | ui/main_window.py:664-678 | a worker starts exactly with a non-empty watchlist and no worker running; it is a manual one over the watchlist |
| MainWindow.Window.StartAutoUpdate | ui/main_window.py:888-947 | the automatic update is activated exactly for a non-empty watchlist whose warning, if any, was accepted; the timer then runs every interval in milliseconds and the first cycle starts |
| MainWindow.Window.AddSkin | ui/main_window.py:1082-1104 | the outcome is empty input, duplicate up to case, or added; only an added name is appended, stripped |
| MainWindow.Window.RemoveSkin | ui/main_window.py:1112-1128 | only a selected entry is removed |
| MainWindow.Window.LoadWatchlist | ui/main_window.py:1043-1064 | the stripped non-blank strings of a JSON list are appended in order; a missing or unreadable file, or a document that is not a list, adds nothing |
| MainWindow.Window.AddEntries | ui/main_window.py:1059-1062 | the loop appends the loaded entries of the list, in order |
| Chart.ParsedTimestampsSpec | plots/chart.py:367-375 | the first loop keeps only timestamps that parse, and one for each row that parses |
| Chart.PreprocessSpec | plots/chart.py:340-405 | no series exactly when no timestamp parses; otherwise every column has one value per parsed timestamp, clamped at zero and taken from the row at the same position of the input |
| Chart.PreprocessData | plots/chart.py:340-405 | the method's loop and columns compute the preprocessing as written |
| Chart.PreprocessMisaligned | plots/chart.py:381-389 | with an unparseable first row, the only price drawn is that row's, next to the second row's time |
| Chart.PreprocessAlignedNone | plots/chart.py:377-379 | the corrected series exists exactly when the written one does |
| Chart.PreprocessAlignedRows | plots/chart.py:381-401 | in the corrected series each value belongs to the row its timestamp came from, a row whose timestamp parses |
| Chart.PreprocessAlignedAgrees | plots/chart.py:381-401 | when every timestamp parses the corrected and the written series are the same |
| Chart.PositivesSpec | plots/chart.py:527 | `median_prices[median_prices > 0]` keeps exactly the positive values |
| Chart.PriceAxisLimitsSpec | plots/chart.py:496-553 | no limits for one price or none; otherwise the limits strictly enclose every considered price with the same margin on both sides, the margin at least 0.1 and at least 5 % of the price range, set from the least and the greatest price |
| Chart.ConsideredMedians | plots/chart.py:523-529 | the medians considered are exactly the positive ones, and only when the median series is drawn |
| Chart.FlatMargin | plots/chart.py:542-547 | identical prices get a margin of 10 % of the price, never below 0.1 |
| Chart.MedianPlottedIff | plots/chart.py:452-464 | the median series is drawn exactly when some median is positive |
| Chart.SpreadUnitPercentage | plots/chart.py:682-685 | percentages are shown when one percentage is positive and each is below 50 |
| Chart.SpreadUnitAbsolute | plots/chart.py:682-698 | absolute spreads are shown when each percentage is zero or at least 50 |
| Chart.LabelInterval | plots/chart.py:791 | the interval is at least 1; showing every n-th label leaves fewer than 16 shown (count < 16·n), and from 8 labels on at least 8 are shown (8·n ≤ count) |
| Chart.XAxisSpec | plots/chart.py:783-791 | the time of day is shown exactly for fewer than 8 labels, labels are thinned out only with the day-and-month format, and below 16 labels none is skipped |

## Left out

- I/O is not modelled: the Steam HTTP request, files, the clock, the backup file copy and logging
  or `print`. A fetch result, the content of `alerts.json` and `watchlist.json`, the current time
  and the cutoff timestamp are parameters. A backup is a snapshot of the rows.
- Qt is not modelled: widgets, dialogs, signals, the timer and the worker thread. A dialog answer
  is a parameter, `isRunning()` is a field, and the moment a concurrent `stop()` lands is the
  parameter `stopAt`. The run's duration string is not modelled.
- `save_watchlist`, clearing the input field, `update_market_data_for_skin`, `setCurrentRow` and
  `update_chart` are calls into the window's other code and are not part of this model.
- The global `except` of the worker's `run()` and thus `error_occurred` are not modelled.
  Per-skin exceptions are modelled through the fetch result `Raised`.
- `MainWindow.LoadedFrom`: a watchlist file that is not UTF-8 loads nothing, as an unreadable one
  does. The source lets its `UnicodeDecodeError` escape `load_watchlist` without the warning dialog,
  and the dialog is not modelled.
- `Store.ObservationStore.CreateInitialSchema` and `Store.ObservationStore.UpgradeToV1`: the model
  treats a failure as leaving the schema unchanged. The source creates the initial schema outside a
  transaction, so the tables, indexes and views made before the failing statement remain and
  the `rollback()` undoes nothing. Only the version-1-to-2 step, which opens `BEGIN IMMEDIATE`, is
  rolled back.
- A view over a column the table lacks is created, as SQLite does; the error SQLite reports when
  such a view is first read is not modelled, since no modelled query reads `daily_summary` or
  `latest_prices`.
- The interval spin box range (3 to 1440 minutes) is not enforced: `StartAutoUpdate` accepts
  any interval.
- `Quote.ToFloat` computes exact decimal values, not IEEE-754 doubles. Rounding of `float()` and
  of the spread division is not modelled.
- `Text.IsSpace`, `Text.IsAlnum`, `Text.Lower` and `Text.Trim` cover ASCII only; Unicode
  categories and case mappings are not modelled.
- Store: PRAGMA settings, connections, the read-only mode, the file size in `get_db_statistics`
  and its top-five list are not modelled. So are the timestamps and durations of the version
  ledger and `init_db`'s logging and statistics printout.
- `init_db` is modelled through its parts: `Migrate`, then `ValidateIntegrity`.
- `export_market_data`: the CSV writing itself is not modelled, that is the metadata lines, the
  batch loop, the progress output and the price range printout. Only the argument checks, the
  empty case and the rows to write are.
- The `float()`/`int()` conversions of stored values in `_preprocess_data` are not modelled: the
  fields of a chart row are numbers already, so the `except` of that function is left out.
  `datetime.fromisoformat` is the parameter `parses`.
- The `len(prices) == 0` check in `_preprocess_data` cannot hold once a timestamp parsed, so it
  has no branch of its own.
- `_finalize_layout` counts the tick labels matplotlib created. That count is a parameter;
  tick placement itself is not modelled. Drawing, colours, annotations and the volume panel are
  not modelled.
- `History.HistoryContents`, `History.LatestPriceSpec`, `Statistics.StatsOfPricesSpec`,
  `Statistics.DbStatisticsSpec` and `Integrity.ValidateIntegritySpec` read the rows as a value, so
  they do not model the read side's `sqlite3.Error` paths, which are reachable, for instance, before
  `market_data` exists. On such an error `get_market_history` returns `[]`, `get_latest_price`
  returns `0.0`, `get_price_statistics` returns `{}`, `get_db_statistics` returns `{'error': ...}`
  and `_validate_database_integrity` raises `RuntimeError`.
- Rows with equal timestamps are assumed to come back in insertion order. SQL does not promise
  this for `ORDER BY timestamp`; SQLite does it because it scans the `(skin, timestamp)`
  index, whose ties are ordered by row id. The assumption decides which tied rows
  `History.HistoryLimitEarliest` returns under a limit.
- `get_market_history` with a limit returns the earliest matching rows (`ORDER BY timestamp ASC
  LIMIT ?`), not the newest as its docstring says. The model follows the code
  (`History.HistoryLimitEarliest`).

## Findings

| source | as written | input that shows it | evidently intended | confidence | as-written member | corrected member |
|---|---|---|---|---|---|---|
| data/db.py:380 | `ALTER TABLE market_data ADD COLUMN {column_def}`: the definition alone, so SQLite names the column after its type word | any version-1 table: the first column is named `REAL`, the third `REAL` again, and the statement fails | `ADD COLUMN {column_name} {column_def}` | medium, not executed | Store.MigratedSchemaAsWrittenFails | Store.MigratedSchemaByName |
| data/db.py:1175-1183 | `VACUUM` inside the transaction the `DELETE` opened | any store with a row older than the cutoff: SQLite refuses to vacuum inside a transaction, so the deletion is rolled back | commit the deletion, then `VACUUM` | medium, not executed | Store.ObservationStore.CleanupOldDataAsWritten | Store.ObservationStore.CleanupOldData |
| ui/main_window.py:920-927 | the recommended interval is `int(estimated_duration/60)+2` minutes | 145 skins: 290 s recommend 6 minutes, but 290 > 6·60·0.8 = 288 still warns | an interval that no longer draws the warning | high, not executed | MainWindow.RecommendationStillWarns | MainWindow.Recommended |
| plots/chart.py:381-389 | the value columns take rows `0..len(timestamps)-1`, not the rows whose timestamps parsed | rows `[(bad, 5.0, …), (good, 7.0, …)]`: the time `good` is drawn with price 5.0 | values from the rows whose timestamps parsed | high, not executed | Chart.PreprocessMisaligned | Chart.PreprocessAlignedRows |
