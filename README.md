# conagua-presas, modelled in Dafny

The repository downloads the daily dam-storage reports of Mexico's water
authority (CONAGUA) and turns them into charts. This project models its data
pipeline:

- `downloader.py`
  - `descargar` plans one download per day of a year. A day is skipped when its
    `YYYY-MM-DD.json` file is already on disk.
  - `combinar` joins the JSON reports of a year into one table, strips its text
    columns and sorts it by id.
  - `generar_catalogo` cleans the common names of the dam catalogue.
- `tabla_estatal.py` builds the per-state table of one day:
  - the state of every dam, taken from the abbreviation after the last comma
    of its official name;
  - the number of dams and the sums per state;
  - a "Nacional" total row;
  - the fill level `almacenaactual / namoalmac * 100` and the highlight colour;
  - the rows sorted by level, highest first;
  - the title.
- `velas_individual.py`, `velas_multiple.py` and `velas_multiples.py` build
  monthly candle charts, for one dam, a group of dams, or all the dams of a
  state:
  - each day's readings are pivoted with the last reading of each dam kept,
    then summed;
  - for every month of 2010..2024 the candle is the open, high, low and close
    of those daily totals; a month with no readings raises `IndexError`, which
    is swallowed;
  - the same candles are shown as a percentage of the NAMO. The NAMO is the
    ordinary maximum storage level.

Module layout:

| module | file | role |
|---|---|---|
| `Wrappers` | `wrappers.dfy` | `Option`, `Result` and the Python exceptions the scripts raise. |
| `Text` | `text.dfy` | `str.strip`, `str.split`, `str.join`, `str.zfill`, `str(int)` and `in` on strings. |
| `Calendar` | `calendar.dfy` | Gregorian dates, `datetime`'s valid range, `+ timedelta(days=i)`, the `Y-MM-DD` format. |
| `Readings` | `readings.dfy` | The rows of the yearly files and of the catalogue, boolean-mask selection, `pd.concat`, the file-loading loop. |
| `Pivot` | `pivot.dfy` | `pivot_table(aggfunc="last")` and `df.sum(axis=1)`. |
| `Candles` | `candles.dfy` | The `for year / for month` candle loop and `final / namo * 100`. |
| `Downloader`, `TablaEstatal`, `VelasIndividual`, `VelasMultiple`, `VelasMultiples` | one file each | The scripts themselves. |

The following are parameters of the model:

- directory listings;
- file contents, as sequences of records;
- the number of days until today;
- the abbreviation tables.

Files are not read, pages are not fetched and images are not drawn.

Volumes are Dafny `real`s. A division by a zero NAMO is modelled explicitly:

- as the error `ZeroNamo` where the table or a percentage chart would get an
  infinite or NaN value (the hm3 chart of the same dam is still built);
- as a missing value (`None`) in the daily percentage series.

## Model

| member | source | states |
|---|---|---|
| `Text.Strip` | `downloader.py:103` | The result has no whitespace at either end, and it is a slice of the input outside of which every character is whitespace. |
| `Text.StripIdempotent` | `downloader.py:133` | Stripping twice equals stripping once. |
| `Text.StripSkipsLeadingSpace` | `downloader.py:133` | A leading whitespace character does not change the stripped result. |
| `Text.Split` | `tabla_estatal.py:89` | `split` always gives at least one piece. |
| `Text.JoinEnds` | `velas_multiple.py:34` | A join starts with its first piece and ends with its last one. |
| `Text.JoinSplit` | `downloader.py:133` | Joining the pieces of a split with the same separator gives the string back. |
| `Text.SplitJoin` | `downloader.py:133` | Splitting a join, when no piece contains the separator's first character, gives the pieces back. |
| `Text.SplitWithoutSeparator` | `tabla_estatal.py:89` | A string without the separator splits into itself alone. |
| `Text.SplitAtFirst` | `velas_multiples.py:72` | A one-character split cuts at the first occurrence of the separator. |
| `Text.SplitThree` | `downloader.py:54` | Three pieces joined by a separator they lack split back into the three. |
| `Text.SplitAtSeparator` | `velas_multiples.py:72` | Splitting `a + sep + b`, when `a` lacks the separator's first character, gives `a` followed by the pieces of `b`. |
| `Text.SplitSuffix` | `tabla_estatal.py:89` | The pieces of the text after a separator are the last pieces of the whole split. |
| `Text.LastPieceAfterSeparator` | `tabla_estatal.py:89` | `s.split(c)[-1]` ignores everything up to the last separator. |
| `Text.SplitPiecesFree` | `downloader.py:133` | No piece of a one-character split contains that character. |
| `Text.NatToString` | `downloader.py:54` | `str(n)` is a non-empty run of decimal digits, with no leading zero unless `n == 0`. |
| `Text.DigitsValueOfNat` | `downloader.py:54` | Reading the digits of `str(n)` back gives `n`. |
| `Text.NatToStringInjective` | `downloader.py:54` | Different numbers print differently. |
| `Text.ZFill` | `downloader.py:54` | `zfill` leaves a string at least as long as the width unchanged. A shorter string is padded to the width with zeros, placed after a leading '+' or '-' when there is one and in front otherwise. |
| `Text.Pad2` | `tabla_estatal.py:169` | The zero padding `{dia:02}` of a day of the month is two digits that read back as the day. |
| `Calendar.DaysInMonth` | `downloader.py:53` | Months have 28 to 31 days: 31 for January, March, May, July, August, October and December, 30 for April, June, September and November, and February 29 exactly in leap years. |
| `Calendar.NextDay` | `downloader.py:53` | The next day is a valid date, strictly later. |
| `Calendar.AddDaysOrdinal` | `downloader.py:53` | Adding `n` days advances the day number by exactly `n`. |
| `Calendar.AddDaysIncreasing` | `downloader.py:51-53` | More days added gives a strictly later date. |
| `Calendar.AddDaysInjective` | `downloader.py:51-53` | Different offsets give different dates. |
| `Calendar.ParseFormatDate` | `downloader.py:54` | The `Y-MM-DD` text of a valid date reads back as that date. |
| `Calendar.FormatDateInjective` | `downloader.py:54` | Different dates have different `Y-MM-DD` texts. |
| `Calendar.FormatDateIsFullDate` | `downloader.py:54` | For years 1000..9999 the text is 4 digits, '-', 2 digits, '-', 2 digits. |
| `Readings.Filter` | `velas_individual.py:45` | A row is selected iff it is in the frame and satisfies the mask. |
| `Readings.FilterConcat` | `velas_individual.py:38-51` | Selecting rows and concatenating frames commute. |
| `Readings.ConcatMembers` | `velas_individual.py:51` | A row of the concatenation is exactly a row of one of the frames. |
| `Readings.SelectDams` | `velas_multiple.py:47` | `isin(presas)` keeps exactly the readings of the listed dams. |
| `Readings.LoadSelected` | `velas_individual.py:34-51` | The loading loop fails with `ValueError("No objects to concatenate")` iff the listing is empty; otherwise it returns the selected rows of all files in order. |
| `Readings.SelectCatalogue` | `velas_multiple.py:28` | Keeps exactly the catalogue rows of the listed dams. |
| `Readings.CatalogueNamoNonNegative` | `velas_multiple.py:31` | The summed NAMO is not negative when no NAMO is. |
| `Pivot.Put` | `velas_individual.py:79-84` | Writing a value replaces the dam's column or adds one; columns stay distinct. |
| `Pivot.PivotRow` | `velas_individual.py:79-84` | The pivot row of a day has at most one column per dam. |
| `Pivot.PivotRowIsLastReading` | `velas_individual.py:79-84` | Each column holds its dam's last reading of the day, and every dam read that day has a column. |
| `Pivot.PivotRowDamsWereRead` | `velas_individual.py:79-84` | Every column is a dam read that day. |
| `Pivot.SingleDamTotal` | `velas_individual.py:87` | With one dam, the day's total is that dam's last reading. |
| `Pivot.RowTotalPut` | `velas_individual.py:87` | Overwriting a non-negative value adds at most the new value to the row sum. |
| `Pivot.PivotRowAtMostDayStored` | `velas_multiples.py:362-370` | The pivot total of a day is between 0 and the sum of all that day's readings. |
| `Pivot.InsertDate` | `velas_individual.py:79-84` | Inserting into the sorted index keeps it strictly increasing and adds exactly the date. |
| `Pivot.IndexDates` | `velas_individual.py:79-84` | The pivot index is the set of monitoring dates, strictly increasing. |
| `Pivot.DailyTotals` | `velas_individual.py:87` | One point per monitoring date, in date order, each the sum of its pivot row. |
| `Candles.MonthTotals` | `velas_individual.py:96` | The month's slice is no longer than the series and holds exactly the totals of the series points dated in that month. |
| `Candles.MonthlyCandlesOf` | `velas_individual.py:89-109` | At most one candle per month of 2010..2024, in strictly increasing month order. |
| `Candles.MaxIsGreatest` | `velas_individual.py:104` | `max()` is a value of the series and no value exceeds it. |
| `Candles.MinIsLeast` | `velas_individual.py:105` | `min()` is a value of the series and no value is below it. |
| `Candles.First` | `velas_individual.py:102` | `iloc[0]` is the first value, or `IndexError` on an empty series. |
| `Candles.MonthCandle` | `velas_individual.py:94-109` | A month has a candle iff it has readings. The candle is dated the 1st of the month and has low <= open, close <= high. Otherwise the error is `IndexError`. |
| `Candles.MonthlyCandles` | `velas_individual.py:89-109` | The loop's `data` equals the specification `MonthlyCandlesOf`. |
| `Candles.CandlesUntilStep` | `velas_individual.py:93-109` | One inner iteration appends exactly what the month's `try` produces. |
| `Candles.AppendedOrSkipped` | `velas_individual.py:94-109` | After a month, `data` holds the earlier candles plus that month's candle, if any. |
| `Candles.CandlesUntilDates` | `velas_individual.py:92-101` | Every emitted candle is dated the 1st of an earlier month of 2010.. |
| `Candles.CandlesUntilMembers` | `velas_individual.py:94-109` | Every emitted candle is the candle of its own month. |
| `Candles.CandlesUntilSize` | `velas_individual.py:92-93` | At most one candle per month visited. |
| `Candles.CandlesUntilChronological` | `velas_individual.py:92-101` | The emitted candles are in strictly increasing date order. |
| `Candles.CandlesWellFormed` | `velas_individual.py:89-111` | At most 180 candles, in date order, each in 2010..2024 on the 1st of a month, with low <= open, close <= high. |
| `Candles.CandlesUntilIncludes` | `velas_individual.py:99` | The loop only appends: whatever `data` held it still holds later. |
| `Candles.CandlesUntilPrefix` | `velas_individual.py:99` | `data` at an earlier point of the loop is a prefix of `data` at any later point. |
| `Candles.NonEmptyMonthEmitted` | `velas_individual.py:94-107` | Every covered month with readings has its candle in the output. |
| `Candles.MonthEmittedBy` | `velas_individual.py:94-107` | A month's candle stays in `data` from the month after it on. |
| `Candles.EmptyMonthSkipped` | `velas_individual.py:108-109` | A month without readings has no candle: the swallowed exception appends nothing. |
| `Candles.MonthTotalsFirst` | `velas_individual.py:102` | The first value of the month is the total of the earliest series point in that month. |
| `Candles.MonthTotalsLast` | `velas_individual.py:103` | The last value of the month is the total of the latest series point in that month. |
| `Candles.MonthTotalsEmpty` | `velas_individual.py:96` | The month's slice is empty iff no series point falls in it. |
| `Candles.CandleIsMonthOhlc` | `velas_individual.py:99-107` | A candle's open/close are the totals of the month's earliest/latest day; high/low are its largest/smallest total. |
| `Candles.KeepCoveredYears` | `velas_individual.py:92` | The restricted series only has points in 2010..2024. |
| `Candles.SameMonthsSameCandles` | `velas_individual.py:92-109` | Series with equal month slices give equal candles. |
| `Candles.OtherYearsIgnored` | `velas_individual.py:92` | Points outside 2010..2024 do not change the output. |
| `Candles.PercentMonotone` | `velas_individual.py:278` | With a positive NAMO the percentage preserves order. |
| `Candles.PercentOfPart` | `velas_multiples.py:370` | A part of a positive whole is between 0 and 100 percent. |
| `Candles.PercentInverse` | `velas_individual.py:278` | Scaling back by NAMO / 100 gives the volume. |
| `Candles.ScaleCandles` | `velas_individual.py:278` | Fails iff NAMO is zero. Otherwise it keeps dates and length and turns every price `p` into `p / namo * 100`. |
| `Candles.ScalePreservesOrder` | `velas_individual.py:278` | With a positive NAMO, percentage candles keep low <= open, close <= high. |
| `TablaEstatal.MesesCoversTheYear` | `tabla_estatal.py:36-49` | `MESES` has exactly the months 1..12. |
| `TablaEstatal.CutDate` | `tabla_estatal.py:85` | `datetime(año, mes, dia)` succeeds iff the date is valid with year <= 9999. Otherwise it fails with `OverflowError` iff an argument is outside the C `int` range, and with `ValueError` in every other case. |
| `TablaEstatal.ReadingsOn` | `tabla_estatal.py:85` | Keeps exactly the readings of that date. |
| `TablaEstatal.StateOf` | `tabla_estatal.py:88-90` | The state is known iff the stripped text after the last comma is a key; otherwise `KeyError` of that text. |
| `TablaEstatal.StateOfIgnoresPrefix` | `tabla_estatal.py:89` | Only what follows the last comma decides the state. |
| `TablaEstatal.StateOfOfficialName` | `tabla_estatal.py:6-33` | "name, Abbr." with a known abbreviation gives that abbreviation's state. |
| `TablaEstatal.LabelStatesSpec` | `tabla_estatal.py:88-90` | `apply` succeeds iff every name has a state. It then labels every reading in order. Otherwise it stops with the first failing name's error. |
| `TablaEstatal.LabelStates` | `tabla_estatal.py:88-90` | On success there is one labelled reading per reading. |
| `TablaEstatal.Find` | `tabla_estatal.py:96` | A state's row is found iff the state is grouped, and it carries that state. |
| `TablaEstatal.AddToGroupStates` | `tabla_estatal.py:96` | Adding a reading adds its state to the grouped states. |
| `TablaEstatal.AddToGroupDistinct` | `tabla_estatal.py:96` | Adding a reading keeps one row per state. |
| `TablaEstatal.AddToGroupFind` | `tabla_estatal.py:93-99` | Adding a reading bumps its state's row by one dam and its volumes, or starts it; other rows are unchanged. |
| `TablaEstatal.GroupByState` | `tabla_estatal.py:96` | One row per state. |
| `TablaEstatal.CountPositive` | `tabla_estatal.py:93` | A state's count is positive iff some reading has that state. |
| `TablaEstatal.GroupByStateSummarises` | `tabla_estatal.py:93-99` | The grouped states are exactly the readings' states. Each row holds its state's `value_counts` and its `namoalmac` and `almacenaactual` sums. |
| `TablaEstatal.GroupsSummarise` | `tabla_estatal.py:93-99` | Every state's row is present iff its count is positive, and equals its aggregate. |
| `TablaEstatal.GroupByStateConserves` | `tabla_estatal.py:93-99` | The counts add up to the number of readings; the volume columns add up to the readings' totals. |
| `TablaEstatal.NationalRowIsTotal` | `tabla_estatal.py:102` | The "Nacional" row holds the number of dams and the national volume totals. |
| `TablaEstatal.LevelWithinPercent` | `tabla_estatal.py:105` | The division-free bound is the bound on `almacenaactual / namoalmac * 100`. |
| `TablaEstatal.NationalLevelBetween` | `tabla_estatal.py:102-105` | If every state's level lies within bounds, so does the national level. |
| `TablaEstatal.NationalLevelIsMediant` | `tabla_estatal.py:102-105` | With positive NAMOs the national level lies between the lowest and highest state level. |
| `TablaEstatal.TextColor` | `tabla_estatal.py:108-110` | Yellow iff the row is "Nacional", white otherwise. |
| `TablaEstatal.Levels` | `tabla_estatal.py:105-110` | Fails with `ZeroNamo` iff some row has a zero NAMO. Otherwise it gives one row per group, with `nivel * namo == almac * 100` and the colour of its name. |
| `TablaEstatal.SortByLevel` | `tabla_estatal.py:113` | The array ends sorted by level, highest first, and is a permutation of its old contents. |
| `TablaEstatal.Sink` | `tabla_estatal.py:113` | One insertion step extends the sorted prefix by one and permutes the array. |
| `TablaEstatal.Swap` | `tabla_estatal.py:113` | Exchanges two neighbours and changes nothing else. |
| `TablaEstatal.SortedRows` | `tabla_estatal.py:113` | The rows come back sorted by level and as a permutation of the input. |
| `TablaEstatal.OnlyNationalIsYellow` | `tabla_estatal.py:102-110` | When no state is called "Nacional", the table is not empty and only its last, national row is yellow. |
| `TablaEstatal.NationalRowIsTheYellowOne` | `tabla_estatal.py:6-33` | No value of `ENTIDADES` is "Nacional", so the national row is the only yellow row. |
| `TablaEstatal.PlotTable` | `tabla_estatal.py:52-113` | An invalid date gives the error of `datetime(año, mes, dia)`. A missing state's or zero NAMO's error propagates. Otherwise the rows are the state table's rows, sorted by level, with the title of the date. |
| `TablaEstatal.TitleDay` | `tabla_estatal.py:169` | For a valid date, `MESES[mes]` exists and `{dia:02}` is two digits that read back as the day. |
| `VelasIndividual.FirstEntry` | `velas_individual.py:25-31` | Found iff some catalogue row has the id; otherwise `IndexError`. |
| `VelasIndividual.FirstEntryIsFirst` | `velas_individual.py:28-31` | The row found is the first row with that id. |
| `VelasIndividual.BuildReport` | `velas_individual.py:9-111` | Results in order: `IndexError` for an unknown id; `ValueError` for an empty listing; `KeyError("fecha")` iff no month of 2010..2024 has readings of the dam. Otherwise the title data and the candles of the dam's daily series in hm3. The percentage candles are those candles scaled by the NAMO, or `ZeroNamo` when the NAMO is zero. |
| `VelasIndividual.DailyTotalIsLastReading` | `velas_individual.py:79-87` | For one dam, every daily total is that dam's last reading of the day. |
| `VelasIndividual.LoadedRowsAreTheDam` | `velas_individual.py:38-51` | The loaded rows are exactly the dam's readings found in the files. |
| `VelasIndividual.PercentCandlesOrdered` | `velas_individual.py:278` | With a positive NAMO the percentage chart exists and keeps low <= open, close <= high. |
| `VelasMultiple.NamesLabelLines` | `velas_multiple.py:34` | When every chosen dam has a common name, the names text, cut at "<br>", gives "• name" for each chosen dam in catalogue order. |
| `VelasMultiple.NamesLabel` | `velas_multiple.py:34` | `TypeError` iff a chosen dam has no common name. Otherwise the names text starts with the first chosen dam's bullet and ends with the last one's. |
| `VelasMultiple.BuildReport` | `velas_multiple.py:9-117` | `TypeError` iff a chosen dam has no common name. Then `ValueError` iff the listing is empty, then `KeyError("fecha")` iff no month of 2010..2024 has readings of the chosen dams. Otherwise: the summed NAMO, the names text, and the candles of the chosen dams' daily totals in hm3. The percentage candles are those candles scaled by the summed NAMO, or `ZeroNamo` when it is zero. |
| `VelasMultiple.OnlyChosenDams` | `velas_multiple.py:44-47` | Every pivot column is a chosen dam read that day in some file. |
| `VelasMultiple.PercentCandlesOrdered` | `velas_multiple.py:300` | With non-negative NAMOs of positive sum the percentage chart exists and is well ordered. |
| `VelasMultiples.Label` | `velas_multiples.py:72-73` | A missing name raises `AttributeError`. Otherwise a line is built iff the name has exactly two ", " pieces and the stripped second is a key, and the error is `KeyError` of that key or `ValueError`. |
| `VelasMultiples.LabelOfCommonName` | `velas_multiples.py:71-73` | "name, Abbr." becomes "• name, State". |
| `VelasMultiples.LabelNeedsOneSeparator` | `velas_multiples.py:72` | A name without a comma raises `ValueError`. |
| `VelasMultiples.NamesNote` | `velas_multiples.py:69-75` | Succeeds iff every line can be built and then joins them with "<br>". Otherwise it stops with the first failing line's error. |
| `VelasMultiples.Last15` | `velas_multiples.py:82` | `[-15:]` keeps the last `min(15, n)` entries. |
| `VelasMultiples.DayNamo` | `velas_multiples.py:358` | A day's NAMO sum is non-negative when every NAMO is. |
| `VelasMultiples.DayStoredAtMostDayNamo` | `velas_multiples.py:358` | A day's stored sum is at most its NAMO sum when no reading exceeds its NAMO. |
| `VelasMultiples.PointPercent` | `velas_multiples.py:370` | A value exists iff the day's NAMO is not zero, and `p * namo == total * 100`. |
| `VelasMultiples.DailyPercent` | `velas_multiples.py:358-370` | One point per daily total: the day's total over the day's NAMO sum, times 100. |
| `VelasMultiples.DailyPercentBounded` | `velas_multiples.py:358-370` | Every daily percentage lies in [0, 100] when every reading lies between 0 and its NAMO. |
| `VelasMultiples.Note` | `velas_multiples.py:197-200` | The note starts with the header. It ends with the names when names are given; otherwise it is the state text. |
| `VelasMultiples.Anchor` | `velas_multiples.py:202-207` | "left" at 0.02 iff `lado == "left"`, otherwise "right" at 1.0. |
| `VelasMultiples.BuildReport` | `velas_multiples.py:41-97` | Every chosen dam's name must give a line; otherwise the error is that of the first chosen dam whose name fails, `AttributeError` for a missing name. Then `ValueError` iff the listing is empty. Otherwise the NAMO, note, anchor and daily series from the last 15 files. |
| `VelasMultiples.Unique` | `velas_multiples.py:125` | `unique()` keeps the same ids, each once. |
| `VelasMultiples.StateCatalogue` | `velas_multiples.py:123` | Keeps exactly the state's catalogue rows. |
| `VelasMultiples.BuildStateReport` | `velas_multiples.py:101-150` | `ValueError` iff the listing is empty. Otherwise the state's NAMO, the generic note and the daily series of the state's dams. |
| `VelasMultiples.StateReadingsAreTheStatesDams` | `velas_multiples.py:123-142` | The state chart reads exactly the readings of dams the catalogue places in the state. |
| `Downloader.FileNameNamesTheDay` | `downloader.py:54-58` | The file name is the date text plus ".json"; the address is `URL_BASE` plus the date text; both read back as the day. |
| `Downloader.FileNameInjective` | `downloader.py:54-57` | Two days never share a file name. |
| `Downloader.Days` | `downloader.py:51-53` | The i-th day of the loop is January 1st plus `i` days. |
| `Downloader.Descargar` | `downloader.py:37-68` | An error iff the year is outside 1..9998: `OverflowError` iff the year is outside the C `int` range, otherwise `ValueError`. Otherwise the downloads are those of the plan for `max(dias, 0)` days, each with its address and file name. |
| `Downloader.Plan` | `downloader.py:51-62` | At most `dias` downloads, none of a file already in the listing. |
| `Downloader.PlanStep` | `downloader.py:51-61` | One more day adds that day exactly when its file is not in the listing. |
| `Downloader.PlanMembers` | `downloader.py:37-61` | A day is downloaded iff it is one of the first `dias` days and its file is not in the listing. |
| `Downloader.PlanChronological` | `downloader.py:51-53` | Downloads happen in strictly increasing date order. |
| `Downloader.PlanDistinctFiles` | `downloader.py:57-65` | No file is written twice. |
| `Downloader.RerunDownloadsNothing` | `downloader.py:37-61` | With the files of the first run added to the listing, a rerun downloads nothing. |
| `Downloader.StripRecord` | `downloader.py:101-103` | Id and volumes are unchanged; every text column, and the common name when present, has no whitespace at either end. |
| `Downloader.StripRecordIdempotent` | `downloader.py:101-103` | Stripping the text columns twice equals stripping them once. |
| `Downloader.Combinar` | `downloader.py:90-106` | `ValueError("No objects to concatenate")` iff no file name contains the year. Then `KeyError("idmonitoreodiario")` iff the year's files hold no row at all, since the concatenation has no id column to sort by. Otherwise the rows are a permutation of the stripped rows of the year's files, sorted by id. |
| `Downloader.SelectFiles` | `downloader.py:90-94` | The listing loop keeps exactly the accepted files, in order. |
| `Downloader.SortedRecords` | `downloader.py:106` | The rows come back sorted by `idmonitoreodiario` and as a permutation. |
| `Downloader.SortById` | `downloader.py:106` | The array ends sorted by id and is a permutation of its old contents. |
| `Downloader.SinkById` | `downloader.py:106` | One insertion step extends the sorted prefix by one and permutes the array. |
| `Downloader.SwapRecords` | `downloader.py:106` | Exchanges two neighbours and changes nothing else. |
| `Downloader.RowsMembers` | `downloader.py:97` | A concatenated row is exactly a row of one of the files. |
| `Downloader.CombinedRowsAreStripped` | `downloader.py:101-103` | Every row of the result already has its text columns stripped. |
| `Downloader.CombinedRowsAreTheYear` | `downloader.py:90-106` | A row is in the result iff it is the stripped form of a row of a report whose name contains the year. |
| `Downloader.JoinCommaSpace` | `downloader.py:133` | Joining with ", " is joining with "," pieces that, after the first, start with a space. |
| `Downloader.CleanPiecesReturn` | `downloader.py:133` | Stripped comma-free pieces joined with ", ", split at "," and stripped, come back unchanged. |
| `Downloader.CleanName` | `downloader.py:132-136` | A missing name stays missing and a present name gives a name. |
| `Downloader.CleanNameIdempotent` | `downloader.py:132-136` | Cleaning a common name twice equals cleaning it once. |
| `Downloader.CatalogueRequest` | `downloader.py:118-122` | The catalogue is requested for "2024-01-01". |

## Left out

- Network and file I/O are not modelled. This covers `requests.get`, `os.listdir`, `os.makedirs`, `read_json`, `read_csv`, `to_csv` and the image files. Listings and file contents are inputs of the model, and writes are the outputs it returns.
- Plotting is not modelled: `plotly` figures, table layout, `combinar_imagenes` and the PIL image merging. The model stops at the data each chart or table is drawn from.
- `datetime.today()` is not modelled: `Downloader.Descargar` takes the number of days `dias` as a parameter.
- `Downloader.Descargar`: the `OverflowError` of a date past 9999-12-31 is not modelled. The loop stops before today, so such a date is never reached.
- `Downloader.Descargar` does not model the `HEADERS` value or the response text. A download is its address and its file name.
- `Downloader.Combinar`: the per-column strip loop, which runs only over `object` columns, is modelled as a strip of every text field of a record. `pd.read_json`'s type inference is not modelled.
- `Downloader.CleanName`: the catalogue's `df.iloc[:, 2:-3]` column cut is not modelled; only `nombrecomun` is.
- `Downloader.SortById`, `TablaEstatal.SortByLevel`: pandas uses an unstable quicksort, so the order of equal keys is unspecified. The model uses an insertion sort, and the contracts state only "sorted and a permutation", which every valid order satisfies.
- `TablaEstatal.GroupByState`: the model lists groups in first-appearance order, while `groupby` orders them by state name. The rows are re-sorted by level afterwards, so only the order of equal levels could differ, and that order is unspecified anyway.
- `read_csv` turning an empty common name into NaN is not modelled: the catalogue is an input, with `None` for each dam that has no common name.
- `TablaEstatal.StateOfOfficialName` and `VelasMultiples.LabelOfCommonName` take as hypotheses that an abbreviation key has no comma and no surrounding whitespace. Every key of both `ENTIDADES` tables has this property.
- Floating point is not modelled: volumes are exact reals. Where pandas would produce infinity or NaN from a zero NAMO, the model reports `ZeroNamo` (the state table and the percentage candles; the hm3 candles are kept) or `None` (daily percentage series).
- `Pivot.DailyTotals`: pivot columns are kept in first-appearance order, not pandas' sorted column order. Only the row sum is used, and it does not depend on column order.
- The rolling and resampling smoothing steps of the candle scripts are not modelled, nor are chart axis formatting, colours other than the table's text colour, and the annotation strings other than the note.
- The `print` calls in the loading loops are not modelled.
