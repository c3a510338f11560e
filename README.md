# weatherDBscripts: a verified model of the decision logic

weatherDBscripts is a set of Python scripts for a personal weather station. They
store readings in MySQL, derive daily statistics and climate normals, and
raise threshold alerts by e-mail. This project models, in Dafny, the parts of
those scripts that make decisions. It proves what they promise.

- **Alert engine** (`src/WeatherAlert.py`), in `time_ago.dfy` and
  `weather_alert.dfy`:
  - the `time_ago` parser;
  - the WeatherAlerts cooldown registry, an upsert keyed by (alert, station);
  - `check_alert` with its three alert kinds: staleness, direct threshold,
    and variation against a past record;
  - the "nearest past record" selection that the two-branch UNION query
    encodes;
  - `run_alert_checks` over the enabled rules and their stations.
- **Climate normals** (`src/WC_GenNormalsStats.py`), in `normals_stats.dfy`:
  - averages of non-null values;
  - extremes with every tying date;
  - per-year tallies (days in a range, precipitation totals) averaged over
    the distinct years;
  - the reference-period filter;
  - the month-by-month normals.
- **Flattening of the normals JSON** (`src/DisplayNormalsJson.py`), in
  `display_normals.dfy`: `flatten_dict` over a JSON datatype, and the rows
  `display_stats` prints.
- **Day bucketing of an exported CSV** (`src/MV_DailyStat.py`), in
  `daily_stat.dfy`:
  - the loop that streams rows and drops missing-value markers;
  - one line per calendar day, from `DayStat` and `ConvertList`.
- **Daily-statistics upsert** (`src/MV_UpdateDailyStatDB.py`), in
  `update_daily_stat.dfy`:
  - validation of the requested fields;
  - the insert-or-update decision, with its column and parameter lists;
  - the MySQL error raised when a statement names a column the table lacks
    (the keys of `wc` are never validated) or an INSERT names a column twice;
  - debug mode;
  - the date-range checks and the day loop;
  - the split of the daylight duration into hours, minutes and seconds.

`stats.dfy` holds the sums, maxima, minima and exact means shared by the
statistics. `wrappers.dfy` holds `Option` and `Result`.

The MySQL tables are in-memory values:
- observations are a sequence of rows;
- the WeatherAlerts table is a map field of a `StationDb` object;
- the day table is a map from day to record, a field of a `DayTable` object.

SQL `NOW()` and `datetime.now()` are one parameter `now`, an integer count of
seconds. Code that updates things in place is modelled by methods with loops
or with `modifies` clauses. Each of these is proved against a specification
function, and the properties are proved about that function.

## Model

| member | source | states |
|---|---|---|
| TimeAgo.ParseRoundTrip | src/WeatherAlert.py:133-146 | any whitespace, then a decimal number, then `d`, `h` or `m`, then any text parses to that number and unit; the text after the unit is ignored because the match anchors only at the start |
| TimeAgo.ParseDigits | src/WeatherAlert.py:133-146 | any whitespace, then any non-empty digit string (leading zeros allowed, so "007h" gives 7), then a unit letter, then any text parses to the digits' value and that unit |
| TimeAgo.ParseTimeAgo | src/WeatherAlert.py:133-148 | a successful parse comes from a digit run right after the stripped leading whitespace, whose value is the number, followed by the unit letter |
| TimeAgo.ParseRejectsNoUnit | src/WeatherAlert.py:135-137 | digits with no unit letter ("12") raise the ValueError |
| TimeAgo.ParseRejectsNegative | src/WeatherAlert.py:135-137 | a sign before the digits ("-1h") raises the ValueError |
| TimeAgo.ParseRejectsWeeks | src/WeatherAlert.py:135-137 | a unit letter other than d, h, m ("2w") raises the ValueError |
| TimeAgo.ParseRejectsUnitOnly | src/WeatherAlert.py:135-137 | a unit with no digits ("m") raises the ValueError |
| TimeAgo.DigitsValueOfNatToDigits | src/WeatherAlert.py:139 | `int()` of the decimal rendering of n is n |
| TimeAgo.LeadingSpaces | src/WeatherAlert.py:135 | `strip()` removes exactly the maximal run of leading whitespace |
| TimeAgo.TrailingSpaces | src/WeatherAlert.py:135 | `strip()` removes exactly the maximal run of trailing whitespace |
| TimeAgo.DigitRun | src/WeatherAlert.py:135 | `\d+` takes the maximal run of leading digits |
| TimeAgo.StripPadded | src/WeatherAlert.py:135 | stripping padded text that starts with a non-space leaves that text minus its trailing whitespace |
| WeatherAlert.Register | src/WeatherAlert.py:119-127 | the upsert leaves one record per (alert, station): a new pair gets (now, cooldown); an existing pair gets last_sent = now and keeps its stored cooldown_minutes; other pairs are unchanged |
| WeatherAlert.CooldownActive | src/WeatherAlert.py:90-106 | an active cooldown needs a stored record for the (alert, station) pair; a cooldown of zero or fewer minutes after a past last_sent is never active |
| WeatherAlert.RegisterTwice | src/WeatherAlert.py:119-127 | registering twice equals one registration at the later time with the first cooldown, so no duplicate record is created |
| WeatherAlert.CooldownWindow | src/WeatherAlert.py:101-106 | after a registration at t0 with a cooldown of c minutes, the cooldown is active at t exactly when t < t0 + 60c |
| WeatherAlert.StationDb.IsCooldownActive | src/WeatherAlert.py:78-109 | true iff a record exists and now − last_sent < cooldown minutes; false whenever the WeatherAlerts table raises a database error (fail-open) |
| WeatherAlert.StationDb.RegisterAlert | src/WeatherAlert.py:111-130 | the table becomes the upsert of the old table; on a database error the table is unchanged |
| WeatherAlert.Latest | src/WeatherAlert.py:182-193 | the latest row is a row of the table no earlier than any other, and there is none only for an empty table |
| WeatherAlert.Earliest | src/WeatherAlert.py:269-272 | the earliest row is a row of the input no later than any other, and there is none only for empty input |
| WeatherAlert.BeforeRows | src/WeatherAlert.py:231-243 | the first sub-query's candidates are exactly the rows in [target, now] at or before the target and outside the excluded hours |
| WeatherAlert.AfterRows | src/WeatherAlert.py:249-267 | the second sub-query's candidates are exactly the rows in (target, now] outside the excluded hours and the excluded months |
| WeatherAlert.SelectPast | src/WeatherAlert.py:231-280 | a selected past record lies in [target, now] and is never in an excluded hour; it is in an excluded month only if it sits exactly on the target |
| WeatherAlert.ExactTargetWins | src/WeatherAlert.py:231-276 | a row exactly at the target, outside the excluded hours, is always selected over any later row |
| WeatherAlert.EarliestAfterTarget | src/WeatherAlert.py:249-280 | without a usable row at the target, a record is selected iff some row qualifies for the second branch, and it is the earliest such row |
| WeatherAlert.NoDistanceTie | src/WeatherAlert.py:273-274 | the two branches never tie on distance: the first yields distance 0, the second a positive distance |
| WeatherAlert.NoDataNoEvent | src/WeatherAlert.py:189-193 | an empty table, or a weather field that is not a column (a caught MySQL error), gives no event |
| WeatherAlert.NoUpdateSemantics | src/WeatherAlert.py:201-214 | a no_update rule fires iff now − last_datetime ≥ threshold minutes; it never fails, and its time_ago is never parsed |
| WeatherAlert.DirectThresholdSemantics | src/WeatherAlert.py:216-229 | with a time_ago of 0, increase fires iff last ≥ threshold and decrease iff last ≤ threshold; the rest of the history plays no part |
| WeatherAlert.VariationSemantics | src/WeatherAlert.py:283-309 | with a positive time_ago, the rule fires iff a past record is selected and last − past ≥ threshold (increase) or ≤ −threshold (decrease) |
| WeatherAlert.CompareVariation | src/WeatherAlert.py:283-309 | the variation comparison fires iff a past record exists and the variation test holds for it |
| WeatherAlert.OtherTypeNeverFires | src/WeatherAlert.py:219-229 | an alert type other than increase, decrease and no_update never fires |
| WeatherAlert.ErrorOnlyOnBadTimeAgo | src/WeatherAlert.py:171-217 | check_alert raises iff the field exists, the table is not empty, the rule is not no_update and time_ago does not parse |
| WeatherAlert.Evaluate | src/WeatherAlert.py:171-309 | the only exception is the ValueError for this rule's time_ago; an event needs the weather field to be a column and the table to be non-empty, and carries `now`; the event is a staleness event iff the rule is no_update, and any other event belongs to an increase or decrease rule |
| WeatherAlert.Compare | src/WeatherAlert.py:216-309 | only increase and decrease rules produce an event; with time_ago 0 it is the threshold event on the latest value and its time; otherwise it is a variation event whose variation is last − past and whose past record lies in [now − time_ago, now] |
| WeatherAlert.ScenarioHourWindow | src/WeatherAlert.py:231-280 | over rows one hour apart, a "1h" rule compares the latest value with the row exactly one hour back |
| WeatherAlert.ScenarioVariationFires | src/WeatherAlert.py:283-309 | 10.0 one hour ago and 16.0 now fire an increase of 5 with variation 6.0 |
| WeatherAlert.ScenarioVariationQuiet | src/WeatherAlert.py:294-296 | 10.0 one hour ago and 14.0 now do not fire an increase of 5 |
| WeatherAlert.ScenarioStale | src/WeatherAlert.py:202-213 | a row 150 minutes old fires a no_update rule of 120 minutes |
| WeatherAlert.ScenarioCooldown | src/WeatherAlert.py:101-104 | a rule fired at t0 with a 60-minute cooldown is suppressed 30 minutes later and not 61 minutes later |
| WeatherAlert.AlertStep | src/WeatherAlert.py:171-315 | exactly: in cooldown, no event and the registry unchanged; otherwise the result is `Evaluate`'s, a fired event is registered when the table is reachable, and an unreachable table is unchanged; the registry changes only by that registration; an exception is the ValueError of an unparsable time_ago |
| WeatherAlert.AlertEngine.CheckAlert | src/WeatherAlert.py:150-315 | the result and the station's new WeatherAlerts table are those of one alert step on the old table: cooldown test, then the decision procedure, then registration exactly when an event is returned |
| WeatherAlert.EnabledRules | src/WeatherAlert.py:61 | the loaded rules are exactly the enabled ones |
| WeatherAlert.EnabledRulesAppend | src/WeatherAlert.py:61 | the filter keeps file order and multiplicity: filtering a concatenation concatenates the filtered parts, and one rule is kept iff it is enabled |
| WeatherAlert.AlertEngine.constructor | src/WeatherAlert.py:43-61 | the engine keeps the enabled rules, in file order, and the station configurations |
| WeatherAlert.RulePairsMembers | src/WeatherAlert.py:323-338 | a rule is checked against exactly those of its station keys that have a database configuration |
| WeatherAlert.ScheduleMembers | src/WeatherAlert.py:320-344 | the run checks exactly the (enabled rule, configured station of that rule) pairs |
| WeatherAlert.RunPairs | src/WeatherAlert.py:320-354 | checking a list of (rule, station) pairs in order keeps one WeatherAlerts table per station database and gives at most one outcome per pair |
| WeatherAlert.RunPairsAppend | src/WeatherAlert.py:320-354 | checking `a` then `b` is checking `a + b`, and once `a` stops with a ValueError, `b` is never checked |
| WeatherAlert.RunPairsHead | src/WeatherAlert.py:332-354 | the first pair is checked on its station's current table; a ValueError stops the run there, otherwise its outcome comes first and the rest run on the updated table |
| WeatherAlert.RunPairsLabels | src/WeatherAlert.py:332-354 | the k-th outcome names the rule and station of the k-th pair |
| WeatherAlert.RunPairsFailure | src/WeatherAlert.py:332-354 | over configured pairs, the run stops short exactly when it fails, and then at a pair whose time_ago does not parse |
| WeatherAlert.ScheduleLabels | src/WeatherAlert.py:317-354 | the outcomes are labelled by the scheduled pairs in order; all pairs are checked iff no ValueError escapes, and the pair where it stops has an unparsable time_ago |
| WeatherAlert.AlertEngine.CheckRule | src/WeatherAlert.py:332-354 | the outcomes, the ValueError that stops the loop and every station's new WeatherAlerts table are those of the fold of alert steps over the rule's configured stations in order; observations and columns are untouched |
| WeatherAlert.AlertEngine.RunAlertChecks | src/WeatherAlert.py:317-354 | the outcomes, the ValueError that aborts the run and every station's new WeatherAlerts table are those of the fold of alert steps over the scheduled (enabled rule, configured station) pairs in order; observations and columns are untouched |
| NormalsStats.ValuesMembers | src/WC_GenNormalsStats.py:11 | the value list holds exactly the non-null entries of the column |
| NormalsStats.MaxKey | src/WC_GenNormalsStats.py:15 | the maximum, with None ranking as −∞, is a value of the column and bounds every value; it is None iff the column has no value |
| NormalsStats.MinKey | src/WC_GenNormalsStats.py:21 | the minimum, with None ranking as +∞, is a value of the column and bounds every value from below; it is None iff the column has no value |
| NormalsStats.Average | src/WC_GenNormalsStats.py:10-12 | None iff the column has no non-null value; otherwise the exact mean of those values, between their minimum and maximum |
| NormalsStats.FindMaxWithDates | src/WC_GenNormalsStats.py:14-17 | raises iff the data is empty; an all-null column gives no entry; every entry holds a value at least every value of the column |
| NormalsStats.MaxWithDatesExact | src/WC_GenNormalsStats.py:14-17 | every row at the maximum is listed with its date, so the list is non-empty when a value exists |
| NormalsStats.FindMinWithDates | src/WC_GenNormalsStats.py:19-26 | raises iff the data is empty; every entry is at most every non-null value |
| NormalsStats.MinWithDatesExact | src/WC_GenNormalsStats.py:19-26 | when the column has a value, every row at the minimum is listed with its date, every entry comes from such a row, and the list is non-empty |
| NormalsStats.MinWithDatesAllNull | src/WC_GenNormalsStats.py:19-26 | for an all-null column every row is an entry of the minimum |
| NormalsStats.TiesMembers | src/WC_GenNormalsStats.py:16 | a row holding the value is listed with its date, and each entry comes from such a row |
| NormalsStats.TiesAppend | src/WC_GenNormalsStats.py:24 | the tie list keeps data order |
| NormalsStats.Years | src/WC_GenNormalsStats.py:29-33 | the years of the per-year dict are exactly the years present, each once, and there are none only for no rows |
| NormalsStats.TallyByYear | src/WC_GenNormalsStats.py:28-35 | the dict has an entry for every year present (even with a count of 0) and for no other, holding that year's tally |
| NormalsStats.TallyRow | src/WC_GenNormalsStats.py:31-35 | one row keeps the dict equal to the tallies of the rows so far |
| NormalsStats.SumOfYearTotals | src/WC_GenNormalsStats.py:37 | summing the per-year tallies gives the tally of all rows |
| NormalsStats.SumTallies | src/WC_GenNormalsStats.py:51 | the loop returns the sum of the per-year tallies |
| NormalsStats.AverageDaysInRange | src/WC_GenNormalsStats.py:28-38 | a division by zero iff there are no rows; otherwise the days in range divided by the number of distinct years |
| NormalsStats.DaysTotalBounds | src/WC_GenNormalsStats.py:30-35 | a day count lies between 0 and the number of rows |
| NormalsStats.RangeEndpoints | src/WC_GenNormalsStats.py:34-88 | precipitation counts lo ≤ v < hi, mean and high temperature lo ≤ v ≤ hi, low temperature lo < v ≤ hi |
| NormalsStats.YearlyAveragePrecipitation | src/WC_GenNormalsStats.py:40-56 | None iff there are no rows; otherwise the sum of the non-null precipitation divided by the number of distinct years |
| NormalsStats.PrecipitationTotalIsSum | src/WC_GenNormalsStats.py:43-51 | the per-year totals add up to the sum of all non-null precipitation values |
| NormalsStats.FilterPeriod | src/WC_GenNormalsStats.py:252-273 | the kept rows are exactly those with year_start ≤ year ≤ year_end |
| NormalsStats.FilterPeriodAppend | src/WC_GenNormalsStats.py:252-273 | the filter keeps row order |
| NormalsStats.MonthRows | src/WC_GenNormalsStats.py:104 | a month's rows are exactly the rows of that month |
| NormalsStats.GroupByMonth | src/WC_GenNormalsStats.py:113-115 | each month present maps to its rows in order, and an absent month has none |
| NormalsStats.MonthEntry | src/WC_GenNormalsStats.py:103-142 | a month fails iff it has no rows (EmptyMonth, the `max()` of an empty list) or a null precipitation, and the error names the month |
| NormalsStats.MonthEntryProperties | src/WC_GenNormalsStats.py:103-142 | a month fails iff it has no rows or a null precipitation; otherwise max ≥ min, the high-temperature average lies between the month's extremes, and the rainy-day average is at most the rows per year |
| NormalsStats.GenerateMonthlyNormals | src/WC_GenNormalsStats.py:109-144 | twelve entries, month m from month m's rows; on failure the error is that of the first failing month |
| Stats.Mean | src/MV_DailyStat.py:51-52 | the exact mean of a non-empty list lies between its minimum and its maximum |
| Stats.Max | src/MV_DailyStat.py:74 | `max` of a non-empty list is one of its elements and bounds all of them |
| Stats.Min | src/MV_DailyStat.py:75 | `min` of a non-empty list is one of its elements and is bounded by all of them |
| Stats.SumBounds | src/WC_GenNormalsStats.py:12 | values between lo and hi have a sum between n·lo and n·hi |
| DisplayNormals.Put | src/DisplayNormalsJson.py:24 | `d[k] = v` keeps keys distinct, keeps an existing key's position and appends a new key |
| DisplayNormals.ToDictKeys | src/DisplayNormalsJson.py:24 | `dict(items)` has the items' keys, in order of first occurrence |
| DisplayNormals.ToDictGet | src/DisplayNormalsJson.py:24 | `dict(items)` maps each key to the value of its last occurrence |
| DisplayNormals.ToDictOfDistinct | src/DisplayNormalsJson.py:24 | items with distinct keys are already the dict |
| DisplayNormals.ToDictDetermined | src/DisplayNormalsJson.py:24 | two item lists with the same key order and values give the same dict |
| DisplayNormals.Leaves | src/DisplayNormalsJson.py:20-23 | the depth-first leaves have non-empty paths and no dict values |
| DisplayNormals.FlattenItemsLeaves | src/DisplayNormalsJson.py:17-23 | the loop's items match, key for key and in first-occurrence order, the depth-first leaves named by their joined paths |
| DisplayNormals.FlattenLeaves | src/DisplayNormalsJson.py:17-24 | the flattened dict matches the named leaves key for key and in order |
| DisplayNormals.FlattenIsDictOfLeaves | src/DisplayNormalsJson.py:17-24 | flattening equals `dict()` of the depth-first list of leaves keyed by their paths |
| DisplayNormals.FlattenKeysAndValues | src/DisplayNormalsJson.py:17-24 | the flattened keys are exactly the joined leaf paths, each with the value of the last leaf of that key |
| DisplayNormals.JoinPathFromTop | src/DisplayNormalsJson.py:19 | from an empty parent key, a path's key is its keys joined by the separator, with no leading separator |
| DisplayNormals.LeafAppears | src/DisplayNormalsJson.py:18-23 | each leaf at path k1…kn appears under k1 + sep + … + kn |
| DisplayNormals.TopLevelKeyKept | src/DisplayNormalsJson.py:19 | a top-level non-dict key is kept unchanged |
| DisplayNormals.FlattenHasNoDicts | src/DisplayNormalsJson.py:20-23 | no value of the result is a dict |
| DisplayNormals.EmptyDictContributesNothing | src/DisplayNormalsJson.py:20-21 | an empty nested dict contributes no entries, wherever it stands |
| DisplayNormals.FlatObjectUnchanged | src/DisplayNormalsJson.py:17-24 | a mapping with no nested dicts flattens to itself |
| DisplayNormals.FlattenSingleLeaf | src/DisplayNormalsJson.py:19-23 | a single leaf flattens to one entry under its joined key |
| DisplayNormals.CollisionLaterWins | src/DisplayNormalsJson.py:18-24 | when a joined key collides with a top-level key, the later item's value wins and the first position is kept |
| DisplayNormals.FlattenItemsConcat | src/DisplayNormalsJson.py:18-23 | the items of a concatenation of members are the items of each part in order |
| DisplayNormals.Flatten | src/DisplayNormalsJson.py:17-24 | the flattened mapping is a dict: each key appears once |
| DisplayNormals.FlattenDict | src/DisplayNormalsJson.py:5-24 | the recursive loop returns the flattening, a dict with distinct keys |
| DisplayNormals.DisplayStats | src/DisplayNormalsJson.py:26-39 | one [key, value] row per flattened entry, in order, with distinct metrics and no dict value |
| DailyStat.ListOfAdd | src/MV_DailyStat.py:271-285 | one row adds its cell to a list exactly when the cell is not "--.-" or "--" |
| DailyStat.CollectTime | src/MV_DailyStat.py:271 | the Time list holds the date of every row of the day, in order |
| DailyStat.CollectReadings | src/MV_DailyStat.py:272-285 | each list is as long as the rows minus the missing markers, and each value is some row's reading |
| DailyStat.DayStat | src/MV_DailyStat.py:69-119 | fails iff one of the lists is empty, naming the first one read; otherwise it is dated with the first Time entry |
| DailyStat.DayStatBounds | src/MV_DailyStat.py:74-100 | each maximum and minimum is one of the day's values and bounds all of them, so max ≥ min, and each average lies between them |
| DailyStat.DayFailsIffAllMissing | src/MV_DailyStat.py:74-100 | a day's statistics fail iff some quantity has only missing markers that day |
| DailyStat.DataList | src/MV_DailyStat.py:102-117 | sixteen fields: the day's date first, then the fifteen statistics |
| DailyStat.ReplaceDots | src/MV_DailyStat.py:133 | every `.` becomes `,` and every other character is kept |
| DailyStat.ConvertList | src/MV_DailyStat.py:124-135 | the serialised row contains no `.` |
| DailyStat.ConvertListFields | src/MV_DailyStat.py:124-135 | splitting the row at `;` gives back each field's text with dots turned into commas, when no field contains `;` |
| DailyStat.SplitJoin | src/MV_DailyStat.py:132 | splitting a `;`-join gives back the pieces when none contains `;` |
| DailyStat.ReplaceDotsJoin | src/MV_DailyStat.py:132-133 | replacing dots after joining equals joining the pieces with their dots replaced |
| DailyStat.Runs | src/MV_DailyStat.py:255-271 | every day group is non-empty, and there are no groups only when there are no rows |
| DailyStat.RunsConcat | src/MV_DailyStat.py:247-290 | the day groups put back together are the rows |
| DailyStat.RunsOneDate | src/MV_DailyStat.py:255-271 | each group holds one date, and the last group holds the last row's date |
| DailyStat.RunsNeighbours | src/MV_DailyStat.py:255 | neighbouring groups hold different dates |
| DailyStat.RunsCount | src/MV_DailyStat.py:255-295 | there is one group more than there are date changes |
| DailyStat.Emit | src/MV_DailyStat.py:255-260 | at most one written day per group, and exactly one per group when no day fails |
| DailyStat.EmitDay | src/MV_DailyStat.py:255-260 | the k-th written day is the statistics of the k-th group |
| DailyStat.EmitFailure | src/MV_DailyStat.py:257 | a failure comes from the first group after the written ones |
| DailyStat.EmitSticky | src/MV_DailyStat.py:257 | once a day fails, later days change nothing |
| DailyStat.AppendCell | src/MV_DailyStat.py:272-285 | a number is appended and a missing marker is not |
| DailyStat.AppendReading | src/MV_DailyStat.py:271-285 | one iteration's appends add the row to the day |
| DailyStat.WriteDay | src/MV_DailyStat.py:257-260 | a finished day writes its serialised statistics, or nothing when DayStat fails |
| DailyStat.ScanNewDay | src/MV_DailyStat.py:262-271 | after a flush the accumulator holds only the current row, and the flushed day joins the written ones |
| DailyStat.ProcessReadings | src/MV_DailyStat.py:244-295 | no rows raise; otherwise the lines are those of the day groups in order, up to the first day whose statistics fail |
| DailyStat.LinesPerDay | src/MV_DailyStat.py:245-295 | without a failure, rows written = 1 + the number of date changes, each day dated with its own date |
| UpdateDailyStat.SplitDuration | src/MV_UpdateDailyStatDB.py:111-112 | hours·3600 + minutes·60 + seconds = the duration, with minutes and seconds below 60 |
| UpdateDailyStat.SplitDurationInverse | src/MV_UpdateDailyStatDB.py:111-112 | the split is unique: it gives back any hours, minutes and seconds with minutes, seconds < 60 |
| UpdateDailyStat.Invalid | src/MV_UpdateDailyStatDB.py:189 | the invalid fields are exactly the requested fields that are not columns |
| UpdateDailyStat.Lookup | src/MV_UpdateDailyStatDB.py:219 | `wc[k]` fails iff k is not a key, and otherwise is the value stored with k |
| UpdateDailyStat.Project | src/MV_UpdateDailyStatDB.py:217-223 | the values of the SET columns in order; a KeyError iff some name is not a key of wc |
| UpdateDailyStat.StatementFor | src/MV_UpdateDailyStatDB.py:188-230 | a statement is built only for a table with a WC_Date column, which the SELECT of the day's row names; a new day gives an INSERT of WC_Date and the wc keys, with the date and the wc values and one placeholder each; an existing day gives an UPDATE of the fields or of all keys, with the date last |
| UpdateDailyStat.InvalidFieldsRejected | src/MV_UpdateDailyStatDB.py:188-191 | the ValueError occurs iff some requested field is not a column, and it lists exactly those fields |
| UpdateDailyStat.InsertedRow | src/MV_UpdateDailyStatDB.py:199-206 | the inserted row holds the date under WC_Date and each wc value under its key, and nothing else |
| UpdateDailyStat.InsertWritesEveryKey | src/MV_UpdateDailyStatDB.py:199-214 | on a new day the insert writes that row, leaves other days alone and ignores `fields` |
| UpdateDailyStat.UpdatedRow | src/MV_UpdateDailyStatDB.py:224-230 | a SET column takes its (last) value and every other column keeps its old one |
| UpdateDailyStat.UpdateWritesSetColumns | src/MV_UpdateDailyStatDB.py:215-230 | on an existing day each SET column takes its wc value and every other column is kept |
| UpdateDailyStat.FirstUnknown | src/MV_UpdateDailyStatDB.py:199-230 | no column is reported iff every column the statement names is a table column; a reported column is named by the statement and missing from the table |
| UpdateDailyStat.FirstUnknownIsFirst | src/MV_UpdateDailyStatDB.py:199-230 | the reported column is the first unknown one in statement order |
| UpdateDailyStat.Execute | src/MV_UpdateDailyStatDB.py:199-230 | `cursor.execute` either raises a MySQL error (unknown column, or a column named twice in an INSERT) or applies the statement |
| UpdateDailyStat.RepeatsIff | src/MV_UpdateDailyStatDB.py:199-214 | the name-by-name check for a repeated INSERT column holds iff the column list is not duplicate-free |
| UpdateDailyStat.ExecuteFails | src/MV_UpdateDailyStatDB.py:199-230 | execution fails iff some named column is not a table column or an INSERT names a column twice; an unknown-column error names such a column |
| UpdateDailyStat.Upsert | src/MV_UpdateDailyStatDB.py:174-240 | on success the statement is the one built for the day and the table is the old one with it applied, or unchanged in debug mode; in debug mode every error is a statement-building error: the invalid fields, or the unknown WC_Date of the SELECT |
| UpdateDailyStat.MissingDateColumnFails | src/MV_UpdateDailyStatDB.py:186-196 | on a table without WC_Date the upsert always fails, in debug mode too: with the invalid fields, or else with the unknown-column error of the SELECT; without a field restriction always the latter |
| UpdateDailyStat.UpsertFails | src/MV_UpdateDailyStatDB.py:174-240 | the upsert raises iff building the statement raises, or, outside debug mode, executing it raises |
| UpdateDailyStat.RestrictedUpdateExecutes | src/MV_UpdateDailyStatDB.py:186-230 | an UPDATE restricted to validated fields names only table columns, so it never raises once built |
| UpdateDailyStat.InsertUnknownKeyFails | src/MV_UpdateDailyStatDB.py:199-214 | since the wc keys are never validated, a key that is not a column makes the INSERT raise an unknown-column error naming a missing column of the INSERT |
| UpdateDailyStat.DayTable.InsertDayWeatherConditions | src/MV_UpdateDailyStatDB.py:174-240 | returns the statement built for the day and leaves the table the upsert gives: the statement applied, or unchanged in debug mode or when building or executing raises (invalid fields, the SELECT on a table without WC_Date in either mode, an unknown column, a column named twice) |
| UpdateDailyStat.CheckRange | src/MV_UpdateDailyStatDB.py:371-377 | processing starts iff start ≤ end ≤ today |
| UpdateDailyStat.Step | src/MV_UpdateDailyStatDB.py:389-397 | a day without conditions, display mode, or an earlier failure changes nothing; noexecute writes nothing |
| UpdateDailyStat.Apply | src/MV_UpdateDailyStatDB.py:195-230 | a statement for one day leaves every other day's row as it was; the day has a row afterwards iff it had one or the statement is an INSERT with one parameter per column |
| UpdateDailyStat.StepTouchesOnlyDay | src/MV_UpdateDailyStatDB.py:393-397 | one iteration changes at most its own day's row |
| UpdateDailyStat.Days | src/MV_UpdateDailyStatDB.py:383-400 | in display mode the loop leaves the table as it was and raises nothing |
| UpdateDailyStat.DaysFailureDay | src/MV_UpdateDailyStatDB.py:383-400 | an error raised by the loop comes from a day in the range that had weather conditions |
| UpdateDailyStat.DaysAdvance | src/MV_UpdateDailyStatDB.py:383-400 | the loop over n + 1 days is the loop over n days followed by one step on day start + n |
| UpdateDailyStat.DaysTouchOnlyRange | src/MV_UpdateDailyStatDB.py:383-400 | a run leaves every day outside [start, end] unchanged |
| UpdateDailyStat.DaysReadOnly | src/MV_UpdateDailyStatDB.py:393-397 | in display mode and in debug mode the run writes nothing |
| UpdateDailyStat.DaysStop | src/MV_UpdateDailyStatDB.py:383-400 | after an upsert error, the later days change nothing |
| UpdateDailyStat.VisitDay | src/MV_UpdateDailyStatDB.py:389-397 | the loop body is one step on the table |
| UpdateDailyStat.RunDays | src/MV_UpdateDailyStatDB.py:383-400 | the loop leaves the table and the error of the fold of steps over days start..start + count − 1 |
| UpdateDailyStat.UpdateRange | src/MV_UpdateDailyStatDB.py:370-400 | a range error raises before any change; otherwise days start..end are processed once each in increasing order, stopping at the first upsert error |

## Semantics of the code worth knowing

- `register_alert` keeps the stored `cooldown_minutes` of an existing pair:
  `ON DUPLICATE KEY UPDATE` sets only `last_sent`. `is_cooldown_active`
  compares against the rule's current cooldown, never the stored one.
- The first branch of the past-record query matches only a row exactly at
  `now − time_ago`: it asks for BETWEEN target AND now and ≤ target.
- The month exclusion is attached to the second branch only. A row exactly at
  the target in an excluded month can still be selected
  (`WeatherAlert.SelectPast`).
- The hour exclusion is `NOT BETWEEN lo AND hi`, which is inclusive at both
  ends.
- An unparsable `time_ago` raises a ValueError. It is not a MySQL error, so
  it escapes `check_alert` and stops `run_alert_checks`.
- The keys of `wc` are never checked against the table's columns; only
  `fields` is. An INSERT, or an UPDATE without `fields`, that names a
  missing column raises when it is executed.
- The `SELECT … WHERE WC_Date = %s` that decides between INSERT and UPDATE
  runs in debug mode too, so a table without a `WC_Date` column raises
  there whatever the mode.

## Left out

- MySQL and pymysql are not modelled: connections, cursors, SQL text,
  commits, `DESCRIBE` and the aggregate queries of `GetDayWCFromDB`. Tables
  are values. The day's conditions are the parameter `fetch`, and the table's
  columns are a field.
- Sending e-mail (Gmail OAuth, MIME, SMTP) is not modelled, nor is
  `DisplayWeatherConditions`. A fired alert shows up in the outcomes of
  `RunAlertChecks`.
- Calendar libraries are not modelled: `dateutil.parse`, `strftime`,
  `DateDDMMYY`, astral sunrise and sunset, pytz, `timedelta`. The inputs
  already carry what they compute:
  - the date string of a CSV row;
  - the hour and month of an observation;
  - day numbers for the date range;
  - the daylight duration in seconds.
- CLI parsing, printing, logging and JSON file input/output are not
  modelled, nor is the never-read `alert_last_sent` dictionary.
- A failure to connect to a station database inside `check_alert` is not
  modelled; only errors on the WeatherAlerts table are (`alertsReachable`).
- NormalsStats.Average: exact quotient; Python's `round` (banker's rounding)
  and floating point are not modelled. The same holds for every average and
  for the /10 rain conversion.
- DailyStat.DayStat: the Gust and DailyRain cells are numbers. The script
  appends them without `float()`, so when pandas reads those columns as text,
  `max` compares strings and the division by 10 raises. That case is not
  modelled.
- DailyStat.ConvertList: Python's `str()` of a float is the parameter `str`.
  The theorems hold for any rendering.
- NormalsStats.FindMaxWithDates: entries carry the date and value, not their
  `str()` renderings.
- TimeAgo.ParseTimeAgo: whitespace is the ASCII and Latin-1 whitespace that
  `str.strip()` removes. Other Unicode whitespace (U+1680, U+2000–U+200A,
  U+2028, U+2029, U+202F, U+205F, U+3000) is not stripped. `\d` is taken as
  ASCII digits only, where Python's `re` also accepts other Unicode decimal
  digits.
- WeatherAlert.AlertEngine.CheckAlert: observation values are never NULL. A
  NULL would make the Python arithmetic raise TypeError, which is not
  modelled.
- UpdateDailyStat.Execute: only two MySQL errors are modelled: an unknown
  column, and a column named twice in an INSERT. Type mismatches, NULL in a
  NOT NULL column and lost connections are not. When several columns are
  unknown, the model reports the first in statement order. Which one MySQL
  names in its message is not modelled.
- The timestamps of the WeatherAlerts table and of the observations are naive
  wall-clock seconds. Daylight-saving shifts are not modelled.
