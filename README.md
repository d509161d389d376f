# US bikeshare explorer: a Dafny model

The program lets a user choose a city (Chicago, New York City or Washington),
a month (January to June, or all) and a day of the week (or all). It loads that
city's trips, keeps those in the chosen month and day, and prints four groups of
statistics:

- the most common month, day and start hour;
- the most common start station, end station and route;
- the total travel time;
- the user types, plus gender and birth-year data when the city's file has them.

It then offers to page through the city's raw rows five at a time, and asks
whether to start again.

This project models that logic. The model has these modules:

- `Text`: `str.lower()` and `str.title()` on ASCII.
- `Seqs`: counting, and the order-preserving selection behind `df[mask]`.
- `Filters`: the three validated prompts of `get_filters`.
- `Loader`: the month/day filter of `load_data`.
- `Stats`: the four reporters, as functions of the filtered rows.
- `Pager`: `display_raw_data`.
- `Session`: `main`'s loop and its restart test.
- `Wrappers`: `Option` and `Result`.

Console input is a scripted sequence of answers, read from a position onwards.
If the script runs out, that is the point where `input()` would raise EOFError.
A city's data file is a `Frame`: its set of column names and its rows. Each row
already carries the month name, day name and hour derived from its start time.
The data files are a map from file name to frame. A missing file is the storage
failure that the program does not recover from.

The prompt loops, the pager and the session loop are methods with `while`
loops. Each is proved equal to a specification function: `FirstAccepted`,
`Paging`/`DisplayRaw` and `Run`. Lemmas then state what those functions
promise.

Three behaviours of the code and of pandas shape the model:

- `mode()` of an empty column is empty, so `df['month'].mode()[0]` raises on
  an empty filtered frame and the program stops. The model halts with
  `NoData`.
- `mode()` returns all tied values sorted, so `mode()[0]` is the least of
  them, not the first one seen. The model's `Mode` takes
  that order as a parameter: Python's code-point order on strings, `<` on
  hours.
- In `display_raw_data`, the outer `while display_raw == 'yes'` ends with
  `break` after one pass of the paging loop. The model writes it as an `if`.

## Model

| member | source | states |
|---|---|---|
| `Text.LowerNormalises` | bikeshare_2.py:22 | a lower-cased answer has no upper-case letter, and lower-casing it again changes nothing |
| `Text.LowerIsCaseInsensitiveMatch` | bikeshare_2.py:22-23 | for a lower-case word t, `s.lower() == t` exactly when s spells t in some mixture of cases (both directions) |
| `Text.LowerTitle` | bikeshare_2.py:74 | `title()` only changes case: lower-casing the title-cased string gives the lower-cased original |
| `Text.TitleOfLowerWord` | bikeshare_2.py:74 | `title()` of a lower-case word capitalises its first letter and keeps the rest, as in "march" to "March" |
| `Filters.AcceptsCityExactly` | bikeshare_2.py:21-26 | a city answer is accepted exactly when it is "chicago", "new york city" or "washington" in some mixture of cases |
| `Filters.FirstAccepted` | bikeshare_2.py:21-44 | the chosen answer is the first at or after the start position whose lower-cased form is allowed; every earlier answer was rejected; None only when no answer left is allowed |
| `Filters.Prompt` | bikeshare_2.py:21-44 | the `while True` prompt loop stops at exactly the answer `FirstAccepted` names |
| `Filters.SelectFilters` | bikeshare_2.py:21-47 | a returned triple satisfies all three validators and uses at least three answers |
| `Filters.SelectFiltersIsChosen` | bikeshare_2.py:21-47 | every returned triple is made of the first accepted city, then the first accepted month after it, then the first accepted day after that, with every skipped answer rejected by its prompt |
| `Filters.ChosenIsSelected` | bikeshare_2.py:21-47 | conversely, such first-accepted positions always produce that triple |
| `Filters.SelectionPassesValidators` | bikeshare_2.py:21-47 | the returned city, month and day, lower-cased, each pass their own validator |
| `Filters.GetFilters` | bikeshare_2.py:9-47 | `get_filters` returns what `SelectFilters` specifies; any triple it returns is valid |
| `Loader.LoadData` | bikeshare_2.py:50-80 | on a missing file, fails with that file's name; otherwise returns the file's columns plus month, day_of_week and hour, and the rows that match the chosen month and day |
| `Loader.FilterSteps` | bikeshare_2.py:73-78 | the month step and the day step, each skipped on "all", keep the same rows as the single conjunctive filter |
| `Loader.SelectAllKeepsEverything` | bikeshare_2.py:73-80 | with month "all" and day "all", every row is kept, in its original order |
| `Loader.SelectedSpec` | bikeshare_2.py:73-78 | the kept rows are an order-preserving subsequence of the file's rows; each has the requested month and day in title case (unless "all"); each matching row is kept as often as it occurs; no other row is kept |
| `Loader.FilterOrderIrrelevant` | bikeshare_2.py:73-78 | month then day, day then month, and both at once keep the same rows |
| `Loader.MonthFilterIsTitleCase` | bikeshare_2.py:73-74 | an accepted lower-case month keeps exactly the rows whose month is that word capitalised |
| `Seqs.WhereIsSubsequence` | bikeshare_2.py:74 | a boolean-mask selection is a subsequence of the frame: it keeps order and adds nothing |
| `Seqs.WhereCount` | bikeshare_2.py:78 | a selection keeps every occurrence of a row that meets the condition and none that does not |
| `Seqs.WhereWhere` | bikeshare_2.py:73-78 | two selections in a row equal one selection by the conjunction |
| `Seqs.WhereAll` | bikeshare_2.py:73-80 | a condition that every row meets keeps the whole frame |
| `Seqs.WhereSame` | bikeshare_2.py:73-78 | a selection depends only on which rows meet the condition |
| `Stats.Mode` | bikeshare_2.py:90 | `mode()[0]` of a non-empty column is a value that occurs in it, at least as often as any other value, and below every other value that ties with it when the order is strict and total; an empty column has none |
| `Stats.StringOrderStrictTotal` | bikeshare_2.py:90 | Python's string comparison, by code point with a proper prefix first, is a strict total order, so the least tied value is well defined |
| `Stats.HourLessStrictTotal` | bikeshare_2.py:98 | `<` on hours is a strict total order |
| `Stats.ModeTieTakesLeastString` | bikeshare_2.py:90 | on a tie between "b" and "a", `mode()[0]` gives "a", not the first value seen |
| `Stats.ModeTieTakesLeastHour` | bikeshare_2.py:98 | on a tie between hours 7 and 3, `mode()[0]` gives 3 |
| `Stats.TimeStats` | bikeshare_2.py:89-98 | for a non-empty frame, the reported month, day and hour are each the least most-common value of their column; for an empty frame there is no report |
| `Stats.StationStats` | bikeshare_2.py:111-121 | the reported start station, end station and route are each the least most-common value of their column; an empty frame has no report |
| `Stats.RouteParts` | bikeshare_2.py:120 | a route is the start station, then " to ", then the end station |
| `Stats.RouteCollision` | bikeshare_2.py:120 | two different station pairs can give the same route string, when a station name contains " to " |
| `Stats.PairCountAtMostRouteCount` | bikeshare_2.py:120 | the trips between one start and end station are at most the rows with that route string |
| `Stats.MostCommonRouteBeatsEveryPair` | bikeshare_2.py:119-121 | the reported route is at least as frequent as the trips between any one pair of stations |
| `Stats.TotalDurationAppend` | bikeshare_2.py:136 | the total over two groups of trips together is the sum of their totals |
| `Stats.TotalDurationSplits` | bikeshare_2.py:136 | for any condition, the totals of the rows that meet it and the rows that do not add up to the total |
| `Stats.TotalDuration` | bikeshare_2.py:136 | the `sum()` of the durations; non-negative durations give a non-negative total |
| `Stats.TotalDurationBoundsEach` | bikeshare_2.py:136 | with non-negative durations, no single trip is longer than the total |
| `Stats.DurationStatsBounds` | bikeshare_2.py:128-141 | `trip_duration_stats` counts every trip, and with non-negative durations its total is non-negative and at least each trip's duration |
| `Stats.DurationStatsExample` | bikeshare_2.py:134-137 | trips of 600, 300 and 900 seconds give a total of 1800 seconds over 3 trips |
| `Stats.UserStats` | bikeshare_2.py:153-169 | gender counts are shown exactly when the frame has a "Gender" column; birth-year stats exactly when it has "Birth Year"; otherwise the not-available notice |
| `Stats.UserStatsIgnoresFilters` | bikeshare_2.py:158-164 | the gender and birth-year branches depend only on the city's file, never on the month or day filter |
| `Stats.FilteredMonthIsMostCommon` | bikeshare_2.py:89-91 | under a month filter, a non-empty frame's most common month is the requested month in title case |
| `Stats.FilteredDayIsMostCommon` | bikeshare_2.py:93-95 | under a day filter, a non-empty frame's most common day is the requested day in title case |
| `Pager.Paging` | bikeshare_2.py:189-197 | paging consumes answers only forwards and never beyond the script |
| `Pager.DisplayRaw` | bikeshare_2.py:181-197 | the pager ends at a position after the first answer it reads, within the script |
| `Pager.PagingPages` | bikeshare_2.py:191-193 | the pages shown are rows 5j to 5j+4 of the file for j = 0, 1, ..., one page per answer read |
| `Pager.PagingAnswers` | bikeshare_2.py:193-196 | every answer read after a page, except the last, was "yes"; paging stops at the first answer that is not "yes" or when the rows run out; a non-empty file shows at least one page |
| `Pager.PagingSome` | bikeshare_2.py:189-197 | a completed paging run meets both of the above |
| `Pager.PagingNone` | bikeshare_2.py:193 | paging fails only when every remaining answer is "yes" and they are too few to reach the end of the rows |
| `Pager.PageRows` | bikeshare_2.py:189-197 | the paging loop over a row offset shows exactly what `Paging` specifies |
| `Pager.DisplayRawData` | bikeshare_2.py:175-202 | `display_raw_data` does exactly what `DisplayRaw` specifies |
| `Pager.DisplayRawOnYes` | bikeshare_2.py:181-197 | when the first yes/no answer is "yes", paging starts right after it, and a completed run pages the file as described above |
| `Pager.DisplayRawOnNo` | bikeshare_2.py:181-187 | when the first yes/no answer is "no", no page is shown and the pager ends right after that answer |
| `Pager.DisplayRawOnEnd` | bikeshare_2.py:181-187 | with no yes/no answer left, input runs out inside the validation loop |
| `Pager.DisplayRawStartsOnYes` | bikeshare_2.py:181-189 | pages are shown only after the first yes/no answer, which is "yes"; every earlier answer was neither; then the run pages as above |
| `Pager.YesThenNoShowsOnePage` | bikeshare_2.py:181-196 | with at least five rows, answering "yes" then "no" shows exactly the first five rows and reads two answers |
| `Session.RestartExactly` | bikeshare_2.py:216-218 | the program restarts exactly when the answer is "yes" in some mixture of cases |
| `Session.OneSession` | bikeshare_2.py:207-214 | a completed pass reads at least one answer and no answer beyond the script |
| `Session.Next` | bikeshare_2.py:216-218 | the loop goes on exactly when the pass completed and the next answer lower-cases to "yes"; it then resumes after that answer |
| `Session.Pass` | bikeshare_2.py:207-214 | the loop body (filters, load, the four reporters, pager) gives the result `OneSession` specifies |
| `Session.NextBegins` | bikeshare_2.py:206-218 | the restart decision after the first pass determines how the whole run from that position begins |
| `Session.Iterate` | bikeshare_2.py:206-218 | one loop iteration with its restart test yields the step `Next` specifies |
| `Session.MainLoop` | bikeshare_2.py:205-218 | `main`'s loop produces exactly the run `Run` specifies |
| `Session.OneSessionConsistent` | bikeshare_2.py:207-214 | every completed pass has a valid selection and at least one trip; under a month or day filter, it reports that month or day as the most common |
| `Session.RunConsistent` | bikeshare_2.py:205-218 | every pass of a whole run is consistent in that sense |

## Left out

- Reading the CSV files, `pd.to_datetime` and the `dt.month_name()`, `dt.day_name()` and `dt.hour` accessors are library code. Each row is given with its derived fields.
- All printing, the prompt texts and the elapsed-time lines (`time.time()`) are not modelled. Each reporter returns the values it would print.
- The mean trip duration and the `astype(int)` cast use floating point. Durations are whole numbers from the start, and their total is an unbounded integer: the fixed-width `sum()` of an `astype(int)` column (bikeshare_2.py:135-136) could wrap on overflow, which trip data cannot reach. The report keeps the total and the number of trips.
- The earliest, latest and most common birth year are not modelled: the column is floating point with missing values. Only the presence branch is modelled.
- The `value_counts()` tables for user type and gender are not modelled, including their order and format.
- Missing values are outside the model: every row carries every field. The program crashes when a non-empty filtered frame has a "Birth Year" column with no values (`mode()[0]` on an empty result, bikeshare_2.py:167), a start or end station column with no values (bikeshare_2.py:112, 116, 121), or a missing trip duration (`astype(int)`, bikeshare_2.py:135). The model does not have these crashes. `Session.OneSession` instead completes such a pass, shows the birth-year section, and goes on to the pager and the restart question.
- `Filters.AcceptsCityExactly`: its "exactly when" covers ASCII case only. The program also accepts "NEW YORK CITY" written with the Kelvin sign (U+212A) in place of K, because Python lower-cases that sign to "k"; the model rejects it. The month, day, yes/no and restart prompts have no such gap: none of their words contains a k.
- `Text.LowerNormalises`, `Text.LowerIsCaseInsensitiveMatch`, `Text.LowerTitle`, `Text.TitleOfLowerWord`: these cover ASCII only. Python's Unicode lower-casing also maps, for example, the Kelvin sign to "k", so "NEW YORK CITY" is accepted by the program but not by this model.
- The `KeyboardInterrupt` handler in `display_raw_data` (asynchronous signal delivery) is not modelled. After that handler, `display_raw` is still "yes", so the outer loop would page again from the first row.
- The writes of the `Trip Route` and `Trip Duration` columns into the frame are not modelled. No later step reads them. Frames are values, so aliasing between pandas views is not captured.
- `Session.MainLoop`: when a pass stops midway (empty frame, missing file, end of input), what it printed before stopping is not part of the outcome. Only completed passes are reported.
- `Pager.DisplayRaw`: on a file with no rows the model shows no page and reads no further answer. `read_csv(..., chunksize=5)` on a header-only file would instead yield one empty chunk, which the program prints before reading one more answer. `Session.OneSession` never reaches the pager with such a file: the filtered frame is empty too, so the pass halts with `NoData` first.
