# Bikeshare filter-and-aggregate engine, modelled in Dafny

The Python program `bikeshare_project.py` works on bicycle-share trips for one of three
cities. `load_data` reads the city's trip table and adds three fields derived from the
start time: month, weekday name and hour. It can then keep only one month, one weekday,
or both. Four reports run over the rows that are left:

- `time_stats`: the most common month, weekday and start hour;
- `station_stats`: the most common start station, the most common end station, and the
  most frequent (start, end) combination with its count;
- `trip_duration_stats`: total and mean trip duration;
- `user_stats`: counts per user type, counts per gender, and the latest, most common and
  earliest birth year. The last two run only when the city's file has those columns.

This project models that engine over sequences of records. It proves each filter and
each statistic against an independent characterisation.

Modules:

- `Common`: `Option` (a missing cell, an absent key) and `Result` (an operation that can raise).
- `Order`: Python's order on `int`, on `str` (lexicographic by code point) and on
  pairs of `str`. Pandas sorts the modes of a column, so this order breaks ties.
  Each is proved to be a total order.
- `Stats`: the pandas `Series` operations. These are counting, `mode()[0]`,
  `value_counts()`, `sum()`, `mean()`, `min()`, `max()`, and `dropna()`, which each of
  them applies first.
- `Trips`: the trip record with its derived fields, and the per-city schema flag. The
  flag replaces the checks `'Gender' in df` and `'Birth Year' in df`. The module also
  defines the column projections.
- `Selectors`: `CITY_DATA`, `MONTH_DATA` and `DAY_LIST`; the membership checks of
  `get_filters`; Python's `str.index` and `str.title`; the month resolution, as written
  and as intended.
- `Loader`: the filter `df[mask]`, the subsequence relation, and `LoadData`, which takes
  the month step and then the day step, rebinding the table after each.
- `Reports`: the four report groups and the lemmas about them.

Choices where the code could be read otherwise; the model follows the code:

- Ties in a "most common" value go to the least value in Python's order. Pandas'
  `mode()` returns the modes sorted, and `[0]` takes the first. On the weekday column
  this can differ from "first encountered": a tie between `"Monday"` and `"Friday"`
  gives `"Friday"`.
- `mode()[0]` raises on an empty column. So `time_stats` and `station_stats` on an
  empty table end in `Failure(EmptyColumn)`. So does `user_stats` on a table that has a
  birth-year column with no values in it. An explicit empty marker would be the
  alternative; the model records the failure that the code gives.
- `trip_duration_stats` does not fail on an empty table: the sum is 0, and the mean is
  NaN, modelled as `None`.
- Only six month tokens (`jan` … `june`) and `all` are accepted, not twelve.
- The day filter compares against `day.title()`. That makes the day match
  case-insensitive for ASCII input (`TitleIgnoresCase`).
- Line 72 resolves every month selector to 1 (see Findings). `LoadData` uses the
  intended resolution through `MONTH_DATA`. The written resolution is modelled beside
  it as `ResolveMonthAsWritten` and `MonthFilterAsWritten`.

## Model

| member | source | states |
|---|---|---|
| `Order.StrLeTotalOrder` | bikeshare_project.py:91 | Python's str order, which sorts string modes, is reflexive, antisymmetric, transitive and total |
| `Order.PairLeTotalOrder` | bikeshare_project.py:116-117 | the order on (start, end) keys is a total order |
| `Stats.Mode` | bikeshare_project.py:87 | `mode()[0]` of a non-empty column is a value of the column; no value occurs more often; among values with the same count it is the least |
| `Stats.ModeUnique` | bikeshare_project.py:87-95 | any value meeting that characterisation is the mode, so the characterisation fixes the result |
| `Stats.ModeOfTie` | bikeshare_project.py:108 | on the column A, A, B, B the mode is A |
| `Stats.Present` | bikeshare_project.py:154 | dropping NaN keeps each present value exactly as often as it occurs in the raw column |
| `Stats.Frequencies` | bikeshare_project.py:149 | `value_counts()` has exactly the distinct values of the column as keys, each mapped to its number of occurrences |
| `Stats.FrequenciesTotal` | bikeshare_project.py:149 | the counts of `value_counts()` add up to the number of rows |
| `Stats.SumBounds` | bikeshare_project.py:131 | a sum of non-negative durations is non-negative and at least each duration |
| `Stats.Mean` | bikeshare_project.py:135 | the mean exists exactly for a non-empty column, and mean × count = sum |
| `Stats.Min` | bikeshare_project.py:171 | `min()` is a value of the column and at most every value |
| `Stats.Max` | bikeshare_project.py:164 | `max()` is a value of the column and at least every value |
| `Stats.DurationExample` | bikeshare_project.py:131-135 | durations 100, 200, 300 give sum 600 and mean 200 |
| `Selectors.CityFile` | bikeshare_project.py:61 | the lookup succeeds exactly for a key of `CITY_DATA`, and gives that city's own file |
| `Selectors.CityFilesDistinct` | bikeshare_project.py:5-7 | two different known cities read different files |
| `Selectors.KnownCities` | bikeshare_project.py:5-7 | exactly the three lower-case city names are accepted (the check at line 22); chicago, new york city and washington read chicago.csv, new_york_city.csv and washington.csv |
| `Selectors.PromptListsAgainstValidators` | bikeshare_project.py:9-10 | every month token the prompt offers is accepted (line 34); the day tokens sun, mon, tue, wed and thu that it offers are rejected (line 46) |
| `Selectors.Index` | bikeshare_project.py:72 | `str.index` gives the lowest position where the substring occurs, or fails when it occurs nowhere |
| `Selectors.AsWrittenAlwaysJanuary` | bikeshare_project.py:72 | as written, every month selector resolves to 1 |
| `Selectors.ResolveMonth` | bikeshare_project.py:32 | the intended resolution succeeds exactly for a key of `MONTH_DATA`, and gives 1-6 for every key but "all" |
| `Selectors.ResolveMonthPositional` | bikeshare_project.py:32 | the k-th month token resolves to k, and the accepted tokens other than "all" are exactly jan … june |
| `Selectors.FebruaryResolution` | bikeshare_project.py:72 | "feb" resolves to 2 as intended and to 1 as written |
| `Selectors.TitleOfWord` | bikeshare_project.py:76 | `title()` of a word of letters upper-cases its first letter and lower-cases the rest |
| `Selectors.TitleIgnoresCase` | bikeshare_project.py:76 | `title()` gives the same result whatever the case of its input |
| `Selectors.DayTitle` | bikeshare_project.py:44-46 | each weekday token of `DAY_LIST` title-cases to the weekday name in the same position |
| `Selectors.DaySelectorsMatchWeekdayNames` | bikeshare_project.py:44-46 | every accepted day selector other than "all" title-cases to a weekday name that `day_name()` produces |
| `Loader.IsSubsequenceTransitive` | bikeshare_project.py:73-76 | a filter applied to a filtered table is still a subsequence of the original table |
| `Loader.Where` | bikeshare_project.py:73 | `df[mask]` is an order-preserving subsequence of the rows. It keeps every occurrence of a row the mask accepts and none of a row the mask rejects |
| `Loader.WhereAll` | bikeshare_project.py:76 | a mask that accepts every row leaves the table unchanged |
| `Loader.WhereIdempotent` | bikeshare_project.py:73 | applying the same mask twice is the same as applying it once |
| `Loader.LoadData` | bikeshare_project.py:59-79 | fails only for an unknown month token; keeps the schema; its rows are a subsequence of the input, holding exactly the occurrences of rows that match both active filters; with a month filter every row has that month; with a day filter every row has `day.title()` as its weekday, and with only a day filter every input row of that weekday is kept; "all"/"all" returns the table itself; well-formed rows stay well-formed |
| `Loader.MonthFilterAsWritten` | bikeshare_project.py:71-73 | the month step as written leaves the table alone for "all" |
| `Loader.MonthFilterAsWrittenKeepsJanuary` | bikeshare_project.py:71-73 | as written, any month selector other than "all" keeps exactly the January rows |
| `Loader.FebruaryTripDroppedAsWritten` | bikeshare_project.py:72-73 | a February trip is kept by the intended "feb" filter and dropped by the written one |
| `Reports.TimeStats` | bikeshare_project.py:82-99 | fails exactly on an empty table. Otherwise gives the least modes of the month, weekday and hour columns, which are in range when the derived fields are |
| `Reports.DerivedModesInRange` | bikeshare_project.py:87-95 | values taken from in-range derived columns are in range |
| `Reports.TopPair` | bikeshare_project.py:116-117 | empty exactly for an empty table; otherwise a pair with a positive count equal to its number of occurrences, and no pair occurs more often |
| `Reports.GroupSize` | bikeshare_project.py:116 | the size of a (start, end) group is the number of rows with exactly that start and that end |
| `Reports.TopPairExample` | bikeshare_project.py:116-117 | (S1,E1), (S1,E1), (S1,E2) give (S1,E1) with count 2 |
| `Reports.StationStats` | bikeshare_project.py:102-122 | fails exactly on an empty table; otherwise gives the least modes of start and end station and a maximal (start, end) pair with its exact count |
| `Reports.TripDurationStats` | bikeshare_project.py:125-139 | the total is the sum of the durations of all rows; the mean exists exactly for a non-empty table, with mean × rows = total; with non-negative durations the total is non-negative and bounds each trip |
| `Reports.DurationsBounded` | bikeshare_project.py:131 | with non-negative durations the total is non-negative and at least each trip's duration |
| `Reports.TotalDurationPartition` | bikeshare_project.py:131 | the total of a table is the total of the rows a mask keeps plus the total of the rows it drops |
| `Reports.DurationStatsExample` | bikeshare_project.py:131-136 | trips of 100, 200 and 300 seconds report total 600 and mean 200 |
| `Reports.UserStats` | bikeshare_project.py:143-179 | fails exactly when a birth-year column exists with no values. User-type counts cover exactly the user types present, each with its count, and sum to the number of rows. Gender counts are available exactly when the column exists; they count present values only. Birth-year statistics are available exactly when the column exists: earliest ≤ most common ≤ latest, earliest and latest occur, all years lie between them, and the most common is the least mode |
| `Reports.NoBirthYearColumn` | bikeshare_project.py:174-175 | a city without a birth-year column always reports those statistics as unavailable |

## Findings

| source | as written | input that shows it | evidently intended | confidence | as-written member | corrected member |
|---|---|---|---|---|---|---|
| bikeshare_project.py:72 | `month = month.index(month) + 1`: the position of the selector inside itself, which is always 0, so the target month is always 1 | selector "feb" with a trip in February: the trip is dropped and January trips are kept | the selector's month number from `MONTH_DATA` (line 32): "feb" gives 2 | high (not executed) | `Loader.MonthFilterAsWrittenKeepsJanuary` (with `Selectors.ResolveMonthAsWritten`, `Selectors.AsWrittenAlwaysJanuary`, `Loader.FebruaryTripDroppedAsWritten`) | `Loader.LoadData` (with `Selectors.ResolveMonth`, `Selectors.ResolveMonthPositional`) |

## Left out

- Reading the CSV (`pd.read_csv`, line 61) is not modelled. The table is an input to `LoadData`, and `CityFile` models only the name lookup.
- Parsing timestamps and deriving `month`, `day_of_week` and `hour` (lines 63-69) are not modelled. These are foreign library calls. The derived values are record fields, and `DerivedInRange` states their ranges.
- Console output, `time.time()` in every report, and the `input()` retry loops of `get_filters`, `display_data` and `main` (lines 13-57 and 182-212) are interactive plumbing and are not modelled. The loops' conditions are modelled as `ValidCity`, `ValidMonth` and `ValidDay`; the lower-casing of input is not.
- Floating point is not modelled: durations and birth years are integers, and the mean is a real division.
- The order of the `value_counts()` Series (by descending count) is not modelled; `Frequencies` gives a map.
- `Reports.TopPair`: its contract states only maximality and the exact count. `sort_values` is not stable, so the source makes no promise about which tied pair wins.
- `Selectors.Title`: models `str.title()` for ASCII letters only; other cased characters pass through unchanged.
- `Stats.Mode`: states Python's order for `str` and `int` columns only; columns of mixed types are not modelled.
- Missing values in the start station, end station and user type columns are not modelled; only gender and birth year can be missing.
