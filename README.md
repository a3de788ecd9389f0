# formula1_analytics in Dafny

A model of the analytics core of `formula1_analytics`: the small relational
pipeline it runs with pandas over the Formula 1 CSV tables, with proofs of what
each step guarantees.

- **Season table** (`DriversSeasonPerf.get_data`, module `SeasonPerf`):
  - name the results;
  - keep the races of one season, or raise "Season … not found";
  - join the results to the rounds;
  - pivot to a round × driver grid;
  - put an all-zero round 0 on top;
  - take running sums with forward fill;
  - optionally project to the requested drivers.

  The object's fields change step by step, as in the source (class `SeasonPerf.DriversSeasonPerf`). `GetData` is proved equal to the function `SeasonPerformance`, and lemmas prove:
  - every cell is the driver's points total over the rounds up to it;
  - the last row holds each driver's season total;
  - with no negative points, a column never decreases down the rounds.
- **Most-wins ranking**, in two versions:
  - `MostSuccessful.Get` models the expression-style `MostSuccessful.get`;
  - class `MostWins.DriversMostWins` models the step-by-step `DriversMostWins.get_data`, which overwrites `_data` at each step.

  Both are built from the same steps (module `Ranking`): keep first places, count them per driver, sort by wins (most first), take the first `count` rows. `DriversMostWins.GetData` is proved to return exactly what `MostSuccessful.Get` returns. Lemmas prove:
  - the result holds distinct winners with their real win counts;
  - it is ordered by wins and has the requested size;
  - no driver left out beats one returned.
- **Race–weather join** (`DriverWeatherPerf.__init__`, module `WeatherPerf`):
  - the results are projected to four columns;
  - races are inner-joined with weather readings on (round, year), and weather's own key columns are dropped.

  Lemmas prove:
  - the merge pairs a race with a reading exactly when round and year both agree;
  - there is one output row per such pair, ordered by race row and then by reading row, the order pandas documents for an inner merge from version 2.2 (older versions group the races by key, which gives the same order here because no two races share a (round, year) key);
  - each output cell comes from the race or the reading of its pair.
- **Table plumbing**:
  - `F1Data`: re-keying by the id column or adding a positional `index` column, then null-marking; `get_data`; `get_selected_columns`.
  - `Index.id_to_index`: an in-place re-key of a `DataFrame` object.
  - `DataProcessor`: `empty_to_nan`, the `convert_types` loop with its TypeError handling, and `merge` (`pd.concat`).

  Module `Frames` holds the pandas operations that these rely on, as functions on a `Table` value:
  - column selection, `drop`, `reset_index`, column assignment;
  - the inner merge and `.loc`.

In the model:
- Cells are `Option` values, with `None` standing for NA.
- Points are exact reals.
- Tables the loaders would read are parameters.
- The driverId → full name mapping is a parameter, because the `Drivers` class of the repository has no `get_driver_fullnames`. As written, that call raises AttributeError when drivers_season_perf.py is imported (its class body, line 14). It would also raise first thing in `DriverWeatherPerf()` (driver_weather_perf.py:13), but that line is never reached as written: driver_weather_perf.py cannot even be imported (see `WeatherPerf.NewDriverWeatherPerf` under "## Left out"). The model replaces the call by the parameter, so its error orders start after that step.
- `IndexManager`, which `F1Data.__init__` calls, is not part of this model. It is modelled after the visible `Index.id_to_index`.

## Model

| member | source | states |
|---|---|---|
| `SeasonPerf.AttachFullnames` | src/formula1_analytics/drivers/drivers_season_perf.py:59-72 | the inner merge with the name table keeps exactly the results whose driverId has a name (as many rows as such results), each carrying that name |
| `SeasonPerf.AttachFullnamesAppend` | src/formula1_analytics/drivers/drivers_season_perf.py:59-72 | the merge keeps the results in input order, as pandas documents for an inner merge from version 2.2 (older versions group the results by driverId, an order the pivot makes irrelevant): two runs of results one after the other give their named rows one after the other |
| `SeasonPerf.SeasonRaces` | src/formula1_analytics/drivers/drivers_season_perf.py:74-75 | a race is kept exactly when its year is the requested one, as many times as it occurs |
| `SeasonPerf.SeasonRacesAppend` | src/formula1_analytics/drivers/drivers_season_perf.py:75 | the year mask keeps the races in input order: filtering two runs one after the other gives the two filtered runs one after the other |
| `SeasonPerf.AttachRound` | src/formula1_analytics/drivers/drivers_season_perf.py:79-84 | a row comes out of the raceId merge exactly when it is a named result paired with a season race of the same raceId, carrying that race's round |
| `SeasonPerf.Pivot` | src/formula1_analytics/drivers/drivers_season_perf.py:86-91 | pivot raises exactly when two results share a (round, driver) pair; otherwise the rounds and drivers are the distinct labels present, ascending |
| `SeasonPerf.PivotCells` | src/formula1_analytics/drivers/drivers_season_perf.py:86-91 | every result lands in the cell of its own round and driver, and a cell with no result is NA |
| `SeasonPerf.PivotCellOfRow` | src/formula1_analytics/drivers/drivers_season_perf.py:86-91 | the cell at a result's round and driver holds that result's points |
| `SeasonPerf.PivotRounds` | src/formula1_analytics/drivers/drivers_season_perf.py:86-91 | the pivot's row labels are exactly the results' rounds |
| `SeasonPerf.ZeroPosition` | src/formula1_analytics/drivers/drivers_season_perf.py:97-98 | `sort_index` puts round 0 after every negative round and before every other one |
| `SeasonPerf.AddZeroRow` | src/formula1_analytics/drivers/drivers_season_perf.py:96-98 | `.loc[0] = zeros` fails on a frame with no columns and otherwise keeps the driver columns |
| `SeasonPerf.AddZeroRowRows` | src/formula1_analytics/drivers/drivers_season_perf.py:96-98 | after the zero row the rounds are still ascending and include 0, round 0 is zero in every column, and every other round keeps its row |
| `SeasonPerf.OverwriteZeroRows` | src/formula1_analytics/drivers/drivers_season_perf.py:97 | when round 0 already exists its row is overwritten with zeros and nothing else changes |
| `SeasonPerf.InsertZeroRows` | src/formula1_analytics/drivers/drivers_season_perf.py:97-98 | a new round 0 inserted at its sorted place leaves every other row where `sort_index` puts it |
| `SeasonPerf.AddZeroRowFirst` | src/formula1_analytics/drivers/drivers_season_perf.py:96-98 | when all rounds are positive the zero row goes first |
| `SeasonPerf.CumSumFrom` | src/formula1_analytics/drivers/drivers_season_perf.py:94 | `cumsum` leaves NA cells NA and turns any other cell into the total of the present cells up to it |
| `SeasonPerf.FFillFrom` | src/formula1_analytics/drivers/drivers_season_perf.py:94 | forward fill keeps present cells and gives an NA cell the value above it |
| `SeasonPerf.CumFillCell` | src/formula1_analytics/drivers/drivers_season_perf.py:94 | after sum and fill, a cell is the total of the present cells up to its row, and NA only while every cell so far is NA |
| `SeasonPerf.CumulativeSum` | src/formula1_analytics/drivers/drivers_season_perf.py:93-94 | every column of the grid becomes its running total of present cells; labels unchanged |
| `SeasonPerf.SkippedRoundRepeats` | src/formula1_analytics/drivers/drivers_season_perf.py:94 | a round the driver has no points for repeats the row above |
| `SeasonPerf.FilterDrivers` | src/formula1_analytics/drivers/drivers_season_perf.py:100-107 | fails with the first requested name that is not a column; otherwise exactly the requested columns, in that order, with all rows |
| `SeasonPerf.SeasonPerformance` | src/formula1_analytics/drivers/drivers_season_perf.py:49-57 | the steps of `get_data` composed; a successful result is a well-formed grid |
| `SeasonPerf.SeasonNotFoundIffNoRace` | src/formula1_analytics/drivers/drivers_season_perf.py:74-77 | `get_data` fails with "Season … not found" exactly when no race has that year |
| `SeasonPerf.OnlySeasonResultsSurvive` | src/formula1_analytics/drivers/drivers_season_perf.py:79-84 | a row reaches the pivot iff it is a named result of a race of the chosen season, carrying that race's round |
| `SeasonPerf.SeasonRowFromResult` | src/formula1_analytics/drivers/drivers_season_perf.py:79-84 | every row reaching the pivot comes from a named result of a race of the season |
| `SeasonPerf.ResultInSeasonRows` | src/formula1_analytics/drivers/drivers_season_perf.py:79-84 | every named result of a race of the season reaches the pivot |
| `SeasonPerf.PrefixSumByRound` | src/formula1_analytics/drivers/drivers_season_perf.py:93-94 | summing a pivoted column down to a row adds up the driver's points of every round up to that row's round |
| `SeasonPerf.ZeroThenSumIsRunningTotals` | src/formula1_analytics/drivers/drivers_season_perf.py:53-54 | adding the zero row before summing yields round 0 first and, in every cell, the driver's total up to that round, never NA |
| `SeasonPerf.GridCellsAreRunningTotals` | src/formula1_analytics/drivers/drivers_season_perf.py:52-54 | the pivot, zero row and running sums together give running totals of the season's results |
| `SeasonPerf.FilterKeepsRunningTotals` | src/formula1_analytics/drivers/drivers_season_perf.py:100-107 | projecting to the requested drivers keeps the running totals |
| `SeasonPerf.LastRowIsSeasonTotal` | src/formula1_analytics/drivers/drivers_season_perf.py:93-94 | the last row of the running totals holds each driver's season total |
| `SeasonPerf.RunningTotalsNonDecreasing` | src/formula1_analytics/drivers/drivers_season_perf.py:93-94 | with no negative points, a column of running totals never decreases down the rounds |
| `SeasonPerf.SeasonPerformanceRunningTotals` | src/formula1_analytics/drivers/drivers_season_perf.py:49-57 | the grid `get_data` returns holds the running totals of the season's results, with exactly the requested drivers when some are named |
| `SeasonPerf.SeasonPerformanceCells` | src/formula1_analytics/drivers/drivers_season_perf.py:49-57 | `get_data`: running totals, row 0 all zero, last row the season totals, columns non-decreasing with non-negative points; the requested columns when names are given, and every driver of the season, names ascending, when none are; rows are round 0 and the season's rounds, ascending |
| `SeasonPerf.SeasonPerformanceLabels` | src/formula1_analytics/drivers/drivers_season_perf.py:49-57 | the labels of `get_data`'s result: with no names, one column per driver of the season, names ascending (the pivot's columns, kept by the zero row and the sum); one row for round 0 and for each round of the season's results, ascending |
| `SeasonPerf.DriversSeasonPerf.constructor` | src/formula1_analytics/drivers/drivers_season_perf.py:13-24 | the object starts with the name table, the races and the results |
| `SeasonPerf.DriversSeasonPerf.AttachDriverFullnameToResults` | src/formula1_analytics/drivers/drivers_season_perf.py:59-72 | `_results` becomes the named results; `_races` unchanged |
| `SeasonPerf.DriversSeasonPerf.SetRacesForSelectedSeason` | src/formula1_analytics/drivers/drivers_season_perf.py:74-77 | `_races` becomes the season's races; "Season … not found" exactly when there are none |
| `SeasonPerf.DriversSeasonPerf.AttachRaceRoundToResults` | src/formula1_analytics/drivers/drivers_season_perf.py:79-84 | `_results` becomes the results joined to the season's rounds |
| `SeasonPerf.DriversSeasonPerf.TransformDriversToColumns` | src/formula1_analytics/drivers/drivers_season_perf.py:86-91 | `_results` becomes the pivot, or the duplicate-entry error is returned and nothing changes |
| `SeasonPerf.DriversSeasonPerf.AddFirstZeroRow` | src/formula1_analytics/drivers/drivers_season_perf.py:96-98 | `_results` gets the zero row, or the no-columns error is returned and nothing changes |
| `SeasonPerf.DriversSeasonPerf.CumulativeSumPointsForEachDriver` | src/formula1_analytics/drivers/drivers_season_perf.py:93-94 | `_results` becomes its running sums |
| `SeasonPerf.DriversSeasonPerf.FilterDriverColumns` | src/formula1_analytics/drivers/drivers_season_perf.py:100-107 | the loop raises "Driver … not found" for the first unknown name, otherwise `_results` is projected to the requested columns |
| `SeasonPerf.DriversSeasonPerf.GetData` | src/formula1_analytics/drivers/drivers_season_perf.py:26-57 | the step-by-step method returns exactly `SeasonPerformance` of the initial fields |
| `Ordering.SortedDistinct` | src/formula1_analytics/drivers/drivers_season_perf.py:87-91 | the pivot's labels: the distinct values, strictly ascending |
| `Ordering.StrLessIsStrictTotalOrder` | src/formula1_analytics/drivers/drivers_season_perf.py:89 | Python's string order on driver names is a strict total order |
| `Ranking.FirstPlaces` | src/formula1_analytics/drivers/drivers_most_wins.py:46-47 | a row is kept (as often as it occurs) exactly when its position equals 1 |
| `Ranking.FirstPlacesAppend` | src/formula1_analytics/drivers/drivers_most_wins.py:47 | the position mask keeps the rows in input order: two runs one after the other give their first places one after the other |
| `Ranking.CountPerDriver` | src/formula1_analytics/drivers/drivers_most_wins.py:49-50 | `groupby(driverId).count()`: one row per present driverId, ids ascending, each with the driver's number of non-NA positions |
| `Ranking.FirstPlacesCount` | src/formula1_analytics/drivers/drivers_most_wins.py:46-50 | among the first places, a driver's non-NA count is its number of wins |
| `Ranking.WinsOfPositive` | src/formula1_analytics/drivers/drivers_most_wins.py:46-47 | a driver has a positive win count iff one of its rows has position 1 |
| `Ranking.FirstPlacesDrivers` | src/formula1_analytics/drivers/drivers_most_wins.py:46-50 | the drivers among the first places are exactly the drivers with a win |
| `Ranking.InsertByWins` | src/formula1_analytics/drivers/drivers_most_wins.py:55-56 | inserting into rows ordered by wins keeps them ordered, and adds exactly that row |
| `Ranking.SortByWins` | src/formula1_analytics/drivers/drivers_most_wins.py:55-56 | `sort_values("wins", ascending=False)`: a permutation of the rows with wins non-increasing |
| `Ranking.Head` | src/formula1_analytics/drivers/drivers_most_wins.py:38 | `head(n)` is a prefix: the first n rows when 0 <= n <= rows, every row when n is at least the row count, and all but the last abs(n) rows (none if fewer) for negative n |
| `Ranking.HeadOfDescending` | src/formula1_analytics/drivers/drivers_most_wins.py:38 | `head(n)` keeps min(n, rows) rows (all but the last abs(n) for negative n), still ordered; no row dropped has more wins than a row kept |
| `Ranking.SetIndex` | src/formula1_analytics/drivers/drivers_most_wins.py:68 | `set_index(c)` fails exactly when `c` is not a column; otherwise `c` becomes the row key and leaves the body |
| `Ranking.DriverNamesAsWritten` | src/formula1_analytics/drivers/drivers_most_wins.py:61-70 | the lookup as written raises KeyError whenever driverId is not a body column |
| `Ranking.DriverNamesAlwaysRaises` | src/formula1_analytics/drivers/drivers_most_wins.py:61-70 | on the drivers' frame built by `F1Data` with driverId as key, the lookup as written raises KeyError for any ids |
| `Ranking.DriverNames` | src/formula1_analytics/drivers/drivers_most_wins.py:61-70 | the intended lookup returns exactly the forename and surname columns |
| `Ranking.DriverNamesRows` | src/formula1_analytics/drivers/most_successful.py:45-54 | the intended lookup fails iff a name column or a requested id is missing; otherwise row p is the forename and surname of `ids[p]`, in the order requested |
| `MostSuccessful.WinsCountsForEachDriver` | src/formula1_analytics/drivers/most_successful.py:28-40 | the counted first places are keyed by driverId, ascending; which drivers and what counts is stated by `MostSuccessful.WinsCounts` |
| `MostSuccessful.Get` | src/formula1_analytics/drivers/most_successful.py:14-20 | `get(count)` is ordered by wins and draws its rows from the win counts; its size, winners and ranking are stated by `MostSuccessful.GetSize`, `MostSuccessful.GetTopWinners` and `MostSuccessful.GetBeatsOmitted` |
| `MostSuccessful.WinsCounts` | src/formula1_analytics/drivers/most_successful.py:28-40 | win counts: ids ascending, one row per driver with a first place, holding its number of first places (at least 1); nobody else |
| `MostSuccessful.PermutationKeepsDistinct` | src/formula1_analytics/drivers/most_successful.py:56-58 | reordering by wins keeps one row per driver |
| `MostSuccessful.HeadOfReordering` | src/formula1_analytics/drivers/most_successful.py:18-20 | the first rows of the sorted counts are rows of the counts, of distinct drivers, and beat every driver left out |
| `MostSuccessful.GetSize` | src/formula1_analytics/drivers/most_successful.py:14-20 | `get(count)` is ordered by wins, has one row per driver, and has min(count, winners) rows (for negative count, all but the last abs(count)) |
| `MostSuccessful.GetRowsAreWinners` | src/formula1_analytics/drivers/most_successful.py:14-20 | every row returned is a driver with at least one win, with its number of wins |
| `MostSuccessful.GetBeatsOmitted` | src/formula1_analytics/drivers/most_successful.py:14-20 | no driver left out has more wins than a driver returned |
| `MostSuccessful.GetTopWinners` | src/formula1_analytics/drivers/most_successful.py:14-20 | all of `get(count)`'s guarantees together: ordered, distinct winners with their win counts, the requested size, the best ones |
| `MostSuccessful.GetAllWinners` | src/formula1_analytics/drivers/most_successful.py:14-20 | with a count at least the number of winners, a driver is listed iff it has a win |
| `MostSuccessful.TextPositionsNoWinners` | src/formula1_analytics/drivers/most_successful.py:32-34 | when every position is text or NA, `position == 1` keeps no row and `get(count)` is empty for every count |
| `MostSuccessful.NumericPosition` | src/formula1_analytics/drivers/most_successful.py:32-34 | converting a position to a number makes the text "1" the integer 1; a converted cell is a win iff it was one already or was decimal text worth 1 |
| `MostSuccessful.GetNumeric` | src/formula1_analytics/drivers/most_successful.py:14-20 | `get(count)` over positions converted to numbers first is ordered by wins |
| `MostSuccessful.NumericWinsOf` | src/formula1_analytics/drivers/most_successful.py:32-35 | after conversion a driver's wins are its numeric first places plus its first places written as text |
| `MostSuccessful.GetNumericWinners` | src/formula1_analytics/drivers/most_successful.py:14-20 | the converted ranking, asked for every winner, lists a driver iff it has a first place, numeric or written as text |
| `MostWins.DriversMostWins.constructor` | src/formula1_analytics/drivers/drivers_most_wins.py:13-14 | the object stores `count` |
| `MostWins.DriversMostWins.GetDriverPositionResults` | src/formula1_analytics/drivers/drivers_most_wins.py:40-44 | `_data` becomes the (driverId, position) rows |
| `MostWins.DriversMostWins.GetFirstPosResults` | src/formula1_analytics/drivers/drivers_most_wins.py:46-47 | `_data` keeps only the first places |
| `MostWins.DriversMostWins.GetFirstPosCountsForEachDriver` | src/formula1_analytics/drivers/drivers_most_wins.py:49-50 | `_data` becomes the per-driver count, still labelled `position` |
| `MostWins.DriversMostWins.RenamePositionColToWins` | src/formula1_analytics/drivers/drivers_most_wins.py:52-53 | the count column is relabelled `wins` in place (any other label left alone), counts unchanged |
| `MostWins.DriversMostWins.SortByWins` | src/formula1_analytics/drivers/drivers_most_wins.py:55-56 | sorts `_data` by wins, or raises KeyError when there is no `wins` column and changes nothing |
| `MostWins.DriversMostWins.GetData` | src/formula1_analytics/drivers/drivers_most_wins.py:16-38 | returns exactly `MostSuccessful.get(count)` on the same rows, leaving the sorted counts of every winner in `_data` |
| `WeatherPerf.ProjectResults` | src/formula1_analytics/drivers/driver_weather_perf.py:14-19 | exactly driverId, position, raceId and points, every row kept; KeyError iff one is missing |
| `WeatherPerf.RaceSide` | src/formula1_analytics/drivers/driver_weather_perf.py:21-24 | the left side: race key, year, round, one row per race |
| `WeatherPerf.WeatherSide` | src/formula1_analytics/drivers/driver_weather_perf.py:25-34 | the right side: the eight weather columns, every reading kept |
| `WeatherPerf.RaceWeather` | src/formula1_analytics/drivers/driver_weather_perf.py:20-37 | the merge followed by the drop; a result is well formed and keyed by position |
| `WeatherPerf.RaceSideBuilds` | src/formula1_analytics/drivers/driver_weather_perf.py:21-24 | selecting year and round and resetting the index works iff both exist and the key's name is neither |
| `WeatherPerf.WeatherSideBuilds` | src/formula1_analytics/drivers/driver_weather_perf.py:25-34 | the weather selection works iff all eight columns exist |
| `WeatherPerf.MergeBuilds` | src/formula1_analytics/drivers/driver_weather_perf.py:20-37 | with both sides built, the merge and the drop go through |
| `WeatherPerf.RaceWeatherFails` | src/formula1_analytics/drivers/driver_weather_perf.py:20-37 | the join fails iff a needed column is missing or the key name clashes; a missing race column is reported first |
| `WeatherPerf.RaceSideColumns` | src/formula1_analytics/drivers/driver_weather_perf.py:21-24 | the left side's round and year are the races', its key column the race ids |
| `WeatherPerf.WeatherSideColumn` | src/formula1_analytics/drivers/driver_weather_perf.py:25-34 | the right side keeps every selected weather column |
| `WeatherPerf.RaceKeyIsRoundAndYear` | src/formula1_analytics/drivers/driver_weather_perf.py:35 | a race's merge key is its (round, year) |
| `WeatherPerf.WeatherKeyIsRoundAndYear` | src/formula1_analytics/drivers/driver_weather_perf.py:36 | a reading's merge key is its (Round Number, Year) |
| `WeatherPerf.KeysMatchIffPaired` | src/formula1_analytics/drivers/driver_weather_perf.py:35-36 | a race and a reading match iff their rounds and years are both equal |
| `WeatherPerf.JoinedPairs` | src/formula1_analytics/drivers/driver_weather_perf.py:20-36 | the merged pairs: each is paired, every paired (race, reading) occurs, in race order then reading order |
| `WeatherPerf.ReadingsTotalMatches` | src/formula1_analytics/drivers/driver_weather_perf.py:20-36 | the readings paired with each race, summed over races, is the merge's match count |
| `WeatherPerf.RaceWeatherIsDrop` | src/formula1_analytics/drivers/driver_weather_perf.py:37 | the result is the merged table with weather's round and year dropped |
| `WeatherPerf.MergedLabelsWithout` | src/formula1_analytics/drivers/driver_weather_perf.py:37 | dropping Round Number and Year leaves race key, year, round and the six readings |
| `WeatherPerf.RaceWeatherNames` | src/formula1_analytics/drivers/driver_weather_perf.py:20-37 | the output columns are the race key, year, round and the six readings, in that order |
| `WeatherPerf.RaceWeatherCount` | src/formula1_analytics/drivers/driver_weather_perf.py:20-36 | one output row per paired (race, reading): the readings matching each race, summed over races |
| `WeatherPerf.RaceWeatherColumn` | src/formula1_analytics/drivers/driver_weather_perf.py:20-37 | each kept column takes, in row p, the race's or the reading's cell of pair p |
| `WeatherPerf.RaceWeatherRaceCells` | src/formula1_analytics/drivers/driver_weather_perf.py:21-24 | row p carries the key, year and round of its race |
| `WeatherPerf.RaceWeatherMetricCells` | src/formula1_analytics/drivers/driver_weather_perf.py:25-34 | row p carries the six readings of its weather row |
| `WeatherPerf.DriverWeatherPerf.constructor` | src/formula1_analytics/drivers/driver_weather_perf.py:11-20 | stores the name table, the projected results and the race-weather table |
| `WeatherPerf.NewDriverWeatherPerf` | src/formula1_analytics/drivers/driver_weather_perf.py:11-37 | `__init__` from line 14 on, for the module once its import of `ResultsColumns` is fixed (as written the import fails), with the name table as a parameter in place of the missing `get_driver_fullnames` call of line 13 (which then raises AttributeError): succeeds iff the projection and the join do, reporting the first failure among those two steps; stores both results |
| `Frames.Select` | src/formula1_analytics/common/f1_data.py:26-30 | `df[list]`: exactly the requested columns in order, rows unchanged; KeyError naming the first missing label |
| `Frames.SelectOfSelect` | src/formula1_analytics/common/f1_data.py:26-30 | selecting from a selection is selecting from the original, and works iff the labels were selected |
| `Frames.DropColumns` | src/formula1_analytics/drivers/driver_weather_perf.py:37 | `drop(columns=…)`: a label survives iff it is not dropped; KeyError iff a dropped label is missing |
| `Frames.DropKeepsNamedColumn` | src/formula1_analytics/drivers/driver_weather_perf.py:37 | a column that is not dropped keeps its cells |
| `Frames.DropNames` | src/formula1_analytics/drivers/driver_weather_perf.py:37 | the labels left are those not dropped, in order |
| `Frames.ResetIndex` | src/formula1_analytics/drivers/driver_weather_perf.py:24 | `reset_index()`: the key becomes the first column, rows keyed by position; ValueError iff the label is already a column |
| `Frames.ResetIndexColumn` | src/formula1_analytics/drivers/driver_weather_perf.py:24 | the new first column holds the old keys, every other column keeps its cells |
| `Frames.SetColumn` | src/formula1_analytics/common/f1_data.py:19 | `df[c] = col` replaces or appends column `c`, other columns unchanged |
| `Frames.JoinPairs` | src/formula1_analytics/drivers/driver_weather_perf.py:20-36 | the inner merge's pairs: every matching (left row, right row) pair, nothing else, left rows in order, then right rows in order (pandas 2.2's documented order for `how="inner"`) |
| `Frames.InnerJoin` | src/formula1_analytics/drivers/driver_weather_perf.py:20-36 | `pd.merge(left_on, right_on)`: KeyError iff a key label is missing; left columns then right columns, keyed by position |
| `Frames.JoinOnRows` | src/formula1_analytics/drivers/driver_weather_perf.py:20-36 | one merged row per matching pair, carrying the left row's cells then the right row's |
| `Frames.JoinOnColumn` | src/formula1_analytics/drivers/driver_weather_perf.py:20-36 | a column of either side, in the merged table, takes its cell from that side's row of the pair |
| `Frames.Loc` | src/formula1_analytics/drivers/drivers_most_wins.py:69 | `.loc[keys]`: KeyError iff a key is not a row key; labels unchanged |
| `Frames.LocRows` | src/formula1_analytics/drivers/drivers_most_wins.py:69 | with distinct row keys, row p of `.loc[keys]` is the row keyed `keys[p]` |
| `Index.PromoteKey` | src/formula1_analytics/common/index.py:6-12 | re-keying fails with KeyError iff the id column is missing |
| `Index.KeysAreFormerIds` | src/formula1_analytics/common/index.py:10 | the row keys are the former id values, row by row, and the key takes the column's name |
| `Index.IdColumnRemoved` | src/formula1_analytics/common/index.py:11 | the id column leaves the body, which has one column fewer when its labels are distinct |
| `Index.OtherColumnsUnchanged` | src/formula1_analytics/common/index.py:10-11 | row count and every other column's cells unchanged |
| `Index.IdToIndex` | src/formula1_analytics/common/index.py:6-12 | re-keys the caller's frame in place and returns that same frame; KeyError and no change when the column is missing |
| `F1Data.Prepared` | src/formula1_analytics/common/f1_data.py:10-21 | the frame `__init__` builds is well formed |
| `F1Data.PreparedWithId` | src/formula1_analytics/common/f1_data.py:16-17 | with an id name: KeyError iff the column is missing; otherwise rows keyed by the loaded id values and the id not a body column |
| `F1Data.PreparedPositional` | src/formula1_analytics/common/f1_data.py:18-19 | without an id name: a column `index` whose row i holds i, keys unchanged |
| `F1Data.PreparedHasNoPlaceholder` | src/formula1_analytics/common/f1_data.py:16-21 | no body cell holds the `\N` placeholder after construction |
| `F1Data.Load` | src/formula1_analytics/common/f1_data.py:10-21 | the step-by-step construction on a fresh frame leaves exactly the prepared table, or the KeyError |
| `F1Data.F1Data.constructor` | src/formula1_analytics/common/f1_data.py:15 | the object holds the frame given |
| `F1Data.F1Data.GetData` | src/formula1_analytics/common/f1_data.py:23-24 | returns the stored frame itself |
| `F1Data.F1Data.GetSelectedColumns` | src/formula1_analytics/common/f1_data.py:26-30 | exactly the named columns in order, rows and cells unchanged; KeyError iff a name is not a column |
| `DataProcessor.NullPlaceholders` | src/formula1_analytics/common/data_processor.py:6-10 | cells containing `\N` become NA, all others (and keys and labels) unchanged |
| `DataProcessor.NullPlaceholdersIdempotent` | src/formula1_analytics/common/data_processor.py:10 | null-marking twice is null-marking once |
| `DataProcessor.EmptyToNan` | src/formula1_analytics/common/data_processor.py:6-10 | null-marks the caller's frame in place |
| `DataProcessor.ConvertStep` | src/formula1_analytics/common/data_processor.py:21-24 | one loop turn keeps the labels and the row keys; what it converts, reports and raises is stated by `DataProcessor.StepColumn` and `DataProcessor.StepRaises` |
| `DataProcessor.StepColumn` | src/formula1_analytics/common/data_processor.py:21-24 | on a present column: converted cells replace the column and nothing is reported; a TypeError keeps the old cells and reports the column; other columns are unchanged and nothing escapes |
| `DataProcessor.StepRaises` | src/formula1_analytics/common/data_processor.py:21-23 | a missing column escapes as KeyError and a non-TypeError failure of `astype` escapes as that error; frame and reports are unchanged |
| `DataProcessor.ConvertAll` | src/formula1_analytics/common/data_processor.py:20-24 | the loop over `column_types`, entry after entry: the frame keeps its labels and row keys; when it raises is stated by `DataProcessor.ConvertAllRaisesIff` and `DataProcessor.FirstFailureRaises`, what it converts and reports by `DataProcessor.ConvertAllAbsorbsTypeErrors` and `DataProcessor.ConvertedColumns`, and the early exit by `DataProcessor.RaisedStopsLoop` |
| `DataProcessor.RaisedStopsLoop` | src/formula1_analytics/common/data_processor.py:21-23 | once an exception other than TypeError escapes, the remaining entries change nothing |
| `DataProcessor.UnlistedColumnUntouched` | src/formula1_analytics/common/data_processor.py:20-22 | a column not listed in `column_types` keeps its cells |
| `DataProcessor.ConvertAllRaisesIff` | src/formula1_analytics/common/data_processor.py:20-24 | for the distinct keys of a dict: an exception escapes the loop iff some listed column is missing (KeyError at line 22) or its `astype` fails with something other than TypeError |
| `DataProcessor.FirstFailureRaises` | src/formula1_analytics/common/data_processor.py:20-24 | the first such entry decides: its KeyError or conversion error escapes, the frame is as the earlier entries left it, and the reports are the TypeError columns among those earlier entries |
| `DataProcessor.ConvertAllAbsorbsTypeErrors` | src/formula1_analytics/common/data_processor.py:20-24 | with every listed column present and only TypeErrors: nothing escapes, exactly the TypeError columns are reported, converted columns hold the converted cells and failed ones keep theirs |
| `DataProcessor.OnlyTypeErrorsReported` | src/formula1_analytics/common/data_processor.py:21-24 | under the same conditions nothing escapes and the reports are exactly the TypeError columns, in order |
| `DataProcessor.ConvertedColumns` | src/formula1_analytics/common/data_processor.py:20-24 | under the same conditions each listed column holds its conversion, or its old cells on TypeError |
| `DataProcessor.ConvertTypes` | src/formula1_analytics/common/data_processor.py:12-24 | the in-place loop ends in the state `ConvertAll` describes: frame, reports and escaped exception |
| `DataProcessor.StackTwo` | src/formula1_analytics/common/data_processor.py:31 | concatenating two frames by rows: keys of the first then the second; the first frame's labels, then the second's new ones in order |
| `DataProcessor.StackTwoColumn` | src/formula1_analytics/common/data_processor.py:31 | a column of the first frame keeps its cells on top and takes the second's cells (or NA) below |
| `DataProcessor.Merge` | src/formula1_analytics/common/data_processor.py:26-31 | `pd.concat`: ValueError iff no frames or a bad axis. By rows: the keys of all frames in order (as many as their rows summed), the first frame's labels then each later frame's new ones, and under each label every frame's cells (NA for a frame without it) frame after frame. By columns: all labels and all columns side by side, in frame order |
| `DataProcessor.StackRowsColumn` | src/formula1_analytics/common/data_processor.py:31 | stacking any number of frames: a label's column is each frame's column of that label, or NA over a frame without it, frame after frame |
| `DataProcessor.StackTwoNewColumn` | src/formula1_analytics/common/data_processor.py:31 | a label only the second frame has is NA over the first frame's rows, then the second frame's cells |
| `DataProcessor.StackedNamesStartWithFirst` | src/formula1_analytics/common/data_processor.py:31 | stacking keeps the first frame's labels first, in their order |
| `DataProcessor.RowCountOfKeys` | src/formula1_analytics/common/data_processor.py:31 | stacking keeps every key, so the row count is the sum of the inputs' |

## Left out

- Loading the CSV files, `read_csv` type inference and the `config` file names: a loaded table is a parameter (`F1Data.Load`, `WeatherPerf.NewDriverWeatherPerf`, the `DriversSeasonPerf` constructor).
- The class attributes that load data at import time. The model covers one `get_data` call on a fresh instance, with the tables as parameters. A second call on the same instance, which works on the already transformed `_results`, is not modelled (`GetData` requires the initial stage).
- `Drivers().get_driver_fullnames` and the `FULLNAME` column do not exist in the repository. The driverId → full name table is a parameter (`map<int, string>`).
- `WeatherPerf.NewDriverWeatherPerf`: as written, driver_weather_perf.py fails to import. Its line 3 imports `ResultsColumns` from drivers.py, which neither defines nor imports it (the class is in results/results.py), so no `DriverWeatherPerf()` ever runs. The model uses the labels of results.py's `ResultsColumns` (driverId, position, raceId, points) as the fixed import would.
- `IndexManager` is not part of this model. `F1Data` re-keys through `Index.PromoteKey` / `Index.IdToIndex`.
- `astype`: the pandas dtype semantics are not modelled. `convert_types` takes conversion as a function parameter that may return cells or fail with TypeError or another error. The per-entity `get_types` maps are inputs.
- The `print` in `convert_types` is modelled as the list of reported columns. The `LOGGER` calls in `DriverWeatherPerf.__init__` are left out.
- Plotting, and the per-entity column accessors in `drivers.py`, `races.py`, `results.py` and `weather.py`: they are covered by `get_selected_columns`.
- `DriverWeatherPerf.get_data` and the two `_add_driver_names` methods: they are stubs with no body.
- Floating point: points are exact reals.
- Merge suffixes (`_x`/`_y`) for overlapping non-key labels are not modelled. The weather join's sides never overlap, except if the race key were itself named like a weather column. The lemmas about the output's columns assume it is not (`KeyLabel(races) !in WeatherColumns`).
- `SeasonPerf.AttachRound`: states which rows the raceId merge produces, not their order or multiplicity (the pivot sorts and rejects duplicates).
- `SeasonPerf.RaceRow`: `year` may be NA, and an NA year never matches the season. `round` is never NA in the model, although `convert_types` makes it a nullable Int64 column. An NA round would become an NA row label in the pivot, which the model cannot express.
- `SeasonPerf.SeasonPerformanceCells`: assumes every race round is positive, as Formula 1 rounds are. A round 0 or a negative round would merge with or sort before the zero row, and the running-totals statement would not hold.
- `SeasonPerf.GridCellsAreRunningTotals`: the same premise on rounds.
- `Ranking.SortByWins`: pandas' default sort is not stable, so the order of drivers with equal wins is not fixed. The contract states only a permutation with wins non-increasing, and every lemma about `get` depends only on that.
- `Ranking.DriverNamesRows`: row order is proved for distinct row keys (driverId is unique in the drivers table). With repeated keys `.loc` returns every row of each key.
- `DataProcessor.Merge`: concatenation by columns is modelled for frames sharing one row index. pandas would align differing indexes with an outer join, which is not modelled.
- `DataProcessor.Merge`: only DataFrames are modelled. A `pd.Series` argument, which `merge` also accepts, is not: concat would treat it as one column named after the Series.
- `Frames.InnerJoin`: pandas' type coercion of key values (for example 1 == 1.0 across an int and a float column) is modelled only as equality of the cells.
- `Ranking.IsWin`: `position == 1` is true for the integer 1, the number 1.0 and True. Text, "1" included, and NA never match.

## Findings

| source | as written | input that shows it | evidently intended | confidence | as-written member | corrected member |
|---|---|---|---|---|---|---|
| src/formula1_analytics/drivers/drivers_most_wins.py:61-70 | selects `driverId`, `forename`, `surname` from the drivers' frame, then sets `driverId` as the index and picks the requested ids | any call: `Drivers()` is an `F1Data` built with id name `driverId`, so `driverId` is already the row key and no longer a column, and the selection raises KeyError('driverId') | select only `forename` and `surname` of the frame already keyed by driverId, then `.loc[driver_ids]` | not executed; relies on `IndexManager` re-keying as `Index.id_to_index` does | `Ranking.DriverNamesAlwaysRaises` | `Ranking.DriverNamesRows` |
| src/formula1_analytics/drivers/most_successful.py:45-54 | the same lookup as in `DriversMostWins` | any call, for the same reason | the same | not executed; relies on `IndexManager` re-keying as `Index.id_to_index` does | `Ranking.DriverNamesAlwaysRaises` | `Ranking.DriverNamesRows` |
| src/formula1_analytics/drivers/most_successful.py:32-34 | compares `position` with the integer 1. `Results` never calls `convert_types` (results.py:26-28), so `position` keeps the type `read_csv` gave it | a results file whose `position` column holds the `\N` placeholder: `read_csv` reads the column as text, null-marking turns only `\N` into NA, so no cell equals 1 and `get(count)` is empty for every count; `DriversMostWins.get_data` (drivers_most_wins.py:46-47) behaves the same | convert `position` to numbers before comparing, so that a first place written "1" counts as a win | not executed; depends on the results file holding `\N` in `position` | `MostSuccessful.TextPositionsNoWinners` | `MostSuccessful.GetNumericWinners` |
