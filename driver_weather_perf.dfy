/** `DriverWeatherPerf`: the results projected to four columns, and every
    race paired with the weather readings taken at it, matched on round
    number and year. */
module WeatherPerf {
  import opened Base
  import opened Frames

  /** The result columns the class keeps. */
  const ResultColumns: seq<string> := ["driverId", "position", "raceId", "points"]
  /** The race columns taken before `reset_index`. */
  const RaceColumns: seq<string> := ["year", "round"]
  /** The weather columns taken, key columns first. */
  const WeatherColumns: seq<string> :=
    ["Round Number", "Year", "Rainfall", "TrackTemp", "AirTemp", "Humidity", "Pressure", "WindSpeed"]
  /** The six readings that survive the merge. */
  const Metrics: seq<string> := ["Rainfall", "TrackTemp", "AirTemp", "Humidity", "Pressure", "WindSpeed"]
  /** The merge keys on each side, in the order they are compared. */
  const RaceKey: seq<string> := ["round", "year"]
  const WeatherKey: seq<string> := ["Round Number", "Year"]

  /** `Results().get_selected_columns(driverId, position, raceId, points)`:
      exactly those four columns, every row kept; KeyError for a missing one. */
  function ProjectResults(results: Table): (r: Result<Table>)
    requires results.Valid()
    ensures r.Err? <==> exists c :: c in ResultColumns && c !in results.names
    ensures r.Ok? ==> r.value.Valid() && r.value.names == ResultColumns && r.value.index == results.index
    ensures r.Ok? ==> forall k :: 0 <= k < 4 ==> r.value.cols[k] == Column(results, ResultColumns[k])
  {
    Select(results, ResultColumns)
  }

  /** The name `reset_index` gives the race key column (`raceId` for the
      races table): `IndexLabel` of the year/round selection, which never
      holds a column "index" (see `RaceSide`). */
  function KeyLabel(races: Table): string
  {
    match races.key
    case Some(k) => k
    case None => "index"
  }

  /** What the merge needs to go through: the selected columns exist and the
      race key's name does not collide with year or round. */
  predicate Ready(races: Table, weather: Table)
  {
    RacesReady(races) && WeatherReady(weather)
  }

  predicate RacesReady(races: Table)
  {
    "year" in races.names && "round" in races.names && KeyLabel(races) != "year" && KeyLabel(races) != "round"
  }

  predicate WeatherReady(weather: Table)
  {
    && "Round Number" in weather.names && "Year" in weather.names
    && "Rainfall" in weather.names && "TrackTemp" in weather.names && "AirTemp" in weather.names
    && "Humidity" in weather.names && "Pressure" in weather.names && "WindSpeed" in weather.names
  }

  /** The left side of the merge: race key, year and round, keyed by position. */
  function RaceSide(races: Table): (l: Table)
    requires races.Valid() && RacesReady(races)
    ensures l.Valid() && l.names == [KeyLabel(races)] + RaceColumns && |l.index| == |races.index|
  {
    assert forall c :: c in RaceColumns ==> c in races.names;
    var s := Select(races, RaceColumns).value;
    assert IndexLabel(s) == KeyLabel(races);
    ResetIndex(s).value
  }

  /** The right side of the merge: the weather keys and the six readings. */
  function WeatherSide(weather: Table): (w: Table)
    requires weather.Valid() && WeatherReady(weather)
    ensures w.Valid() && w.names == WeatherColumns && w.index == weather.index
  {
    assert forall c :: c in WeatherColumns ==> c in weather.names;
    Select(weather, WeatherColumns).value
  }

  /** `pd.merge(races[[year, round]].reset_index(), weather[...],
      left_on=[round, year], right_on=[Round Number, Year])` followed by
      dropping weather's own round and year. KeyError when a selected column
      is missing, ValueError when the race key's name is already a column. */
  function RaceWeather(races: Table, weather: Table): (r: Result<Table>)
    requires races.Valid() && weather.Valid()
    ensures r.Ok? ==> r.value.Valid() && r.value.key == None
  {
    match Select(races, RaceColumns)
    case Err(e) => Err(e)
    case Ok(s) =>
      match ResetIndex(s)
      case Err(e) => Err(e)
      case Ok(l) =>
        match Select(weather, WeatherColumns)
        case Err(e) => Err(e)
        case Ok(w) =>
          match InnerJoin(l, w, RaceKey, WeatherKey)
          case Err(e) => Err(e)
          case Ok(j) => DropColumns(j, WeatherKey)
  }

  /** The race side can be built exactly when year and round are columns
      and the key's name is neither. */
  lemma RaceSideBuilds(races: Table)
    requires races.Valid()
    ensures (Select(races, RaceColumns).Ok? && ResetIndex(Select(races, RaceColumns).value).Ok?) <==> RacesReady(races)
  {
    var s := Select(races, RaceColumns);
    if s.Ok? {
      assert s.value.names == ["year", "round"];
      assert IndexLabel(s.value) == KeyLabel(races);
    } else {
      var c :| c in RaceColumns && c !in races.names;
    }
  }

  /** The weather columns can be selected exactly when all eight exist. */
  lemma WeatherSideBuilds(weather: Table)
    requires weather.Valid()
    ensures Select(weather, WeatherColumns).Ok? <==> WeatherReady(weather)
  {
    if WeatherReady(weather) {
      forall k | 0 <= k < |WeatherColumns| ensures WeatherColumns[k] in weather.names {
      }
      assert forall c :: c in WeatherColumns ==> c in weather.names;
    } else {
      var c := if "Round Number" !in weather.names then "Round Number"
        else if "Year" !in weather.names then "Year"
        else if "Rainfall" !in weather.names then "Rainfall"
        else if "TrackTemp" !in weather.names then "TrackTemp"
        else if "AirTemp" !in weather.names then "AirTemp"
        else if "Humidity" !in weather.names then "Humidity"
        else if "Pressure" !in weather.names then "Pressure"
        else "WindSpeed";
      assert c in WeatherColumns && c !in weather.names;
    }
  }

  /** With both sides built, the merge and the drop go through. */
  lemma MergeBuilds(races: Table, weather: Table)
    requires races.Valid() && weather.Valid() && Ready(races, weather)
    ensures var l, w := RaceSide(races), WeatherSide(weather);
      && InnerJoin(l, w, RaceKey, WeatherKey).Ok?
      && DropColumns(InnerJoin(l, w, RaceKey, WeatherKey).value, WeatherKey).Ok?
  {
    var l, w := RaceSide(races), WeatherSide(weather);
    KeysPresent(l.names, KeyLabel(races), WeatherColumns);
    KeysPresent(l.names, KeyLabel(races), l.names + w.names);
    assert InnerJoin(l, w, RaceKey, WeatherKey).value.names == l.names + w.names;
  }

  /** Both merge keys are among the race side's labels, and the weather
      keys among any labels that end with the weather columns. */
  lemma KeysPresent(left: seq<string>, key: string, right: seq<string>)
    requires left == [key] + RaceColumns
    requires |right| >= |WeatherColumns| && right[|right| - |WeatherColumns|..] == WeatherColumns
    ensures forall c :: c in RaceKey ==> c in left
    ensures forall c :: c in WeatherKey ==> c in right
  {
    assert left[1] == "year" && left[2] == "round";
    var m := |right| - |WeatherColumns|;
    assert right[m] == WeatherColumns[0] && right[m + 1] == WeatherColumns[1];
  }

  /** The merge fails exactly when a needed column is missing or the race
      key's name clashes; a missing race column is reported first. */
  lemma RaceWeatherFails(races: Table, weather: Table)
    requires races.Valid() && weather.Valid()
    ensures RaceWeather(races, weather).Ok? <==> Ready(races, weather)
    ensures (exists c :: c in RaceColumns && c !in races.names) ==>
      RaceWeather(races, weather) == Err(KeyError(RaceColumns[FirstMissing(RaceColumns, races.names)]))
  {
    RaceSideBuilds(races);
    WeatherSideBuilds(weather);
    if Ready(races, weather) {
      MergeBuilds(races, weather);
      assert RaceWeather(races, weather) ==
        DropColumns(InnerJoin(RaceSide(races), WeatherSide(weather), RaceKey, WeatherKey).value, WeatherKey);
    }
  }

  /** Race row i and weather reading k are paired: same round, same year. */
  ghost predicate Paired(races: Table, weather: Table, i: nat, k: nat)
    requires races.Valid() && weather.Valid() && Ready(races, weather)
  {
    && i < |races.index| && k < |weather.index|
    && Column(races, "round")[i] == Column(weather, "Round Number")[k]
    && Column(races, "year")[i] == Column(weather, "Year")[k]
  }

  /** The race side keeps the races' round and year columns. */
  lemma RaceSideColumns(races: Table)
    requires races.Valid() && RacesReady(races)
    ensures Column(RaceSide(races), "round") == Column(races, "round")
    ensures Column(RaceSide(races), "year") == Column(races, "year")
    ensures Column(RaceSide(races), KeyLabel(races)) == races.index
  {
    assert forall c :: c in RaceColumns ==> c in races.names;
    var s := Select(races, RaceColumns).value;
    assert IndexLabel(s) == KeyLabel(races);
    SelectColumn(races, RaceColumns, "round");
    SelectColumn(races, RaceColumns, "year");
    ResetIndexColumn(s, "round");
    ResetIndexColumn(s, "year");
  }

  /** The weather side keeps every selected weather column. */
  lemma WeatherSideColumn(weather: Table, c: string)
    requires weather.Valid() && WeatherReady(weather) && c in WeatherColumns
    ensures Column(WeatherSide(weather), c) == Column(weather, c)
  {
    assert forall c :: c in WeatherColumns ==> c in weather.names;
    SelectColumn(weather, WeatherColumns, c);
  }

  /** The cells `RowKey` compares are the columns named by the keys. */
  lemma RowKeyOfLabels(t: Table, on: seq<string>, i: nat)
    requires t.Valid() && i < |t.index| && forall c :: c in on ==> c in t.names
    ensures |RowKey(t, Positions2(t.names, on), i)| == |on|
    ensures forall c :: 0 <= c < |on| ==> RowKey(t, Positions2(t.names, on), i)[c] == Column(t, on[c])[i]
  {
  }

  /** The merge key of race row i is its round and year. */
  lemma RaceKeyIsRoundAndYear(races: Table, i: nat)
    requires races.Valid() && RacesReady(races) && i < |races.index|
    ensures var l := RaceSide(races);
      RowKey(l, Positions2(l.names, RaceKey), i) == [Column(races, "round")[i], Column(races, "year")[i]]
  {
    var l := RaceSide(races);
    RaceSideColumns(races);
    assert "round" in l.names && "year" in l.names;
    RowKeyOfLabels(l, RaceKey, i);
    var key := RowKey(l, Positions2(l.names, RaceKey), i);
    assert key[0] == Column(races, "round")[i];
    assert key[1] == Column(races, "year")[i];
  }

  /** The merge key of reading k is its round number and year. */
  lemma WeatherKeyIsRoundAndYear(weather: Table, k: nat)
    requires weather.Valid() && WeatherReady(weather) && k < |weather.index|
    ensures var w := WeatherSide(weather);
      RowKey(w, Positions2(w.names, WeatherKey), k) == [Column(weather, "Round Number")[k], Column(weather, "Year")[k]]
  {
    var w := WeatherSide(weather);
    WeatherSideColumn(weather, "Round Number");
    WeatherSideColumn(weather, "Year");
    assert "Round Number" in w.names && "Year" in w.names;
    RowKeyOfLabels(w, WeatherKey, k);
    var key := RowKey(w, Positions2(w.names, WeatherKey), k);
    assert key[0] == Column(weather, "Round Number")[k];
    assert key[1] == Column(weather, "Year")[k];
  }

  /** The merge keys of race row i and reading k agree exactly when the two
      are paired. */
  lemma KeysMatchIffPaired(races: Table, weather: Table, i: nat, k: nat)
    requires races.Valid() && weather.Valid() && Ready(races, weather)
    ensures var l := RaceSide(races); var w := WeatherSide(weather);
      KeysMatch(l, Positions2(l.names, RaceKey), i, w, Positions2(w.names, WeatherKey), k) <==> Paired(races, weather, i, k)
  {
    if i < |races.index| && k < |weather.index| {
      RaceKeyIsRoundAndYear(races, i);
      WeatherKeyIsRoundAndYear(weather, k);
    }
  }

  /** The pairs (race row, reading) the merge makes, in output order. */
  ghost function JoinedPairs(races: Table, weather: Table): (ps: seq<(nat, nat)>)
    requires races.Valid() && weather.Valid() && Ready(races, weather)
    ensures forall p :: 0 <= p < |ps| ==> Paired(races, weather, ps[p].0, ps[p].1)
    ensures forall i: nat, k: nat :: Paired(races, weather, i, k) ==> (i, k) in ps
    ensures forall p, q :: 0 <= p < q < |ps| ==> ps[p].0 < ps[q].0 || (ps[p].0 == ps[q].0 && ps[p].1 < ps[q].1)
  {
    var l, w := RaceSide(races), WeatherSide(weather);
    var lon, won := Positions2(l.names, RaceKey), Positions2(w.names, WeatherKey);
    var ps := JoinPairs(l, lon, w, won, |l.index|);
    forall p | 0 <= p < |ps| ensures Paired(races, weather, ps[p].0, ps[p].1) {
      KeysMatchIffPaired(races, weather, ps[p].0, ps[p].1);
    }
    forall i: nat, k: nat | Paired(races, weather, i, k) ensures (i, k) in ps {
      KeysMatchIffPaired(races, weather, i, k);
    }
    ps
  }

  /** The readings k < n paired with race row i. */
  ghost function ReadingsAt(races: Table, weather: Table, i: nat, n: nat): nat
    requires races.Valid() && weather.Valid() && Ready(races, weather) && n <= |weather.index|
  {
    if n == 0 then 0 else ReadingsAt(races, weather, i, n - 1) + if Paired(races, weather, i, n - 1) then 1 else 0
  }

  /** The readings paired with the race rows i < m, summed. */
  ghost function ReadingsTotal(races: Table, weather: Table, m: nat): nat
    requires races.Valid() && weather.Valid() && Ready(races, weather) && m <= |races.index|
  {
    if m == 0 then 0 else ReadingsTotal(races, weather, m - 1) + ReadingsAt(races, weather, m - 1, |weather.index|)
  }

  lemma {:induction false} ReadingsAtMatches(races: Table, weather: Table, i: nat, n: nat)
    requires races.Valid() && weather.Valid() && Ready(races, weather)
    requires i < |races.index| && n <= |weather.index|
    ensures var l, w := RaceSide(races), WeatherSide(weather);
      ReadingsAt(races, weather, i, n) == MatchCount(l, Positions2(l.names, RaceKey), i, w, Positions2(w.names, WeatherKey), n)
  {
    if n > 0 {
      ReadingsAtMatches(races, weather, i, n - 1);
      KeysMatchIffPaired(races, weather, i, n - 1);
    }
  }

  lemma {:induction false} ReadingsTotalMatches(races: Table, weather: Table, m: nat)
    requires races.Valid() && weather.Valid() && Ready(races, weather) && m <= |races.index|
    ensures var l, w := RaceSide(races), WeatherSide(weather);
      ReadingsTotal(races, weather, m) == TotalMatches(l, Positions2(l.names, RaceKey), w, Positions2(w.names, WeatherKey), m)
  {
    if m > 0 {
      ReadingsTotalMatches(races, weather, m - 1);
      ReadingsAtMatches(races, weather, m - 1, |weather.index|);
    }
  }

  /** The merged table before weather's key columns are dropped. */
  ghost function Merged(races: Table, weather: Table): (j: Table)
    requires races.Valid() && weather.Valid() && Ready(races, weather)
    ensures j.Valid() && j.names == [KeyLabel(races)] + RaceColumns + WeatherColumns
  {
    var l, w := RaceSide(races), WeatherSide(weather);
    JoinOn(l, w, Positions2(l.names, RaceKey), Positions2(w.names, WeatherKey))
  }

  lemma RaceWeatherIsDrop(races: Table, weather: Table)
    requires races.Valid() && weather.Valid() && Ready(races, weather)
    ensures DropColumns(Merged(races, weather), WeatherKey).Ok?
    ensures RaceWeather(races, weather) == DropColumns(Merged(races, weather), WeatherKey)
  {
    RaceSideBuilds(races);
    WeatherSideBuilds(weather);
    MergeBuilds(races, weather);
    var s := Select(races, RaceColumns).value;
    assert IndexLabel(s) == KeyLabel(races);
    var l, w := RaceSide(races), WeatherSide(weather);
    assert InnerJoin(l, w, RaceKey, WeatherKey) == Ok(Merged(races, weather));
  }

  /** Dropping weather's keys from the merged labels. */
  lemma MergedLabelsWithout(key: string)
    requires key !in WeatherColumns
    ensures Without([key] + RaceColumns + WeatherColumns, WeatherKey) == [key] + RaceColumns + Metrics
  {
    var left := [key] + RaceColumns;
    assert WeatherColumns == WeatherKey + Metrics;
    assert forall k :: 0 <= k < |left| ==> left[k] !in WeatherKey;
    assert forall k :: 0 <= k < |Metrics| ==> Metrics[k] !in WeatherKey;
    WithoutMiddle(left, WeatherKey, Metrics, WeatherKey);
    assert [key] + RaceColumns + WeatherColumns == left + WeatherKey + Metrics;
  }

  /** The merged columns: race key, year, round, then the six readings. */
  lemma RaceWeatherNames(races: Table, weather: Table)
    requires races.Valid() && weather.Valid() && Ready(races, weather) && KeyLabel(races) !in WeatherColumns
    ensures RaceWeather(races, weather).Ok?
    ensures RaceWeather(races, weather).value.names == [KeyLabel(races)] + RaceColumns + Metrics
  {
    RaceWeatherIsDrop(races, weather);
    DropNames(Merged(races, weather), WeatherKey);
    MergedLabelsWithout(KeyLabel(races));
  }

  /** One merged row per paired (race, reading): as many as the readings
      paired with each race, summed over the races. */
  lemma RaceWeatherCount(races: Table, weather: Table)
    requires races.Valid() && weather.Valid() && Ready(races, weather)
    ensures RaceWeather(races, weather).Ok?
    ensures |RaceWeather(races, weather).value.index| == |JoinedPairs(races, weather)| == ReadingsTotal(races, weather, |races.index|)
  {
    RaceWeatherIsDrop(races, weather);
    var l, w := RaceSide(races), WeatherSide(weather);
    JoinOnRows(l, w, Positions2(l.names, RaceKey), Positions2(w.names, WeatherKey));
    ReadingsTotalMatches(races, weather, |races.index|);
  }

  /** A merged column of the race side or of the readings (not one of weather's
      keys) holds, in row p, that side's cell of the pair p. */
  lemma RaceWeatherColumn(races: Table, weather: Table, c: string)
    requires races.Valid() && weather.Valid() && Ready(races, weather) && KeyLabel(races) !in WeatherColumns
    requires c in [KeyLabel(races)] + RaceColumns + Metrics
    ensures RaceWeather(races, weather).Ok? && c in RaceWeather(races, weather).value.names
    ensures var r := RaceWeather(races, weather).value; var ps := JoinedPairs(races, weather);
      var l, w := RaceSide(races), WeatherSide(weather);
      && |r.index| == |ps|
      && (c in l.names ==> forall p :: 0 <= p < |ps| ==> Column(r, c)[p] == Column(l, c)[ps[p].0])
      && (c !in l.names ==> forall p :: 0 <= p < |ps| ==> Column(r, c)[p] == Column(w, c)[ps[p].1])
  {
    RaceWeatherIsDrop(races, weather);
    RaceWeatherNames(races, weather);
    var l, w := RaceSide(races), WeatherSide(weather);
    var lon, won := Positions2(l.names, RaceKey), Positions2(w.names, WeatherKey);
    assert c in l.names || c in w.names;
    JoinOnColumn(l, w, lon, won, c);
    DropKeepsNamedColumn(Merged(races, weather), WeatherKey, c);
  }

  /** Row p of the merge carries the key, year and round of its race. */
  lemma RaceWeatherRaceCells(races: Table, weather: Table)
    requires races.Valid() && weather.Valid() && Ready(races, weather) && KeyLabel(races) !in WeatherColumns
    ensures RaceWeather(races, weather).Ok?
    ensures var r := RaceWeather(races, weather).value; var ps := JoinedPairs(races, weather);
      && KeyLabel(races) in r.names && "year" in r.names && "round" in r.names
      && forall p :: 0 <= p < |ps| ==>
        && Column(r, KeyLabel(races))[p] == races.index[ps[p].0]
        && Column(r, "year")[p] == Column(races, "year")[ps[p].0]
        && Column(r, "round")[p] == Column(races, "round")[ps[p].0]
  {
    RaceSideColumns(races);
    RaceWeatherColumn(races, weather, KeyLabel(races));
    RaceWeatherColumn(races, weather, "year");
    RaceWeatherColumn(races, weather, "round");
  }

  /** Row p of the merge carries the six readings of its weather row. */
  lemma RaceWeatherMetricCells(races: Table, weather: Table, m: nat)
    requires races.Valid() && weather.Valid() && Ready(races, weather)
    requires KeyLabel(races) !in WeatherColumns && m < |Metrics|
    ensures RaceWeather(races, weather).Ok?
    ensures var r := RaceWeather(races, weather).value; var ps := JoinedPairs(races, weather);
      && Metrics[m] in r.names
      && forall p :: 0 <= p < |ps| ==> Column(r, Metrics[m])[p] == Column(weather, Metrics[m])[ps[p].1]
  {
    assert Metrics[m] !in [KeyLabel(races)] + RaceColumns;
    RaceWeatherColumn(races, weather, Metrics[m]);
    WeatherSideColumn(weather, Metrics[m]);
  }

  /** One `DriverWeatherPerf` object: what its constructor stores. */
  class DriverWeatherPerf {
    /** driverId to full name, as given. */
    var drivers: map<int, string>
    var results: Table
    var raceWeather: Table

    constructor (names: map<int, string>, results: Table, raceWeather: Table)
      ensures this.drivers == names && this.results == results && this.raceWeather == raceWeather
    {
      this.drivers, this.results, this.raceWeather := names, results, raceWeather;
    }
  }

  /** `DriverWeatherPerf()`: the projected results and the race-weather merge
      stored in a new object; the error of whichever step fails first, in the
      order `__init__` runs them. */
  method NewDriverWeatherPerf(names: map<int, string>, results: Table, races: Table, weather: Table)
    returns (r: Result<DriverWeatherPerf>)
    requires results.Valid() && races.Valid() && weather.Valid()
    ensures r.Ok? <==> ProjectResults(results).Ok? && RaceWeather(races, weather).Ok?
    ensures r.Err? && ProjectResults(results).Err? ==> r.error == ProjectResults(results).error
    ensures r.Err? && ProjectResults(results).Ok? ==> r.error == RaceWeather(races, weather).error
    ensures r.Ok? ==> fresh(r.value) && r.value.drivers == names
    ensures r.Ok? ==> r.value.results == ProjectResults(results).value
    ensures r.Ok? ==> r.value.raceWeather == RaceWeather(races, weather).value
  {
    var projected := ProjectResults(results);
    if projected.Err? {
      return Err(projected.error);
    }
    var merged := RaceWeather(races, weather);
    if merged.Err? {
      return Err(merged.error);
    }
    var d := new DriverWeatherPerf(names, projected.value, merged.value);
    r := Ok(d);
  }
}
