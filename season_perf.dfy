/** `DriversSeasonPerf.get_data`: the round-by-driver table of cumulative
    points for one season. The results, the races and the driverId -> full
    name table are inputs (the loaders and the name lookup are not part of
    this model). */
module SeasonPerf {
  import opened Base
  import opened Ordering
  import Frames

  /** A row of `Results().get_selected_columns(raceId, driverId, points)`. */
  datatype ResultRow = ResultRow(raceId: Option<int>, driverId: Option<int>, points: Option<real>)

  /** A row of `Races().get_selected_columns(year, round)`, keyed by raceId.
      `year` is a nullable Int64 column: an NA year never equals the season. */
  datatype RaceRow = RaceRow(raceId: int, year: Option<int>, round: int)

  /** A result once the driverId is replaced by `driver_fullname`. */
  datatype NamedResult = NamedResult(raceId: Option<int>, points: Option<real>, fullname: string)

  /** A result once the raceId is replaced by the race's `round`. */
  datatype RoundResult = RoundResult(points: Option<real>, fullname: string, round: int)

  /** The pivoted frame: row labels are rounds, column labels are driver full
      names, and `cols[c][k]` is the cell of driver `drivers[c]` at round
      `rounds[k]`. */
  datatype Grid = Grid(rounds: seq<int>, drivers: seq<string>, cols: seq<seq<Option<real>>>)
  {
    ghost predicate Valid()
    {
      && |cols| == |drivers|
      && forall c :: 0 <= c < |cols| ==> |cols[c]| == |rounds|
    }
  }

  // ---------------------------------------------------------------------
  // Step 1: results joined with the full-name table

  /** Whether a result's driverId has an entry in the name table. */
  predicate Known(row: ResultRow, names: map<int, string>)
  {
    row.driverId.Some? && row.driverId.value in names
  }

  function Named(row: ResultRow, names: map<int, string>): NamedResult
    requires Known(row, names)
  {
    NamedResult(row.raceId, row.points, names[row.driverId.value])
  }

  function KnownCount(rows: seq<ResultRow>, names: map<int, string>): nat
  {
    if rows == [] then 0 else (if Known(rows[0], names) then 1 else 0) + KnownCount(rows[1..], names)
  }

  /** `_attach_driver_fullname_to_results`: the inner merge on driverId with
      the name table, `driverId` dropped. Results whose driver has no name
      (or whose driverId is missing) disappear; the others keep their order. */
  function AttachFullnames(rows: seq<ResultRow>, names: map<int, string>): (r: seq<NamedResult>)
    ensures |r| == KnownCount(rows, names)
    ensures forall i :: 0 <= i < |rows| && Known(rows[i], names) ==> Named(rows[i], names) in r
    ensures forall x :: x in r ==> exists i :: 0 <= i < |rows| && Known(rows[i], names) && x == Named(rows[i], names)
  {
    if rows == [] then []
    else
      var rest := AttachFullnames(rows[1..], names);
      assert forall i :: 0 < i < |rows| ==> rows[i] == rows[1..][i - 1];
      if Known(rows[0], names) then [Named(rows[0], names)] + rest else rest
  }

  /** The merge keeps the order of the results: two runs of results one after
      the other give their named rows one after the other. */
  lemma {:induction false} AttachFullnamesAppend(a: seq<ResultRow>, b: seq<ResultRow>, names: map<int, string>)
    ensures AttachFullnames(a + b, names) == AttachFullnames(a, names) + AttachFullnames(b, names)
  {
    if a == [] {
      assert a + b == b;
    } else {
      assert (a + b)[0] == a[0] && (a + b)[1..] == a[1..] + b;
      AttachFullnamesAppend(a[1..], b, names);
    }
  }

  // ---------------------------------------------------------------------
  // Step 2: the races of the season

  /** `_set_races_for_selected_season`: the races of that year, in order;
      the mask is False on an NA year. */
  function SeasonRaces(races: seq<RaceRow>, year: int): (r: seq<RaceRow>)
    ensures forall x :: x in r <==> x in races && x.year == Some(year)
    ensures forall x :: multiset(r)[x] == if x.year == Some(year) then multiset(races)[x] else 0
    ensures |r| <= |races|
  {
    if races == [] then []
    else
      var rest := SeasonRaces(races[1..], year);
      assert races == [races[0]] + races[1..];
      assert forall x :: x in races <==> x == races[0] || x in races[1..];
      if races[0].year == Some(year) then [races[0]] + rest else rest
  }

  /** The mask keeps the input order: filtering two runs of races one after
      the other gives the filtered runs one after the other. */
  lemma {:induction false} SeasonRacesAppend(a: seq<RaceRow>, b: seq<RaceRow>, year: int)
    ensures SeasonRaces(a + b, year) == SeasonRaces(a, year) + SeasonRaces(b, year)
  {
    if a == [] {
      assert a + b == b;
    } else {
      assert (a + b)[0] == a[0] && (a + b)[1..] == a[1..] + b;
      SeasonRacesAppend(a[1..], b, year);
    }
  }

  // ---------------------------------------------------------------------
  // Step 3: results joined with the season's rounds

  predicate SameRace(x: NamedResult, race: RaceRow)
  {
    x.raceId == Some(race.raceId)
  }

  function WithRound(x: NamedResult, race: RaceRow): RoundResult
  {
    RoundResult(x.points, x.fullname, race.round)
  }

  /** The rows the inner merge on raceId makes for one result, one per race
      of the season with that id, in race order. */
  function RoundsOf(x: NamedResult, season: seq<RaceRow>): (r: seq<RoundResult>)
    ensures forall y :: y in r <==> (exists j :: 0 <= j < |season| && SameRace(x, season[j]) && y == WithRound(x, season[j]))
  {
    if season == [] then []
    else
      var rest := RoundsOf(x, season[1..]);
      assert forall j :: 0 < j < |season| ==> season[j] == season[1..][j - 1];
      if SameRace(x, season[0]) then [WithRound(x, season[0])] + rest
      else rest
  }

  /** `_attach_race_round_to_results`: the inner merge with the season's
      `round` column on raceId, `raceId` dropped; a result of another season
      (or with no raceId) has no partner and disappears. */
  function AttachRound(named: seq<NamedResult>, season: seq<RaceRow>): (r: seq<RoundResult>)
    ensures forall y :: y in r <==>
      (exists i, j :: 0 <= i < |named| && 0 <= j < |season| && SameRace(named[i], season[j]) && y == WithRound(named[i], season[j]))
  {
    if named == [] then []
    else
      var rest := AttachRound(named[1..], season);
      assert forall i :: 0 < i < |named| ==> named[i] == named[1..][i - 1];
      RoundsOf(named[0], season) + rest
  }

  // ---------------------------------------------------------------------
  // Step 4: the pivot

  /** No two rows share both a round and a driver. */
  predicate DistinctCells(rows: seq<RoundResult>)
  {
    forall i, j :: 0 <= i < j < |rows| ==> rows[i].round != rows[j].round || rows[i].fullname != rows[j].fullname
  }

  /** The points of the row at (round, name), or NA when there is none. */
  function PointsAt(rows: seq<RoundResult>, round: int, name: string): (p: Option<real>)
    ensures p.Some? ==> exists i :: 0 <= i < |rows| && rows[i].round == round && rows[i].fullname == name && rows[i].points == p
    ensures (forall i :: 0 <= i < |rows| ==> rows[i].round != round || rows[i].fullname != name) ==> p == None
  {
    if rows == [] then None
    else if rows[0].round == round && rows[0].fullname == name then rows[0].points
    else
      assert forall i :: 0 < i < |rows| ==> rows[i] == rows[1..][i - 1];
      PointsAt(rows[1..], round, name)
  }

  lemma {:induction false} PointsAtRow(rows: seq<RoundResult>, i: nat)
    requires DistinctCells(rows) && i < |rows|
    ensures PointsAt(rows, rows[i].round, rows[i].fullname) == rows[i].points
  {
    if i > 0 {
      assert rows[i] == rows[1..][i - 1];
      PointsAtRow(rows[1..], i - 1);
    }
  }

  function RoundLabels(rows: seq<RoundResult>): (r: seq<int>)
    ensures |r| == |rows| && forall i :: 0 <= i < |rows| ==> r[i] == rows[i].round
  {
    seq(|rows|, i requires 0 <= i < |rows| => rows[i].round)
  }

  function DriverLabels(rows: seq<RoundResult>): (r: seq<string>)
    ensures |r| == |rows| && forall i :: 0 <= i < |rows| ==> r[i] == rows[i].fullname
  {
    seq(|rows|, i requires 0 <= i < |rows| => rows[i].fullname)
  }

  /** `_transform_drivers_to_columns`: `pivot(index=round,
      columns=driver_fullname, values=points)`. Both label axes come out
      sorted and without repeats; two rows for the same (round, driver) make
      pandas raise. */
  function Pivot(rows: seq<RoundResult>): (r: Result<Grid>)
    ensures r.Err? <==> !DistinctCells(rows)
    ensures r.Err? ==> r.error == DuplicateEntries
    ensures r.Ok? ==> r.value.Valid()
    ensures r.Ok? ==> Increasing(r.value.rounds, IntLess) && Elems(r.value.rounds) == Elems(RoundLabels(rows))
    ensures r.Ok? ==> Increasing(r.value.drivers, StrLess) && Elems(r.value.drivers) == Elems(DriverLabels(rows))
  {
    if !DistinctCells(rows) then Err(DuplicateEntries)
    else
      IntLessIsStrictTotalOrder();
      StrLessIsStrictTotalOrder();
      var rounds := SortedDistinct(RoundLabels(rows), IntLess);
      var drivers := SortedDistinct(DriverLabels(rows), StrLess);
      Ok(Grid(rounds, drivers, seq(|drivers|, c requires 0 <= c < |drivers| =>
        seq(|rounds|, k requires 0 <= k < |rounds| => PointsAt(rows, rounds[k], drivers[c])))))
  }

  /** A column of the pivot holds, round by round, the points of the
      driver's result for that round. */
  lemma PivotColumn(rows: seq<RoundResult>, c: nat)
    requires Pivot(rows).Ok? && c < |Pivot(rows).value.drivers|
    ensures var g := Pivot(rows).value;
      forall k :: 0 <= k < |g.rounds| ==> g.cols[c][k] == PointsAt(rows, g.rounds[k], g.drivers[c])
  {
  }

  /** Every result lands in the cell of its own round and driver, and a cell
      with no result is NA. */
  lemma PivotCells(rows: seq<RoundResult>)
    requires Pivot(rows).Ok?
    ensures var g := Pivot(rows).value;
      forall i :: 0 <= i < |rows| ==>
        && rows[i].fullname in g.drivers && rows[i].round in g.rounds
        && g.cols[IndexOf(g.drivers, rows[i].fullname)][IndexOf(g.rounds, rows[i].round)] == rows[i].points
    ensures var g := Pivot(rows).value;
      forall c, k :: 0 <= c < |g.drivers| && 0 <= k < |g.rounds| ==>
        ((forall i :: 0 <= i < |rows| ==> rows[i].round != g.rounds[k] || rows[i].fullname != g.drivers[c]) ==>
          g.cols[c][k] == None)
  {
    var g := Pivot(rows).value;
    forall i | 0 <= i < |rows| {
      PivotCellOfRow(rows, i);
    }
    PivotColumns(rows);
  }

  /** The cell at a result's driver and round holds that result's points. */
  lemma PivotCellOfRow(rows: seq<RoundResult>, i: nat)
    requires Pivot(rows).Ok? && i < |rows|
    ensures var g := Pivot(rows).value;
      && rows[i].fullname in g.drivers && rows[i].round in g.rounds
      && g.cols[IndexOf(g.drivers, rows[i].fullname)][IndexOf(g.rounds, rows[i].round)] == rows[i].points
  {
    var g := Pivot(rows).value;
    assert RoundLabels(rows)[i] in Elems(RoundLabels(rows));
    assert DriverLabels(rows)[i] in Elems(DriverLabels(rows));
    PivotColumn(rows, IndexOf(g.drivers, rows[i].fullname));
    PointsAtRow(rows, i);
  }

  // ---------------------------------------------------------------------
  // Step 5: the zero row

  /** Where `sort_index` puts round 0: after every negative round. */
  function ZeroPosition(rounds: seq<int>): (p: nat)
    requires Increasing(rounds, IntLess)
    ensures p <= |rounds|
    ensures forall k :: 0 <= k < p ==> rounds[k] < 0
    ensures forall k :: p <= k < |rounds| ==> rounds[k] >= 0
  {
    if rounds == [] || rounds[0] >= 0 then
      assert forall k :: 0 < k < |rounds| ==> IntLess(rounds[0], rounds[k]);
      0
    else
      1 + ZeroPosition(rounds[1..])
  }

  /** `loc[0] = [0, ...]` when round 0 is already row `p`: that row is
      overwritten. */
  function OverwriteZero(g: Grid, p: nat): (r: Grid)
    requires g.Valid() && p < |g.rounds| && g.rounds[p] == 0
    ensures r.Valid() && r.rounds == g.rounds && r.drivers == g.drivers
    ensures forall c :: 0 <= c < |g.cols| ==> r.cols[c] == g.cols[c][p := Some(0.0)]
  {
    Grid(g.rounds, g.drivers, seq(|g.cols|, c requires 0 <= c < |g.cols| => g.cols[c][p := Some(0.0)]))
  }

  /** `loc[0] = [0, ...]` followed by `sort_index` when round 0 is new: a
      zero row at position `p`. */
  function InsertZero(g: Grid, p: nat): (r: Grid)
    requires g.Valid() && p <= |g.rounds|
    ensures r.Valid() && r.rounds == g.rounds[..p] + [0] + g.rounds[p..] && r.drivers == g.drivers
    ensures forall c :: 0 <= c < |g.cols| ==> r.cols[c] == g.cols[c][..p] + [Some(0.0)] + g.cols[c][p..]
  {
    Grid(g.rounds[..p] + [0] + g.rounds[p..], g.drivers,
      seq(|g.cols|, c requires 0 <= c < |g.cols| => g.cols[c][..p] + [Some(0.0)] + g.cols[c][p..]))
  }

  /** `_add_first_zero_row`: `loc[0] = [0, ...]` then `sort_index`. Round 0
      is overwritten when it is there and inserted at its sorted place
      otherwise; a frame with no columns cannot take a new row. */
  function AddZeroRow(g: Grid): (r: Result<Grid>)
    requires g.Valid() && Increasing(g.rounds, IntLess)
    ensures r.Err? <==> g.drivers == []
    ensures r.Err? ==> r.error == NoColumns
    ensures r.Ok? ==> r.value.Valid() && r.value.drivers == g.drivers
  {
    if g.drivers == [] then Err(NoColumns)
    else
      var p := ZeroPosition(g.rounds);
      if p < |g.rounds| && g.rounds[p] == 0 then Ok(OverwriteZero(g, p))
      else Ok(InsertZero(g, p))
  }

  /** After the zero row: rounds still ascending, round 0 among them, its
      cells zero, every other row as it was. */
  ghost predicate ZeroRowAdded(g: Grid, r: Grid)
    requires g.Valid() && r.Valid() && r.drivers == g.drivers
  {
    && Increasing(r.rounds, IntLess) && Elems(r.rounds) == Elems(g.rounds) + {0}
    && (forall c, k :: 0 <= c < |g.drivers| && 0 <= k < |r.rounds| && r.rounds[k] == 0 ==>
      r.cols[c][k] == Some(0.0))
    && (forall c, k :: 0 <= c < |g.drivers| && 0 <= k < |r.rounds| && r.rounds[k] != 0 ==>
      r.rounds[k] in g.rounds && r.cols[c][k] == g.cols[c][IndexOf(g.rounds, r.rounds[k])])
  }

  lemma OverwriteZeroRows(g: Grid, p: nat)
    requires g.Valid() && Increasing(g.rounds, IntLess) && p < |g.rounds| && g.rounds[p] == 0
    ensures ZeroRowAdded(g, OverwriteZero(g, p))
  {
    var r := OverwriteZero(g, p);
    assert Elems(g.rounds) == Elems(g.rounds) + {0} by { assert g.rounds[p] in Elems(g.rounds); }
    forall k | 0 <= k < |r.rounds| && r.rounds[k] != 0 ensures IndexOf(g.rounds, r.rounds[k]) == k {
      IncreasingUnique(g.rounds, IntLess, IndexOf(g.rounds, r.rounds[k]), k);
    }
  }

  /** Round 0 put at position `p` of ascending rounds that are negative
      before `p` and positive from `p` on. */
  lemma InsertedRounds(rounds: seq<int>, p: nat)
    requires Increasing(rounds, IntLess) && p <= |rounds|
    requires forall k :: 0 <= k < p ==> rounds[k] < 0
    requires forall k :: p <= k < |rounds| ==> rounds[k] > 0
    ensures Increasing(rounds[..p] + [0] + rounds[p..], IntLess)
    ensures Elems(rounds[..p] + [0] + rounds[p..]) == Elems(rounds) + {0}
  {
    var r := rounds[..p] + [0] + rounds[p..];
    InsertedAt(rounds, p, 0);
    forall i, j | 0 <= i < j < |r| ensures IntLess(r[i], r[j]) {
      if j < p {
        assert IntLess(rounds[i], rounds[j]);
      } else if i > p {
        assert IntLess(rounds[i - 1], rounds[j - 1]);
      }
    }
  }

  /** Where the elements of `s[..p] + [x] + s[p..]` come from. */
  lemma InsertedAt<T>(s: seq<T>, p: nat, x: T)
    requires p <= |s|
    ensures var r := s[..p] + [x] + s[p..];
      && |r| == |s| + 1 && r[p] == x
      && (forall k :: 0 <= k < p ==> r[k] == s[k])
      && (forall k :: p < k < |r| ==> r[k] == s[k - 1])
      && Elems(r) == Elems(s) + {x}
  {
    var r := s[..p] + [x] + s[p..];
    assert s == s[..p] + s[p..];
    forall y | y in Elems(s) ensures y in Elems(r) {
      var j :| 0 <= j < |s| && s[j] == y;
      if j < p { assert r[j] == y; } else { assert r[j + 1] == y; }
    }
  }

  lemma InsertZeroRows(g: Grid, p: nat)
    requires g.Valid() && Increasing(g.rounds, IntLess) && p <= |g.rounds|
    requires forall k :: 0 <= k < p ==> g.rounds[k] < 0
    requires forall k :: p <= k < |g.rounds| ==> g.rounds[k] > 0
    ensures ZeroRowAdded(g, InsertZero(g, p))
  {
    var r := InsertZero(g, p);
    InsertedRounds(g.rounds, p);
    forall k | 0 <= k < |r.rounds| && r.rounds[k] != 0 {
      InsertedRoundIndex(g.rounds, p, k);
    }
  }

  /** A round of `rounds[..p] + [0] + rounds[p..]` other than the inserted
      one is found in `rounds` one place earlier when it comes after `p`. */
  lemma InsertedRoundIndex(rounds: seq<int>, p: nat, k: nat)
    requires Increasing(rounds, IntLess) && p <= |rounds| && k <= |rounds|
    requires (rounds[..p] + [0] + rounds[p..])[k] != 0
    ensures var j := if k < p then k else k - 1;
      && 0 <= j < |rounds| && k != p
      && (rounds[..p] + [0] + rounds[p..])[k] == rounds[j]
      && IndexOf(rounds, rounds[j]) == j
  {
    var j := if k < p then k else k - 1;
    IncreasingUnique(rounds, IntLess, IndexOf(rounds, rounds[j]), j);
  }

  lemma AddZeroRowRows(g: Grid)
    requires g.Valid() && Increasing(g.rounds, IntLess) && g.drivers != []
    ensures ZeroRowAdded(g, AddZeroRow(g).value)
  {
    var p := ZeroPosition(g.rounds);
    if p < |g.rounds| && g.rounds[p] == 0 {
      OverwriteZeroRows(g, p);
    } else {
      forall k | p <= k < |g.rounds| ensures g.rounds[k] > 0 {
        assert k == p || IntLess(g.rounds[p], g.rounds[k]);
      }
      InsertZeroRows(g, p);
    }
  }

  /** Round 0 goes first when every round is positive. */
  lemma AddZeroRowFirst(g: Grid)
    requires g.Valid() && Increasing(g.rounds, IntLess) && g.drivers != []
    requires forall k :: 0 <= k < |g.rounds| ==> g.rounds[k] > 0
    ensures AddZeroRow(g).value.rounds == [0] + g.rounds
    ensures forall c :: 0 <= c < |g.cols| ==> AddZeroRow(g).value.cols[c] == [Some(0.0)] + g.cols[c]
  {
    assert ZeroPosition(g.rounds) == 0;
    assert g.rounds[..0] + [0] + g.rounds[0..] == [0] + g.rounds;
    forall c | 0 <= c < |g.cols| ensures g.cols[c][..0] + [Some(0.0)] + g.cols[c][0..] == [Some(0.0)] + g.cols[c] {
    }
  }

  // ---------------------------------------------------------------------
  // Step 6: running sum, then forward fill

  /** A cell's contribution to a sum that skips NA. */
  function Val(x: Option<real>): real
  {
    if x.Some? then x.value else 0.0
  }

  /** The sum of the present cells of a column. */
  function PresentSum(s: seq<Option<real>>): real
  {
    if s == [] then 0.0 else Val(s[0]) + PresentSum(s[1..])
  }

  predicate AllMissing(s: seq<Option<real>>)
  {
    forall i :: 0 <= i < |s| ==> s[i].None?
  }

  lemma {:induction false} PresentSumAppend(s: seq<Option<real>>, x: Option<real>)
    ensures PresentSum(s + [x]) == PresentSum(s) + Val(x)
  {
    if s != [] {
      assert (s + [x])[1..] == s[1..] + [x];
      PresentSumAppend(s[1..], x);
    }
  }

  /** pandas `cumsum()` on one column, carrying the total so far in `acc`:
      an NA cell stays NA, any other cell becomes the total of the present
      cells up to and including it. */
  function CumSumFrom(col: seq<Option<real>>, acc: real): (r: seq<Option<real>>)
    ensures |r| == |col|
    ensures forall i :: 0 <= i < |col| ==>
      r[i] == (if col[i].None? then None else Some(acc + PresentSum(col[..i + 1])))
  {
    if col == [] then []
    else
      var rest := CumSumFrom(col[1..], acc + Val(col[0]));
      PresentSumTails(col);
      [if col[0].None? then None else Some(acc + Val(col[0]))] + rest
  }

  /** A prefix sum is the first value plus the prefix sum of the tail. */
  lemma PresentSumTails(col: seq<Option<real>>)
    requires col != []
    ensures forall i :: 0 < i < |col| ==> PresentSum(col[..i + 1]) == Val(col[0]) + PresentSum(col[1..][..i])
  {
    forall i | 0 < i < |col| ensures PresentSum(col[..i + 1]) == Val(col[0]) + PresentSum(col[1..][..i]) {
      assert col[..i + 1][1..] == col[1..][..i];
    }
  }

  /** pandas `fillna(method="ffill")` on one column: a present cell stays, an
      NA cell takes the value above it (`last` above the first cell). */
  function FFillFrom(col: seq<Option<real>>, last: Option<real>): (r: seq<Option<real>>)
    ensures |r| == |col|
    ensures forall i :: 0 <= i < |col| && col[i].Some? ==> r[i] == col[i]
    ensures forall i :: 0 < i < |col| && col[i].None? ==> r[i] == r[i - 1]
    ensures |col| > 0 && col[0].None? ==> r[0] == last
  {
    if col == [] then []
    else
      var v := if col[0].Some? then col[0] else last;
      [v] + FFillFrom(col[1..], v)
  }

  function CumFill(col: seq<Option<real>>): seq<Option<real>>
  {
    FFillFrom(CumSumFrom(col, 0.0), None)
  }

  /** Each cell after the sum and fill is the total of the present cells up
      to its row; it stays NA only while every cell so far is NA. */
  lemma {:induction false} CumFillCell(col: seq<Option<real>>, i: nat)
    requires i < |col|
    ensures CumFill(col)[i] == if AllMissing(col[..i + 1]) then None else Some(PresentSum(col[..i + 1]))
  {
    var s := CumSumFrom(col, 0.0);
    assert col[..i + 1] == col[..i] + [col[i]];
    PresentSumAppend(col[..i], col[i]);
    if col[i].None? && i > 0 {
      CumFillCell(col, i - 1);
      assert AllMissing(col[..i + 1]) == AllMissing(col[..i]) by {
        assert forall j :: 0 <= j < i ==> col[..i + 1][j] == col[..i][j];
      }
    }
  }

  /** `_cumulative_sum_points_for_each_driver`: `cumsum().fillna(method="ffill")`,
      column by column. */
  function CumulativeSum(g: Grid): (r: Grid)
    requires g.Valid()
    ensures r.Valid() && r.rounds == g.rounds && r.drivers == g.drivers
    ensures forall c, k :: 0 <= c < |g.cols| && 0 <= k < |g.rounds| ==>
      r.cols[c][k] == if AllMissing(g.cols[c][..k + 1]) then None else Some(PresentSum(g.cols[c][..k + 1]))
  {
    var r := Grid(g.rounds, g.drivers, seq(|g.cols|, c requires 0 <= c < |g.cols| => CumFill(g.cols[c])));
    assert forall c, k :: 0 <= c < |g.cols| && 0 <= k < |g.rounds| ==>
      r.cols[c][k] == if AllMissing(g.cols[c][..k + 1]) then None else Some(PresentSum(g.cols[c][..k + 1])) by {
      forall c, k | 0 <= c < |g.cols| && 0 <= k < |g.rounds|
        ensures r.cols[c][k] == if AllMissing(g.cols[c][..k + 1]) then None else Some(PresentSum(g.cols[c][..k + 1]))
      {
        CumFillCell(g.cols[c], k);
      }
    }
    r
  }

  /** A round the driver has no points for repeats the row above. */
  lemma SkippedRoundRepeats(g: Grid, c: nat, k: nat)
    requires g.Valid() && c < |g.cols| && 0 < k < |g.rounds| && g.cols[c][k] == None
    ensures CumulativeSum(g).cols[c][k] == CumulativeSum(g).cols[c][k - 1]
  {
    var s := CumSumFrom(g.cols[c], 0.0);
    assert s[k] == None;
  }

  // ---------------------------------------------------------------------
  // Step 7: the driver filter

  /** `_filter_drivers`: the first name that is not a column raises;
      otherwise exactly the named columns, in the order asked for. */
  function FilterDrivers(g: Grid, wanted: seq<string>): (r: Result<Grid>)
    requires g.Valid()
    ensures r.Err? <==> exists n :: n in wanted && n !in g.drivers
    ensures r.Err? ==> r.error == DriverNotFound(wanted[Frames.FirstMissing(wanted, g.drivers)])
    ensures r.Ok? ==> r.value.Valid() && r.value.rounds == g.rounds && r.value.drivers == wanted
    ensures r.Ok? ==> forall c :: 0 <= c < |wanted| ==>
      exists j :: 0 <= j < |g.drivers| && g.drivers[j] == wanted[c] && r.value.cols[c] == g.cols[j]
  {
    var m := Frames.FirstMissing(wanted, g.drivers);
    if m < |wanted| then Err(DriverNotFound(wanted[m]))
    else
      assert forall n :: n in wanted ==> n in g.drivers;
      Ok(Grid(g.rounds, wanted, seq(|wanted|, c requires 0 <= c < |wanted| => g.cols[Frames.Find(g.drivers, wanted[c])])))
  }

  // ---------------------------------------------------------------------
  // The whole of get_data

  /** The results that reach the pivot: named, and joined with a round of
      the season. */
  function SeasonRows(results: seq<ResultRow>, names: map<int, string>, races: seq<RaceRow>, year: int): seq<RoundResult>
  {
    AttachRound(AttachFullnames(results, names), SeasonRaces(races, year))
  }

  /** `get_data(season_year, *driver_names)` on a fresh instance. */
  function SeasonPerformance(results: seq<ResultRow>, names: map<int, string>, races: seq<RaceRow>,
                             year: int, wanted: seq<string>): (r: Result<Grid>)
    ensures r.Ok? ==> r.value.Valid()
  {
    if SeasonRaces(races, year) == [] then Err(SeasonNotFound(year))
    else
      match Pivot(SeasonRows(results, names, races, year))
      case Err(e) => Err(e)
      case Ok(p) =>
        match AddZeroRow(p)
        case Err(e) => Err(e)
        case Ok(z) =>
          var s := CumulativeSum(z);
          if wanted == [] then Ok(s) else FilterDrivers(s, wanted)
  }

  /** A year with no race fails with "Season ... not found", and only then. */
  lemma SeasonNotFoundIffNoRace(results: seq<ResultRow>, names: map<int, string>, races: seq<RaceRow>,
                                year: int, wanted: seq<string>)
    ensures SeasonPerformance(results, names, races, year, wanted) == Err(SeasonNotFound(year)) <==>
      forall x :: x in races ==> x.year != Some(year)
  {
    var season := SeasonRaces(races, year);
    if season != [] {
      assert season[0] in season;
      var r := SeasonPerformance(results, names, races, year, wanted);
      assert r.Err? ==> r.error != SeasonNotFound(year) by {
        if r.Err? {
          assert r.error == DuplicateEntries || r.error == NoColumns || r.error.DriverNotFound?;
        }
      }
    }
  }

  /** Only results of a race of the chosen season reach the pivot, each with
      that race's round. */
  lemma OnlySeasonResultsSurvive(results: seq<ResultRow>, names: map<int, string>, races: seq<RaceRow>,
                                 year: int, y: RoundResult)
    ensures y in SeasonRows(results, names, races, year) <==>
      exists i, race :: 0 <= i < |results| && race in races && race.year == Some(year) && Known(results[i], names) &&
        results[i].raceId == Some(race.raceId) &&
        y == RoundResult(results[i].points, names[results[i].driverId.value], race.round)
  {
    if y in SeasonRows(results, names, races, year) {
      SeasonRowFromResult(results, names, races, year, y);
    }
    if exists i, race :: 0 <= i < |results| && race in races && race.year == Some(year) && Known(results[i], names) &&
        results[i].raceId == Some(race.raceId) &&
        y == RoundResult(results[i].points, names[results[i].driverId.value], race.round)
    {
      var i, race :| 0 <= i < |results| && race in races && race.year == Some(year) && Known(results[i], names) &&
        results[i].raceId == Some(race.raceId) &&
        y == RoundResult(results[i].points, names[results[i].driverId.value], race.round);
      ResultInSeasonRows(results, names, races, year, i, race);
    }
  }

  /** Every row of the season comes from a named result of one of its races. */
  lemma SeasonRowFromResult(results: seq<ResultRow>, names: map<int, string>, races: seq<RaceRow>,
                            year: int, y: RoundResult)
    requires y in SeasonRows(results, names, races, year)
    ensures exists i, race ::
      0 <= i < |results| && race in races && race.year == Some(year) && Known(results[i], names) &&
      results[i].raceId == Some(race.raceId) &&
      y == RoundResult(results[i].points, names[results[i].driverId.value], race.round)
  {
    var named := AttachFullnames(results, names);
    var season := SeasonRaces(races, year);
    var a, j :| 0 <= a < |named| && 0 <= j < |season| && SameRace(named[a], season[j]) &&
      y == WithRound(named[a], season[j]);
    assert named[a] in named;
    var i :| 0 <= i < |results| && Known(results[i], names) && named[a] == Named(results[i], names);
    assert season[j] in season;
  }

  /** A named result of one of the season's races is a row of the season. */
  lemma ResultInSeasonRows(results: seq<ResultRow>, names: map<int, string>, races: seq<RaceRow>,
                           year: int, i: nat, race: RaceRow)
    requires i < |results| && race in races && race.year == Some(year) && Known(results[i], names)
    requires results[i].raceId == Some(race.raceId)
    ensures RoundResult(results[i].points, names[results[i].driverId.value], race.round)
      in SeasonRows(results, names, races, year)
  {
    var named := AttachFullnames(results, names);
    var season := SeasonRaces(races, year);
    assert Named(results[i], names) in named;
    var a :| 0 <= a < |named| && named[a] == Named(results[i], names);
    assert race in season;
    var j :| 0 <= j < |season| && season[j] == race;
  }

  // ---------------------------------------------------------------------
  // Cells are running totals

  /** The points driver `d` scored in round `x`. */
  function SumAt(rows: seq<RoundResult>, d: string, x: int): real
  {
    if rows == [] then 0.0
    else (if rows[0].fullname == d && rows[0].round == x then Val(rows[0].points) else 0.0) + SumAt(rows[1..], d, x)
  }

  /** The points driver `d` scored in the rounds up to and including `x`. */
  function SumUpTo(rows: seq<RoundResult>, d: string, x: int): real
  {
    if rows == [] then 0.0
    else (if rows[0].fullname == d && rows[0].round <= x then Val(rows[0].points) else 0.0) + SumUpTo(rows[1..], d, x)
  }

  /** The points driver `d` scored in the whole season. */
  function SeasonTotal(rows: seq<RoundResult>, d: string): real
  {
    if rows == [] then 0.0
    else (if rows[0].fullname == d then Val(rows[0].points) else 0.0) + SeasonTotal(rows[1..], d)
  }

  lemma {:induction false} SumAtIsCell(rows: seq<RoundResult>, d: string, x: int)
    requires DistinctCells(rows)
    ensures SumAt(rows, d, x) == Val(PointsAt(rows, x, d))
  {
    if rows != [] {
      SumAtIsCell(rows[1..], d, x);
      if rows[0].fullname == d && rows[0].round == x {
        assert forall i :: 0 <= i < |rows[1..]| ==> rows[1..][i] == rows[i + 1];
        SumAtNone(rows[1..], d, x);
      }
    }
  }

  lemma {:induction false} SumAtNone(rows: seq<RoundResult>, d: string, x: int)
    requires forall i :: 0 <= i < |rows| ==> rows[i].round != x || rows[i].fullname != d
    ensures SumAt(rows, d, x) == 0.0
  {
    if rows != [] {
      SumAtNone(rows[1..], d, x);
    }
  }

  /** With no round of `d` strictly between `a` and `b`, the total up to `b`
      is the total up to `a` plus round `b`. */
  lemma {:induction false} SumUpToStep(rows: seq<RoundResult>, d: string, a: int, b: int)
    requires a < b
    requires forall i :: 0 <= i < |rows| && rows[i].fullname == d ==> rows[i].round <= a || rows[i].round >= b
    ensures SumUpTo(rows, d, b) == SumUpTo(rows, d, a) + SumAt(rows, d, b)
  {
    if rows != [] {
      SumUpToStep(rows[1..], d, a, b);
    }
  }

  /** With no round of `d` below `b`, the total up to `b` is round `b`. */
  lemma {:induction false} SumUpToFirst(rows: seq<RoundResult>, d: string, b: int)
    requires forall i :: 0 <= i < |rows| && rows[i].fullname == d ==> rows[i].round >= b
    ensures SumUpTo(rows, d, b) == SumAt(rows, d, b)
  {
    if rows != [] {
      SumUpToFirst(rows[1..], d, b);
    }
  }

  /** With no round of `d` up to `x`, the total up to `x` is zero. */
  lemma {:induction false} SumUpToNone(rows: seq<RoundResult>, d: string, x: int)
    requires forall i :: 0 <= i < |rows| ==> rows[i].round > x
    ensures SumUpTo(rows, d, x) == 0.0
  {
    if rows != [] {
      SumUpToNone(rows[1..], d, x);
    }
  }

  /** Summing a pivoted column down to row `j - 1` adds up the driver's
      results of every round up to that row's round. */
  lemma {:induction false} PrefixSumByRound(rows: seq<RoundResult>, d: string, rounds: seq<int>,
                                            col: seq<Option<real>>, j: nat)
    requires DistinctCells(rows) && Increasing(rounds, IntLess)
    requires forall i :: 0 <= i < |rows| ==> rows[i].round in rounds
    requires |col| == |rounds| && forall k :: 0 <= k < |rounds| ==> col[k] == PointsAt(rows, rounds[k], d)
    requires 1 <= j <= |rounds|
    ensures PresentSum(col[..j]) == SumUpTo(rows, d, rounds[j - 1])
  {
    assert col[..j] == col[..j - 1] + [col[j - 1]];
    PresentSumAppend(col[..j - 1], col[j - 1]);
    SumAtIsCell(rows, d, rounds[j - 1]);
    if j == 1 {
      forall i | 0 <= i < |rows| && rows[i].fullname == d ensures rows[i].round >= rounds[0] {
        var m :| 0 <= m < |rounds| && rounds[m] == rows[i].round;
        assert m == 0 || IntLess(rounds[0], rounds[m]);
      }
      SumUpToFirst(rows, d, rounds[0]);
    } else {
      PrefixSumByRound(rows, d, rounds, col, j - 1);
      assert IntLess(rounds[j - 2], rounds[j - 1]);
      forall i | 0 <= i < |rows| && rows[i].fullname == d
        ensures rows[i].round <= rounds[j - 2] || rows[i].round >= rounds[j - 1]
      {
        var m :| 0 <= m < |rounds| && rounds[m] == rows[i].round;
        assert m <= j - 2 || m >= j - 1;
        assert m < j - 2 ==> IntLess(rounds[m], rounds[j - 2]);
        assert m > j - 1 ==> IntLess(rounds[j - 1], rounds[m]);
      }
      SumUpToStep(rows, d, rounds[j - 2], rounds[j - 1]);
    }
  }

  /** The table `g` holds, for the results `rows`: round 0 first, rounds
      ascending and covering every result, and each cell (round, driver) the
      driver's total over the rounds up to it, none missing. */
  ghost predicate RunningTotals(g: Grid, rows: seq<RoundResult>)
  {
    && g.Valid() && Increasing(g.rounds, IntLess)
    && |g.rounds| > 0 && g.rounds[0] == 0
    && (forall i :: 0 <= i < |rows| ==> rows[i].round in g.rounds)
    && forall c, k :: 0 <= c < |g.drivers| && 0 <= k < |g.rounds| ==>
      g.cols[c][k] == Some(SumUpTo(rows, g.drivers[c], g.rounds[k]))
  }

  /** A column that starts with the zero row: the sum down to row `k` is
      the sum of the original column above row `k`, and is never NA. */
  lemma LeadingZeroPrefix(col: seq<Option<real>>, k: nat)
    requires k <= |col|
    ensures !AllMissing(([Some(0.0)] + col)[..k + 1])
    ensures PresentSum(([Some(0.0)] + col)[..k + 1]) == PresentSum(col[..k])
  {
    assert ([Some(0.0)] + col)[..k + 1] == [Some(0.0)] + col[..k];
    assert ([Some(0.0)] + col)[..k + 1][0] == Some(0.0);
  }

  /** The pivot's rounds are exactly the results' rounds. */
  lemma PivotRounds(rows: seq<RoundResult>)
    requires Pivot(rows).Ok?
    ensures forall i :: 0 <= i < |rows| ==> rows[i].round in Pivot(rows).value.rounds
    ensures forall k :: 0 <= k < |Pivot(rows).value.rounds| ==>
      exists i :: 0 <= i < |rows| && rows[i].round == Pivot(rows).value.rounds[k]
  {
    var p := Pivot(rows).value;
    forall i | 0 <= i < |rows| ensures rows[i].round in p.rounds {
      assert RoundLabels(rows)[i] in Elems(RoundLabels(rows));
    }
    forall k | 0 <= k < |p.rounds| ensures exists i :: 0 <= i < |rows| && rows[i].round == p.rounds[k] {
      assert p.rounds[k] in Elems(RoundLabels(rows));
    }
  }

  /** One cell of the summed table, in terms of the pivoted column `col` of
      driver `d` (before the zero row is put on top). */
  lemma SummedCell(rows: seq<RoundResult>, d: string, rounds: seq<int>, col: seq<Option<real>>, k: nat)
    requires DistinctCells(rows) && Increasing(rounds, IntLess)
    requires forall i :: 0 <= i < |rows| ==> rows[i].round > 0 && rows[i].round in rounds
    requires |col| == |rounds| && forall m :: 0 <= m < |rounds| ==> col[m] == PointsAt(rows, rounds[m], d)
    requires k <= |rounds|
    ensures PresentSum(([Some(0.0)] + col)[..k + 1]) == SumUpTo(rows, d, ([0] + rounds)[k])
  {
    LeadingZeroPrefix(col, k);
    if k == 0 {
      assert col[..0] == [];
      SumUpToNone(rows, d, 0);
    } else {
      assert ([0] + rounds)[k] == rounds[k - 1];
      PrefixSumByRound(rows, d, rounds, col, k);
    }
  }

  /** `p` is laid out as the pivot of `rows`: distinct (round, driver) pairs,
      ascending rounds covering every (positive) result round, and each cell
      the points of its round and driver. */
  ghost predicate PivotOf(p: Grid, rows: seq<RoundResult>)
  {
    && p.Valid() && Increasing(p.rounds, IntLess) && DistinctCells(rows)
    && (forall i :: 0 <= i < |rows| ==> rows[i].round > 0 && rows[i].round in p.rounds)
    && (forall c, m :: 0 <= c < |p.drivers| && 0 <= m < |p.rounds| ==>
      p.cols[c][m] == PointsAt(rows, p.rounds[m], p.drivers[c]))
  }

  /** `z` is `p` with a zero row on top. */
  ghost predicate ZeroOnTop(p: Grid, z: Grid)
  {
    && p.Valid() && z.Valid() && z.drivers == p.drivers && z.rounds == [0] + p.rounds
    && forall c :: 0 <= c < |p.cols| ==> z.cols[c] == [Some(0.0)] + p.cols[c]
  }

  /** Zero row on top, then sums: running totals, for any grid laid out as
      the pivot of `rows` with positive rounds. */
  lemma ZeroThenSumIsRunningTotals(rows: seq<RoundResult>, p: Grid)
    requires PivotOf(p, rows) && p.drivers != []
    requires forall k :: 0 <= k < |p.rounds| ==> p.rounds[k] > 0
    ensures RunningTotals(CumulativeSum(AddZeroRow(p).value), rows)
  {
    var z := AddZeroRow(p).value;
    AddZeroRowFirst(p);
    assert ZeroOnTop(p, z);
    PrependZero(p.rounds);
    ZeroSummedCells(rows, p, z);
  }

  /** Every cell of the summed grid `z`, which is `p` with a zero row on top. */
  lemma ZeroSummedCells(rows: seq<RoundResult>, p: Grid, z: Grid)
    requires PivotOf(p, rows) && ZeroOnTop(p, z)
    ensures forall c, k :: 0 <= c < |z.drivers| && 0 <= k < |z.rounds| ==>
      CumulativeSum(z).cols[c][k] == Some(SumUpTo(rows, z.drivers[c], z.rounds[k]))
  {
    forall c, k | 0 <= c < |z.drivers| && 0 <= k < |z.rounds| {
      ZeroSummedCell(rows, p, z, c, k);
    }
  }

  lemma ZeroSummedCell(rows: seq<RoundResult>, p: Grid, z: Grid, c: nat, k: nat)
    requires PivotOf(p, rows) && ZeroOnTop(p, z) && c < |z.drivers| && k < |z.rounds|
    ensures CumulativeSum(z).cols[c][k] == Some(SumUpTo(rows, z.drivers[c], z.rounds[k]))
  {
    var col := p.cols[c];
    assert forall m :: 0 <= m < |p.rounds| ==> col[m] == PointsAt(rows, p.rounds[m], z.drivers[c]);
    LeadingZeroPrefix(col, k);
    SummedCell(rows, z.drivers[c], p.rounds, col, k);
  }

  lemma PrependZero(rounds: seq<int>)
    requires Increasing(rounds, IntLess) && forall k :: 0 <= k < |rounds| ==> rounds[k] > 0
    ensures Increasing([0] + rounds, IntLess) && ([0] + rounds)[0] == 0
    ensures forall x :: x in rounds ==> x in [0] + rounds
  {
    var r := [0] + rounds;
    forall i, j | 0 <= i < j < |r| ensures IntLess(r[i], r[j]) {
      if i > 0 {
        assert IntLess(rounds[i - 1], rounds[j - 1]);
      }
    }
  }

  /** The table before the driver filter holds running totals, when every
      result's round is positive (as race rounds are). */
  lemma GridCellsAreRunningTotals(rows: seq<RoundResult>)
    requires forall i :: 0 <= i < |rows| ==> rows[i].round > 0
    requires Pivot(rows).Ok? && AddZeroRow(Pivot(rows).value).Ok?
    ensures RunningTotals(CumulativeSum(AddZeroRow(Pivot(rows).value).value), rows)
  {
    PivotIsPivotOf(rows);
    ZeroThenSumIsRunningTotals(rows, Pivot(rows).value);
  }

  /** The pivot of results with positive rounds is laid out as `PivotOf`
      says, and its rounds are positive. */
  lemma PivotIsPivotOf(rows: seq<RoundResult>)
    requires forall i :: 0 <= i < |rows| ==> rows[i].round > 0
    requires Pivot(rows).Ok?
    ensures PivotOf(Pivot(rows).value, rows)
    ensures forall k :: 0 <= k < |Pivot(rows).value.rounds| ==> Pivot(rows).value.rounds[k] > 0
  {
    PivotRounds(rows);
    PivotRoundsPositive(rows);
    PivotColumns(rows);
  }

  /** The pivot of results with positive rounds has positive rounds. */
  lemma PivotRoundsPositive(rows: seq<RoundResult>)
    requires forall i :: 0 <= i < |rows| ==> rows[i].round > 0
    requires Pivot(rows).Ok?
    ensures forall k :: 0 <= k < |Pivot(rows).value.rounds| ==> Pivot(rows).value.rounds[k] > 0
  {
    var p := Pivot(rows).value;
    PivotRounds(rows);
    forall k | 0 <= k < |p.rounds| ensures p.rounds[k] > 0 {
      var i :| 0 <= i < |rows| && rows[i].round == p.rounds[k];
    }
  }

  /** Every cell of the pivot is the points of its round and driver. */
  lemma PivotColumns(rows: seq<RoundResult>)
    requires Pivot(rows).Ok?
    ensures var p := Pivot(rows).value;
      forall c, m :: 0 <= c < |p.drivers| && 0 <= m < |p.rounds| ==> p.cols[c][m] == PointsAt(rows, p.rounds[m], p.drivers[c])
  {
    var p := Pivot(rows).value;
    forall c | 0 <= c < |p.drivers|
      ensures forall m :: 0 <= m < |p.rounds| ==> p.cols[c][m] == PointsAt(rows, p.rounds[m], p.drivers[c])
    {
      PivotColumn(rows, c);
    }
  }

  /** Picking columns by name keeps running totals. */
  lemma FilterKeepsRunningTotals(g: Grid, rows: seq<RoundResult>, wanted: seq<string>)
    requires RunningTotals(g, rows) && FilterDrivers(g, wanted).Ok?
    ensures RunningTotals(FilterDrivers(g, wanted).value, rows)
  {
    var f := FilterDrivers(g, wanted).value;
    forall c, k | 0 <= c < |f.drivers| && 0 <= k < |f.rounds|
      ensures f.cols[c][k] == Some(SumUpTo(rows, f.drivers[c], f.rounds[k]))
    {
      var j :| 0 <= j < |g.drivers| && g.drivers[j] == wanted[c] && f.cols[c] == g.cols[j];
    }
  }

  /** With no negative points a column never decreases down the rounds. */
  lemma {:induction false} SumUpToMonotone(rows: seq<RoundResult>, d: string, x: int, y: int)
    requires x <= y
    requires forall i :: 0 <= i < |rows| ==> Val(rows[i].points) >= 0.0
    ensures SumUpTo(rows, d, x) <= SumUpTo(rows, d, y)
  {
    if rows != [] {
      SumUpToMonotone(rows[1..], d, x, y);
    }
  }

  /** Up to the last round of the season the running total is the season total. */
  lemma {:induction false} SumUpToLast(rows: seq<RoundResult>, d: string, x: int)
    requires forall i :: 0 <= i < |rows| ==> rows[i].round <= x
    ensures SumUpTo(rows, d, x) == SeasonTotal(rows, d)
  {
    if rows != [] {
      SumUpToLast(rows[1..], d, x);
    }
  }

  /** The last row of a table of running totals holds the season totals. */
  lemma LastRowIsSeasonTotal(g: Grid, rows: seq<RoundResult>)
    requires RunningTotals(g, rows)
    ensures forall c :: 0 <= c < |g.drivers| ==> g.cols[c][|g.rounds| - 1] == Some(SeasonTotal(rows, g.drivers[c]))
  {
    var last := |g.rounds| - 1;
    forall i | 0 <= i < |rows| ensures rows[i].round <= g.rounds[last] {
      var m := IndexOf(g.rounds, rows[i].round);
      assert m == last || IntLess(g.rounds[m], g.rounds[last]);
    }
    forall c | 0 <= c < |g.drivers| ensures g.cols[c][last] == Some(SeasonTotal(rows, g.drivers[c])) {
      SumUpToLast(rows, g.drivers[c], g.rounds[last]);
    }
  }

  /** With no negative points the running totals never decrease down a column. */
  lemma RunningTotalsNonDecreasing(g: Grid, rows: seq<RoundResult>)
    requires RunningTotals(g, rows)
    requires forall i :: 0 <= i < |rows| ==> Val(rows[i].points) >= 0.0
    ensures forall c, k, l :: 0 <= c < |g.drivers| && 0 <= k <= l < |g.rounds| ==>
      g.cols[c][k].Some? && g.cols[c][l].Some? && g.cols[c][k].value <= g.cols[c][l].value
  {
    forall c, k, l | 0 <= c < |g.drivers| && 0 <= k <= l < |g.rounds|
      ensures g.cols[c][k].Some? && g.cols[c][l].Some? && g.cols[c][k].value <= g.cols[c][l].value
    {
      assert k == l || IntLess(g.rounds[k], g.rounds[l]);
      SumUpToMonotone(rows, g.drivers[c], g.rounds[k], g.rounds[l]);
    }
  }

  /** Every result that reaches the pivot has the round of a race of `races`. */
  lemma SeasonRowsRounds(results: seq<ResultRow>, names: map<int, string>, races: seq<RaceRow>, year: int)
    requires forall x :: x in races ==> x.round > 0
    ensures forall i :: 0 <= i < |SeasonRows(results, names, races, year)| ==>
      SeasonRows(results, names, races, year)[i].round > 0
  {
    var rows := SeasonRows(results, names, races, year);
    var named := AttachFullnames(results, names);
    var season := SeasonRaces(races, year);
    forall i | 0 <= i < |rows| ensures rows[i].round > 0 {
      assert rows[i] in rows;
      var a, j :| 0 <= a < |named| && 0 <= j < |season| && SameRace(named[a], season[j]) &&
        rows[i] == WithRound(named[a], season[j]);
      assert season[j] in season;
    }
  }

  /** The grid `get_data` returns holds running totals of the season's
      results, for the wanted drivers when some are named. */
  lemma SeasonPerformanceRunningTotals(results: seq<ResultRow>, names: map<int, string>, races: seq<RaceRow>,
                                       year: int, wanted: seq<string>)
    requires forall x :: x in races ==> x.round > 0
    requires SeasonPerformance(results, names, races, year, wanted).Ok?
    ensures RunningTotals(SeasonPerformance(results, names, races, year, wanted).value,
                          SeasonRows(results, names, races, year))
    ensures wanted != [] ==> SeasonPerformance(results, names, races, year, wanted).value.drivers == wanted
  {
    var rows := SeasonRows(results, names, races, year);
    SeasonRowsRounds(results, names, races, year);
    var s := CumulativeSum(AddZeroRow(Pivot(rows).value).value);
    GridCellsAreRunningTotals(rows);
    if wanted != [] {
      FilterKeepsRunningTotals(s, rows, wanted);
    }
  }

  /** The labels of the grid `get_data` returns: without driver names, one
      column per driver of the season, names ascending; in every case one row
      for round 0 and for each round of the season's results, ascending. */
  lemma SeasonPerformanceLabels(results: seq<ResultRow>, names: map<int, string>, races: seq<RaceRow>,
                                year: int, wanted: seq<string>)
    requires SeasonPerformance(results, names, races, year, wanted).Ok?
    ensures var g := SeasonPerformance(results, names, races, year, wanted).value;
      wanted == [] ==>
        (Increasing(g.drivers, StrLess) &&
         Elems(g.drivers) == Elems(DriverLabels(SeasonRows(results, names, races, year))))
    ensures var g := SeasonPerformance(results, names, races, year, wanted).value;
      Increasing(g.rounds, IntLess) && Elems(g.rounds) == {0} + Elems(RoundLabels(SeasonRows(results, names, races, year)))
  {
    var rows := SeasonRows(results, names, races, year);
    var p := Pivot(rows).value;
    var z := AddZeroRow(p).value;
    var s := CumulativeSum(z);
    AddZeroRowRows(p);
    assert s.rounds == z.rounds && s.drivers == p.drivers;
    if wanted != [] {
      assert SeasonPerformance(results, names, races, year, wanted) == FilterDrivers(s, wanted);
    }
  }

  /** The whole of `get_data`: the first row is round 0 at zero, every cell
      (round, driver) is the driver's points total over the season's rounds
      up to it (none missing), the last row holds each driver's season total,
      columns never decrease when no result has negative points, and with
      driver names the columns are exactly those names, and without them the
      columns are the season's drivers in ascending order. */
  lemma SeasonPerformanceCells(results: seq<ResultRow>, names: map<int, string>, races: seq<RaceRow>,
                               year: int, wanted: seq<string>)
    requires forall x :: x in races ==> x.round > 0
    requires SeasonPerformance(results, names, races, year, wanted).Ok?
    ensures RunningTotals(SeasonPerformance(results, names, races, year, wanted).value,
                          SeasonRows(results, names, races, year))
    ensures wanted != [] ==> SeasonPerformance(results, names, races, year, wanted).value.drivers == wanted
    ensures var g := SeasonPerformance(results, names, races, year, wanted).value;
      wanted == [] ==>
        (Increasing(g.drivers, StrLess) &&
         Elems(g.drivers) == Elems(DriverLabels(SeasonRows(results, names, races, year))))
    ensures var g := SeasonPerformance(results, names, races, year, wanted).value;
      Increasing(g.rounds, IntLess) && Elems(g.rounds) == {0} + Elems(RoundLabels(SeasonRows(results, names, races, year)))
    ensures var g := SeasonPerformance(results, names, races, year, wanted).value;
      g.rounds[0] == 0 && forall c :: 0 <= c < |g.drivers| ==> g.cols[c][0] == Some(0.0)
    ensures var g := SeasonPerformance(results, names, races, year, wanted).value;
      forall c :: 0 <= c < |g.drivers| ==>
        g.cols[c][|g.rounds| - 1] == Some(SeasonTotal(SeasonRows(results, names, races, year), g.drivers[c]))
    ensures var g := SeasonPerformance(results, names, races, year, wanted).value;
      var rows := SeasonRows(results, names, races, year);
      (forall i :: 0 <= i < |rows| ==> Val(rows[i].points) >= 0.0) ==>
        forall c, k, l :: 0 <= c < |g.drivers| && 0 <= k <= l < |g.rounds| ==>
          g.cols[c][k].Some? && g.cols[c][l].Some? && g.cols[c][k].value <= g.cols[c][l].value
  {
    var rows := SeasonRows(results, names, races, year);
    var g := SeasonPerformance(results, names, races, year, wanted).value;
    SeasonPerformanceRunningTotals(results, names, races, year, wanted);
    SeasonPerformanceLabels(results, names, races, year, wanted);
    SeasonRowsRounds(results, names, races, year);
    forall c | 0 <= c < |g.drivers| {
      SumUpToNone(rows, g.drivers[c], 0);
    }
    LastRowIsSeasonTotal(g, rows);
    if forall i :: 0 <= i < |rows| ==> Val(rows[i].points) >= 0.0 {
      RunningTotalsNonDecreasing(g, rows);
    }
  }

  // ---------------------------------------------------------------------
  // The object

  /** What `_results` holds between the steps of `get_data`. */
  datatype Stage =
    | Scores(scores: seq<ResultRow>)
    | WithNames(named: seq<NamedResult>)
    | WithRounds(rows: seq<RoundResult>)
    | Pivoted(grid: Grid)

  class DriversSeasonPerf {
    /** The driverId -> full name table (`_drivers`). */
    const drivers: map<int, string>
    var races: seq<RaceRow>
    var results: Stage

    constructor (drivers: map<int, string>, races: seq<RaceRow>, results: seq<ResultRow>)
      ensures this.drivers == drivers && this.races == races && this.results == Scores(results)
    {
      this.drivers := drivers;
      this.races := races;
      this.results := Scores(results);
    }

    method AttachDriverFullnameToResults()
      requires results.Scores?
      modifies this
      ensures results == WithNames(AttachFullnames(old(results.scores), drivers)) && races == old(races)
    {
      results := WithNames(AttachFullnames(results.scores, drivers));
    }

    /** Keeps the season's races, then raises when there are none. */
    method SetRacesForSelectedSeason(year: int) returns (err: Option<Error>)
      modifies this
      ensures races == SeasonRaces(old(races), year) && results == old(results)
      ensures err.Some? <==> races == []
      ensures err.Some? ==> err.value == SeasonNotFound(year)
    {
      races := SeasonRaces(races, year);
      err := if races == [] then Some(SeasonNotFound(year)) else None;
    }

    method AttachRaceRoundToResults()
      requires results.WithNames?
      modifies this
      ensures results == WithRounds(AttachRound(old(results.named), races)) && races == old(races)
    {
      results := WithRounds(AttachRound(results.named, races));
    }

    /** The pivot raises on a repeated (round, driver) and leaves `_results` as it was. */
    method TransformDriversToColumns() returns (err: Option<Error>)
      requires results.WithRounds?
      modifies this
      ensures races == old(races)
      ensures Pivot(old(results.rows)).Err? ==> err == Some(Pivot(old(results.rows)).error) && results == old(results)
      ensures Pivot(old(results.rows)).Ok? ==> err == None && results == Pivoted(Pivot(old(results.rows)).value)
    {
      var p := Pivot(results.rows);
      if p.Err? {
        return Some(p.error);
      }
      results := Pivoted(p.value);
      err := None;
    }

    method AddFirstZeroRow() returns (err: Option<Error>)
      requires results.Pivoted? && results.grid.Valid() && Increasing(results.grid.rounds, IntLess)
      modifies this
      ensures races == old(races)
      ensures AddZeroRow(old(results.grid)).Err? ==> err == Some(NoColumns) && results == old(results)
      ensures AddZeroRow(old(results.grid)).Ok? ==> err == None && results == Pivoted(AddZeroRow(old(results.grid)).value)
    {
      var z := AddZeroRow(results.grid);
      if z.Err? {
        return Some(z.error);
      }
      results := Pivoted(z.value);
      err := None;
    }

    method CumulativeSumPointsForEachDriver()
      requires results.Pivoted? && results.grid.Valid()
      modifies this
      ensures races == old(races) && results == Pivoted(CumulativeSum(old(results.grid)))
    {
      results := Pivoted(CumulativeSum(results.grid));
    }

    /** Checks the names one by one, then projects. */
    method FilterDriverColumns(wanted: seq<string>) returns (err: Option<Error>)
      requires results.Pivoted? && results.grid.Valid()
      modifies this
      ensures races == old(races)
      ensures FilterDrivers(old(results.grid), wanted).Err? ==>
        err == Some(FilterDrivers(old(results.grid), wanted).error) && results == old(results)
      ensures FilterDrivers(old(results.grid), wanted).Ok? ==>
        err == None && results == Pivoted(FilterDrivers(old(results.grid), wanted).value)
    {
      var g := results.grid;
      var i := 0;
      while i < |wanted|
        invariant 0 <= i <= |wanted|
        invariant forall j :: 0 <= j < i ==> wanted[j] in g.drivers
      {
        if wanted[i] !in g.drivers {
          assert Frames.FirstMissing(wanted, g.drivers) == i by {
            var m := Frames.FirstMissing(wanted, g.drivers);
            assert !(m < i) && !(i < m);
          }
          return Some(DriverNotFound(wanted[i]));
        }
        i := i + 1;
      }
      results := Pivoted(FilterDrivers(g, wanted).value);
      err := None;
    }

    /** `get_data(season_year, *driver_names)`: the steps in order, stopping
        at the first that raises. */
    method GetData(year: int, wanted: seq<string>) returns (r: Result<Grid>)
      requires results.Scores?
      modifies this
      ensures r == SeasonPerformance(old(results.scores), drivers, old(races), year, wanted)
    {
      ghost var scores, allRaces := results.scores, races;
      AttachDriverFullnameToResults();
      var err := SetRacesForSelectedSeason(year);
      if err.Some? {
        return Err(err.value);
      }
      AttachRaceRoundToResults();
      err := TransformDriversToColumns();
      if err.Some? {
        return Err(err.value);
      }
      err := AddFirstZeroRow();
      if err.Some? {
        return Err(err.value);
      }
      CumulativeSumPointsForEachDriver();
      if wanted != [] {
        err := FilterDriverColumns(wanted);
        if err.Some? {
          return Err(err.value);
        }
      }
      r := Ok(results.grid);
    }
  }
}
