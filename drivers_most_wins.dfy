/** `DriversMostWins`: the same ranking as `MostSuccessful`, computed by a
    sequence of steps that each overwrite the object's frame. */
module MostWins {
  import opened Base
  import opened Ranking
  import MostSuccessful

  /** What the object's frame holds between steps: the (driverId, position)
      rows, or one count row per driver under a count column label. */
  datatype WinsData = Unset | Positions(rows: seq<PosRow>) | Counted(column: string, counts: seq<DriverWins>)

  /** The label of the position column, and the one `get_data` renames it to. */
  const PositionLabel := "position"
  const WinsLabel := "wins"

  class DriversMostWins {
    /** How many rows `get_data` returns. */
    const count: int
    var data: WinsData

    constructor (count: int)
      ensures this.count == count && data == Unset
    {
      this.count := count;
      data := Unset;
    }

    /** `_get_driver_position_results`: the results' driverId and position. */
    method GetDriverPositionResults(results: seq<PosRow>)
      modifies this
      ensures data == Positions(results)
    {
      data := Positions(results);
    }

    /** `_get_first_pos_results`: only rows whose position equals 1 remain. */
    method GetFirstPosResults()
      requires data.Positions?
      modifies this
      ensures data == Positions(FirstPlaces(old(data.rows)))
    {
      data := Positions(FirstPlaces(data.rows));
    }

    /** `_get_first_pos_counts_for_each_driver`: one row per driver, the count
        column still labelled `position`. */
    method GetFirstPosCountsForEachDriver()
      requires data.Positions?
      modifies this
      ensures data == Counted(PositionLabel, CountPerDriver(old(data.rows)))
    {
      data := Counted(PositionLabel, CountPerDriver(data.rows));
    }

    /** `_rename_position_col_to_wins`, in place: a `position` label becomes
        `wins`; any other label is left alone, as `rename` ignores labels it
        does not find. */
    method RenamePositionColToWins()
      requires data.Counted?
      modifies this
      ensures data.Counted? && data.counts == old(data.counts)
      ensures data.column == if old(data.column) == PositionLabel then WinsLabel else old(data.column)
    {
      if data.column == PositionLabel {
        data := data.(column := WinsLabel);
      }
    }

    /** `_sort_by_wins`: rows reordered by wins, most first; KeyError, and no
        change, when there is no `wins` column. */
    method SortByWins() returns (err: Option<Error>)
      requires data.Counted?
      modifies this
      ensures old(data.column) == WinsLabel ==> err == None && data == Counted(WinsLabel, Ranking.SortByWins(old(data.counts)))
      ensures old(data.column) != WinsLabel ==> err == Some(KeyError(WinsLabel)) && data == old(data)
    {
      if data.column != WinsLabel {
        return Some(KeyError(WinsLabel));
      }
      data := Counted(WinsLabel, Ranking.SortByWins(data.counts));
      err := None;
    }

    /** `get_data()`: the steps in order, then the first `count` rows. Its
        result is exactly `MostSuccessful.get(count)` on the same rows, and
        the frame left behind is the sorted count of every winner. */
    method GetData(results: seq<PosRow>) returns (r: seq<DriverWins>)
      modifies this
      ensures r == MostSuccessful.Get(results, count)
      ensures data == Counted(WinsLabel, Ranking.SortByWins(MostSuccessful.WinsCountsForEachDriver(results)))
    {
      GetDriverPositionResults(results);
      GetFirstPosResults();
      GetFirstPosCountsForEachDriver();
      RenamePositionColToWins();
      var err := SortByWins();
      assert err == None;
      r := Head(data.counts, count);
    }
  }
}
