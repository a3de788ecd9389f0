/** The steps the most-wins ranking is made of, shared by `MostSuccessful`
    and `DriversMostWins`: keep the first places, count them per driver,
    order by wins, take the first rows; and the driver-name lookup both
    classes carry. */
module Ranking {
  import opened Base
  import opened Ordering
  import opened Frames
  import Index
  import F1Data

  /** A row of `Results().get_selected_columns(driverId, position)`. The
      position cell keeps whatever value the loader produced. */
  datatype PosRow = PosRow(driverId: Option<int>, position: Cell)

  /** A row of the counted frame: the group key and its count. */
  datatype DriverWins = DriverWins(driverId: int, wins: nat)

  // ---------------------------------------------------------------------
  // First places

  /** `position == 1`: true for the number 1 (integer or float, and for
      True, which Python compares equal to 1); false for NA and for any
      text, "1" included. */
  predicate IsWin(position: Cell)
  {
    position == Some(Int(1)) || position == Some(Num(1.0)) || position == Some(Flag(true))
  }

  /** `df[df["position"] == 1]`: the rows with a first place, in order. */
  function FirstPlaces(rows: seq<PosRow>): (r: seq<PosRow>)
    ensures forall x :: multiset(r)[x] == if IsWin(x.position) then multiset(rows)[x] else 0
  {
    if rows == [] then []
    else
      assert rows == [rows[0]] + rows[1..];
      if IsWin(rows[0].position) then [rows[0]] + FirstPlaces(rows[1..]) else FirstPlaces(rows[1..])
  }

  /** The mask keeps the input order: two runs of rows one after the other
      give their first places one after the other. */
  lemma {:induction false} FirstPlacesAppend(a: seq<PosRow>, b: seq<PosRow>)
    ensures FirstPlaces(a + b) == FirstPlaces(a) + FirstPlaces(b)
  {
    if a == [] {
      assert a + b == b;
    } else {
      assert (a + b)[0] == a[0] && (a + b)[1..] == a[1..] + b;
      FirstPlacesAppend(a[1..], b);
    }
  }

  // ---------------------------------------------------------------------
  // Counting per driver

  /** The number of rows of driver `id` whose position is not NA: what
      `count()` puts in the group of `id`. */
  function NonNullCount(rows: seq<PosRow>, id: int): nat
  {
    if rows == [] then 0
    else (if rows[0].driverId == Some(id) && rows[0].position.Some? then 1 else 0) + NonNullCount(rows[1..], id)
  }

  /** The number of first places of driver `id`. */
  function WinsOf(rows: seq<PosRow>, id: int): nat
  {
    if rows == [] then 0
    else (if rows[0].driverId == Some(id) && IsWin(rows[0].position) then 1 else 0) + WinsOf(rows[1..], id)
  }

  /** The driverIds that are present, row by row (NA keys left out). */
  function PresentIds(rows: seq<PosRow>): (ids: seq<int>)
    ensures forall id :: id in ids <==> exists i :: 0 <= i < |rows| && rows[i].driverId == Some(id)
  {
    if rows == [] then []
    else
      assert forall i :: 0 < i < |rows| ==> rows[i] == rows[1..][i - 1];
      (if rows[0].driverId.Some? then [rows[0].driverId.value] else []) + PresentIds(rows[1..])
  }

  /** `groupby("driverId").count()`: one row per driverId that occurs (NA
      keys dropped), ids ascending, each with the number of non-NA
      positions of that driver. */
  function CountPerDriver(rows: seq<PosRow>): (r: seq<DriverWins>)
    ensures forall k, l :: 0 <= k < l < |r| ==> r[k].driverId < r[l].driverId
    ensures forall k :: 0 <= k < |r| ==> r[k].wins == NonNullCount(rows, r[k].driverId)
    ensures forall id :: (exists k :: 0 <= k < |r| && r[k].driverId == id) <==>
      (exists i :: 0 <= i < |rows| && rows[i].driverId == Some(id))
  {
    IntLessIsStrictTotalOrder();
    var ids := SortedDistinct(PresentIds(rows), IntLess);
    assert forall id :: id in ids <==> id in PresentIds(rows) by {
      assert forall id :: id in ids <==> id in Elems(ids);
      assert forall id :: id in PresentIds(rows) <==> id in Elems(PresentIds(rows));
    }
    var r := seq(|ids|, k requires 0 <= k < |ids| => DriverWins(ids[k], NonNullCount(rows, ids[k])));
    assert forall k :: 0 <= k < |r| ==> r[k].driverId == ids[k];
    assert forall id :: id in ids <==> exists k :: 0 <= k < |r| && r[k].driverId == id;
    r
  }

  /** Among first places, the non-NA count of a driver is its number of wins. */
  lemma {:induction false} FirstPlacesCount(rows: seq<PosRow>, id: int)
    ensures NonNullCount(FirstPlaces(rows), id) == WinsOf(rows, id)
  {
    if rows != [] {
      FirstPlacesCount(rows[1..], id);
    }
  }

  /** A driver has a first place exactly when its win count is positive. */
  lemma {:induction false} WinsOfPositive(rows: seq<PosRow>, id: int)
    ensures WinsOf(rows, id) > 0 <==> exists i :: 0 <= i < |rows| && rows[i].driverId == Some(id) && IsWin(rows[i].position)
  {
    if rows != [] {
      WinsOfPositive(rows[1..], id);
      assert forall i :: 0 < i < |rows| ==> rows[i] == rows[1..][i - 1];
    }
  }

  /** The driverIds among the first places are the drivers with a win. */
  lemma {:induction false} FirstPlacesDrivers(rows: seq<PosRow>, id: int)
    ensures (exists i :: 0 <= i < |FirstPlaces(rows)| && FirstPlaces(rows)[i].driverId == Some(id)) <==>
      WinsOf(rows, id) > 0
  {
    if rows != [] {
      FirstPlacesDrivers(rows[1..], id);
      var f, g := FirstPlaces(rows), FirstPlaces(rows[1..]);
      if IsWin(rows[0].position) {
        assert f == [rows[0]] + g;
        assert forall i :: 0 < i < |f| ==> f[i] == g[i - 1];
      } else {
        assert f == g;
        assert WinsOf(rows, id) == WinsOf(rows[1..], id);
        if i :| 0 <= i < |g| && g[i].driverId == Some(id) {
          assert f[i].driverId == Some(id);
        }
      }
    }
  }

  // ---------------------------------------------------------------------
  // Ordering by wins

  /** Wins never increase down the rows. */
  predicate ByWinsDescending(s: seq<DriverWins>)
  {
    forall i, j :: 0 <= i < j < |s| ==> s[i].wins >= s[j].wins
  }

  /** Puts `x` before the first row with no more wins than it. */
  function InsertByWins(x: DriverWins, s: seq<DriverWins>): (r: seq<DriverWins>)
    requires ByWinsDescending(s)
    ensures ByWinsDescending(r) && multiset(r) == multiset(s) + multiset{x} && |r| == |s| + 1
  {
    if s == [] || x.wins >= s[0].wins then
      ConsDescending(x, s);
      [x] + s
    else
      var rest := InsertByWins(x, s[1..]);
      assert s == [s[0]] + s[1..];
      BoundedByHead(x, s, rest);
      ConsDescending(s[0], rest);
      [s[0]] + rest
  }

  /** A row with at least the wins of every row of a descending sequence
      can go in front of it. */
  lemma ConsDescending(y: DriverWins, s: seq<DriverWins>)
    requires ByWinsDescending(s) && (s != [] ==> y.wins >= s[0].wins)
    ensures ByWinsDescending([y] + s)
  {
    var r := [y] + s;
    forall i, j | 0 <= i < j < |r| ensures r[i].wins >= r[j].wins {
      if i > 0 {
        assert r[i] == s[i - 1] && r[j] == s[j - 1];
      } else if j > 1 {
        assert s[0].wins >= s[j - 1].wins;
      }
    }
  }

  /** Inserting a row with fewer wins than the head into the tail gives rows
      with no more wins than the head. */
  lemma BoundedByHead(x: DriverWins, s: seq<DriverWins>, rest: seq<DriverWins>)
    requires ByWinsDescending(s) && s != [] && x.wins < s[0].wins
    requires multiset(rest) == multiset(s[1..]) + multiset{x}
    ensures rest != [] ==> s[0].wins >= rest[0].wins
  {
    if rest != [] {
      assert rest[0] in multiset(rest);
      if rest[0] != x {
        assert rest[0] in multiset(s[1..]);
        var j :| 0 <= j < |s[1..]| && s[1..][j] == rest[0];
        assert s[j + 1] == rest[0];
      }
    }
  }

  /** `sort_values("wins", ascending=False)`: the same rows, wins never
      increasing. pandas' default sort is not stable, so which of two rows
      with equal wins comes first is left open: this definition keeps the
      input order, and nothing proved here depends on it. */
  function SortByWins(s: seq<DriverWins>): (r: seq<DriverWins>)
    ensures ByWinsDescending(r) && multiset(r) == multiset(s) && |r| == |s|
  {
    if s == [] then []
    else
      assert s == [s[0]] + s[1..];
      InsertByWins(s[0], SortByWins(s[1..]))
  }

  // ---------------------------------------------------------------------
  // Taking the first rows

  /** `df.head(n)`: the first n rows; for a negative n, all rows but the last |n|. */
  function Head<T>(s: seq<T>, n: int): (r: seq<T>)
    ensures r <= s
    ensures 0 <= n <= |s| ==> |r| == n
    ensures n >= |s| ==> r == s
    ensures n < 0 ==> |r| == if |s| + n > 0 then |s| + n else 0
  {
    if n >= 0 then s[..if n < |s| then n else |s|]
    else s[..if |s| + n > 0 then |s| + n else 0]
  }

  /** The first rows of a descending order are the ones with the most wins:
      how many `head` keeps, and that no row left out has more wins than a
      row kept. */
  lemma HeadOfDescending(s: seq<DriverWins>, n: int)
    requires ByWinsDescending(s)
    ensures n >= 0 ==> |Head(s, n)| == if n < |s| then n else |s|
    ensures n < 0 ==> |Head(s, n)| == if |s| + n > 0 then |s| + n else 0
    ensures ByWinsDescending(Head(s, n)) && multiset(Head(s, n)) <= multiset(s)
    ensures forall i, j :: 0 <= i < |Head(s, n)| <= j < |s| ==> Head(s, n)[i].wins >= s[j].wins
  {
    var h := Head(s, n);
    assert s == h + s[|h|..];
  }

  // ---------------------------------------------------------------------
  // Driver names

  /** `set_index(c)`: column `c` becomes the row key and leaves the body. */
  function SetIndex(t: Table, c: string): (r: Result<Table>)
    requires t.Valid()
    ensures r.Err? <==> c !in t.names
    ensures r.Ok? ==> r.value.Valid() && r.value.key == Some(c) && r.value.index == Column(t, c) && c !in r.value.names
  {
    if c in t.names then Index.IdColumnRemoved(t, c); Index.PromoteKey(t, c) else Index.PromoteKey(t, c)
  }

  /** `_get_driver_names(driver_ids)` as written: select driverId, forename
      and surname from the drivers' frame, key it by driverId, then pick the
      rows of the requested ids. */
  function DriverNamesAsWritten(drivers: Table, ids: seq<Cell>): (r: Result<Table>)
    requires drivers.Valid()
    ensures "driverId" !in drivers.names ==> r == Err(KeyError("driverId"))
  {
    match Select(drivers, ["driverId", "forename", "surname"])
    case Err(e) => Err(e)
    case Ok(t) =>
      match SetIndex(t, "driverId")
      case Err(e) => Err(e)
      case Ok(k) => Loc(k, ids)
  }

  /** The drivers' frame is built with driverId as its row key, so the
      driverId column is gone by the time `_get_driver_names` selects it:
      every call raises KeyError, whatever ids it is given. */
  lemma DriverNamesAlwaysRaises(raw: Table, ids: seq<Cell>)
    requires raw.Valid() && F1Data.Prepared(raw, Some("driverId")).Ok?
    ensures DriverNamesAsWritten(F1Data.Prepared(raw, Some("driverId")).value, ids) == Err(KeyError("driverId"))
  {
    F1Data.PreparedWithId(raw, "driverId");
  }

  /** `_get_driver_names(driver_ids)` as intended: forename and surname of
      the drivers' frame, already keyed by driverId, at the requested ids. */
  function DriverNames(drivers: Table, ids: seq<Cell>): (r: Result<Table>)
    requires drivers.Valid()
    ensures r.Ok? ==> r.value.Valid() && r.value.names == ["forename", "surname"]
  {
    match Select(drivers, ["forename", "surname"])
    case Err(e) => Err(e)
    case Ok(t) => Loc(t, ids)
  }

  /** The intended lookup fails only for a missing name column or an unknown
      id; otherwise, on distinct driver keys, row p is the forename and
      surname of driver `ids[p]`, in the order asked for. */
  lemma DriverNamesRows(drivers: Table, ids: seq<Cell>)
    requires drivers.Valid() && DistinctKeys(drivers.index)
    ensures DriverNames(drivers, ids).Ok? <==>
      "forename" in drivers.names && "surname" in drivers.names && forall p :: 0 <= p < |ids| ==> ids[p] in drivers.index
    ensures DriverNames(drivers, ids).Ok? ==>
      var r := DriverNames(drivers, ids).value;
      && r.index == ids
      && forall p :: 0 <= p < |ids| ==>
        && r.cols[0][p] == Column(drivers, "forename")[IndexOf(drivers.index, ids[p])]
        && r.cols[1][p] == Column(drivers, "surname")[IndexOf(drivers.index, ids[p])]
  {
    var s := Select(drivers, ["forename", "surname"]);
    if s.Ok? {
      assert s.value.index == drivers.index;
      assert forall p :: 0 <= p < |ids| ==> ids[p] in ids;
      if Loc(s.value, ids).Ok? {
        LocRows(s.value, ids);
      }
    } else {
      assert "forename" !in drivers.names || "surname" !in drivers.names;
    }
  }
}
