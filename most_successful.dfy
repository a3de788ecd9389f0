/** `MostSuccessful`: the drivers with the most race wins, computed as one
    expression from the results' (driverId, position) rows. */
module MostSuccessful {
  import opened Base
  import opened Frames
  import opened Ranking

  /** `_get_wins_counts_for_each_driver(rows)`: first places counted per
      driver, ids ascending (the rename to `wins` only relabels the count
      column, which `DriverWins` already calls `wins`). */
  function WinsCountsForEachDriver(rows: seq<PosRow>): (w: seq<DriverWins>)
    ensures forall k, l :: 0 <= k < l < |w| ==> w[k].driverId < w[l].driverId
  {
    CountPerDriver(FirstPlaces(rows))
  }

  /** `get(count)`: the sorted counts, first `count` rows. */
  function Get(rows: seq<PosRow>, count: int): (r: seq<DriverWins>)
    ensures ByWinsDescending(r) && multiset(r) <= multiset(WinsCountsForEachDriver(rows))
  {
    var sorted := SortByWins(WinsCountsForEachDriver(rows));
    HeadOfDescending(sorted, count);
    Head(sorted, count)
  }

  /** Whether driver `id` has a row in `s`. */
  predicate Listed(s: seq<DriverWins>, id: int)
  {
    exists k :: 0 <= k < |s| && s[k].driverId == id
  }

  /** No driver has two rows. */
  predicate DistinctDrivers(s: seq<DriverWins>)
  {
    forall k, l :: 0 <= k < l < |s| ==> s[k].driverId != s[l].driverId
  }

  /** Every driver with a first place has exactly one row, holding its number
      of first places; nobody else has a row. */
  lemma WinsCounts(rows: seq<PosRow>)
    ensures var w := WinsCountsForEachDriver(rows);
      && (forall k, l :: 0 <= k < l < |w| ==> w[k].driverId < w[l].driverId)
      && (forall k :: 0 <= k < |w| ==> w[k].wins == WinsOf(rows, w[k].driverId) && w[k].wins >= 1)
      && (forall id :: Listed(w, id) <==> WinsOf(rows, id) > 0)
  {
    var w := WinsCountsForEachDriver(rows);
    forall k | 0 <= k < |w| ensures w[k].wins == WinsOf(rows, w[k].driverId) {
      FirstPlacesCount(rows, w[k].driverId);
    }
    forall id ensures Listed(w, id) <==> WinsOf(rows, id) > 0 {
      FirstPlacesDrivers(rows, id);
    }
    forall k | 0 <= k < |w| ensures w[k].wins >= 1 {
      assert Listed(w, w[k].driverId);
    }
  }

  /** A sequence without repeated elements holds each value at most once. */
  lemma {:induction false} AtMostOnce(s: seq<DriverWins>, x: DriverWins)
    requires forall k, l :: 0 <= k < l < |s| ==> s[k] != s[l]
    ensures multiset(s)[x] <= 1
  {
    if s != [] {
      var n := |s| - 1;
      assert s == s[..n] + [s[n]];
      AtMostOnce(s[..n], x);
      if x == s[n] {
        assert x !in s[..n];
      }
    }
  }

  /** Reordering rows of distinct drivers keeps them distinct. */
  lemma PermutationKeepsDistinct(w: seq<DriverWins>, s: seq<DriverWins>)
    requires DistinctDrivers(w) && multiset(s) == multiset(w)
    ensures DistinctDrivers(s)
  {
    forall k, l | 0 <= k < l < |s| ensures s[k].driverId != s[l].driverId {
      assert s[k] in multiset(w) && s[l] in multiset(w);
      var a :| 0 <= a < |w| && w[a] == s[k];
      var b :| 0 <= b < |w| && w[b] == s[l];
      if s[k].driverId == s[l].driverId {
        assert a == b;
        assert s == s[..l] + s[l..];
        assert s[k] in s[..l] && s[l] in s[l..];
        assert multiset(s)[s[k]] >= 2;
        AtMostOnce(w, s[k]);
      }
    }
  }

  /** A row of `w` whose driver is not among the first m rows of a
      descending reordering of `w` has no more wins than any of them. */
  lemma PrefixBeatsRest(w: seq<DriverWins>, s: seq<DriverWins>, m: nat, i: nat, k: nat)
    requires multiset(s) == multiset(w) && ByWinsDescending(s)
    requires i < m <= |s| && k < |w| && !Listed(s[..m], w[k].driverId)
    ensures s[i].wins >= w[k].wins
  {
    assert w[k] in multiset(s);
    var j :| 0 <= j < |s| && s[j] == w[k];
  }

  /** The first rows of a descending reordering of `w`: rows of `w`, of
      distinct drivers, and a row of `w` whose driver is not among them has
      no more wins than any of them. */
  lemma HeadOfReordering(w: seq<DriverWins>, s: seq<DriverWins>, n: int)
    requires DistinctDrivers(w) && multiset(s) == multiset(w) && ByWinsDescending(s)
    ensures var r := Head(s, n);
      && DistinctDrivers(r)
      && (forall i :: 0 <= i < |r| ==> r[i] in w)
      && (forall i, k :: 0 <= i < |r| && 0 <= k < |w| && !Listed(r, w[k].driverId) ==> r[i].wins >= w[k].wins)
  {
    var r := Head(s, n);
    var m := |r|;
    assert r == s[..m];
    PermutationKeepsDistinct(w, s);
    forall i | 0 <= i < m ensures r[i] in w {
      assert r[i] == s[i] && s[i] in multiset(w);
    }
    forall i, k | 0 <= i < m && 0 <= k < |w| && !Listed(r, w[k].driverId) ensures r[i].wins >= w[k].wins {
      PrefixBeatsRest(w, s, m, i, k);
    }
  }

  /** `get(count)` keeps the sorted order and the requested number of rows. */
  lemma GetSize(rows: seq<PosRow>, count: int)
    ensures var r := Get(rows, count); var n := |WinsCountsForEachDriver(rows)|;
      && ByWinsDescending(r) && DistinctDrivers(r)
      && (count >= 0 ==> |r| == if count < n then count else n)
      && (count < 0 ==> |r| == if n + count > 0 then n + count else 0)
  {
    var w := WinsCountsForEachDriver(rows);
    WinsCounts(rows);
    HeadOfDescending(SortByWins(w), count);
    HeadOfReordering(w, SortByWins(w), count);
  }

  /** Every row `get(count)` returns is a winner with its number of wins. */
  lemma GetRowsAreWinners(rows: seq<PosRow>, count: int, i: nat)
    requires i < |Get(rows, count)|
    ensures Get(rows, count)[i].wins == WinsOf(rows, Get(rows, count)[i].driverId)
    ensures Get(rows, count)[i].wins >= 1
  {
    var w := WinsCountsForEachDriver(rows);
    WinsCounts(rows);
    HeadOfReordering(w, SortByWins(w), count);
    var k :| 0 <= k < |w| && w[k] == Get(rows, count)[i];
  }

  /** No driver left out of `get(count)` has more wins than one returned. */
  lemma GetBeatsOmitted(rows: seq<PosRow>, count: int, i: nat, id: int)
    requires i < |Get(rows, count)| && !Listed(Get(rows, count), id)
    ensures Get(rows, count)[i].wins >= WinsOf(rows, id)
  {
    var w := WinsCountsForEachDriver(rows);
    WinsCounts(rows);
    if WinsOf(rows, id) > 0 {
      assert Listed(w, id);
      var k :| 0 <= k < |w| && w[k].driverId == id;
      HeadOfReordering(w, SortByWins(w), count);
    }
  }

  /** `get(count)`: rows of distinct winning drivers with their win counts,
      wins never increasing; `count` rows when there are that many winners
      (a negative count drops that many from the end); and no driver left out
      has more wins than a driver returned. */
  lemma GetTopWinners(rows: seq<PosRow>, count: int)
    ensures var r := Get(rows, count); var n := |WinsCountsForEachDriver(rows)|;
      && ByWinsDescending(r) && DistinctDrivers(r)
      && (forall i :: 0 <= i < |r| ==> r[i].wins == WinsOf(rows, r[i].driverId) && r[i].wins >= 1)
      && (count >= 0 ==> |r| == if count < n then count else n)
      && (count < 0 ==> |r| == if n + count > 0 then n + count else 0)
      && (forall i, id :: 0 <= i < |r| && !Listed(r, id) ==> r[i].wins >= WinsOf(rows, id))
  {
    GetSize(rows, count);
    forall i | 0 <= i < |Get(rows, count)|
      ensures Get(rows, count)[i].wins == WinsOf(rows, Get(rows, count)[i].driverId) && Get(rows, count)[i].wins >= 1
    {
      GetRowsAreWinners(rows, count, i);
    }
    forall i, id | 0 <= i < |Get(rows, count)| && !Listed(Get(rows, count), id)
      ensures Get(rows, count)[i].wins >= WinsOf(rows, id)
    {
      GetBeatsOmitted(rows, count, i, id);
    }
  }

  /** `get(count)` with a count at least the number of winners lists every
      winner. */
  lemma GetAllWinners(rows: seq<PosRow>, count: int, id: int)
    requires count >= |WinsCountsForEachDriver(rows)|
    ensures Listed(Get(rows, count), id) <==> WinsOf(rows, id) > 0
  {
    var w := WinsCountsForEachDriver(rows);
    var s := SortByWins(w);
    WinsCounts(rows);
    assert Get(rows, count) == s;
    if Listed(s, id) {
      var j :| 0 <= j < |s| && s[j].driverId == id;
      assert s[j] in multiset(w);
      var k :| 0 <= k < |w| && w[k] == s[j];
      assert Listed(w, id);
    }
    if Listed(w, id) {
      var k :| 0 <= k < |w| && w[k].driverId == id;
      assert w[k] in multiset(s);
      var j :| 0 <= j < |s| && s[j] == w[k];
    }
  }

  // ---------------------------------------------------------------------
  // Positions read as text

  /** Every position is text or NA: what the loader yields for a position
      column holding the `\N` placeholder, which is never converted. */
  predicate TextPositions(rows: seq<PosRow>)
  {
    forall i :: 0 <= i < |rows| ==> rows[i].position.None? || rows[i].position.value.Text?
  }

  /** With every position text or NA, `position == 1` matches nothing and
      `get(count)` is empty for every count. */
  lemma TextPositionsNoWinners(rows: seq<PosRow>, count: int)
    requires TextPositions(rows)
    ensures FirstPlaces(rows) == [] && Get(rows, count) == []
  {
    var f := FirstPlaces(rows);
    assert forall x: PosRow :: x in rows ==> !IsWin(x.position);
    assert multiset(f) == multiset{};
    assert f == [];
    var w := WinsCountsForEachDriver(rows);
    if w != [] {
      assert false;
    }
  }

  /** Decimal digits, as `pd.to_numeric` accepts for an integer. */
  predicate IsDecimal(s: string)
  {
    |s| > 0 && forall i :: 0 <= i < |s| ==> '0' <= s[i] <= '9'
  }

  /** The value of a string of decimal digits. */
  function DecimalValue(s: string): (v: nat)
    requires IsDecimal(s)
  {
    if |s| == 1 then (s[0] as int) - ('0' as int)
    else DecimalValue(s[..|s| - 1]) * 10 + ((s[|s| - 1] as int) - ('0' as int))
  }

  /** A position converted to a number: decimal text becomes its integer,
      any other cell stays as it is. */
  function NumericPosition(c: Cell): (r: Cell)
    ensures c == Some(Text("1")) ==> r == Some(Int(1))
    ensures IsWin(r) <==> IsWin(c) || (c.Some? && c.value.Text? && IsDecimal(c.value.s) && DecimalValue(c.value.s) == 1)
  {
    if c.Some? && c.value.Text? && IsDecimal(c.value.s) then Some(Int(DecimalValue(c.value.s))) else c
  }

  function NumericPositions(rows: seq<PosRow>): (r: seq<PosRow>)
    ensures |r| == |rows|
    ensures forall i :: 0 <= i < |rows| ==>
      r[i] == PosRow(rows[i].driverId, NumericPosition(rows[i].position))
  {
    seq(|rows|, i requires 0 <= i < |rows| => PosRow(rows[i].driverId, NumericPosition(rows[i].position)))
  }

  /** The rows of driver `id` whose position is the text of the number 1. */
  function TextWinsOf(rows: seq<PosRow>, id: int): nat
  {
    if rows == [] then 0
    else
      var c := rows[0].position;
      (if rows[0].driverId == Some(id) && c.Some? && c.value.Text? && IsDecimal(c.value.s) && DecimalValue(c.value.s) == 1
       then 1 else 0) + TextWinsOf(rows[1..], id)
  }

  /** `get(count)` with the positions converted to numbers first: the
      intended ranking, which counts a first place however the loader typed
      it. */
  function GetNumeric(rows: seq<PosRow>, count: int): (r: seq<DriverWins>)
    ensures ByWinsDescending(r)
  {
    Get(NumericPositions(rows), count)
  }

  /** After conversion a driver's wins are its numeric first places plus
      its first places written as text. */
  lemma {:induction false} NumericWinsOf(rows: seq<PosRow>, id: int)
    ensures WinsOf(NumericPositions(rows), id) == WinsOf(rows, id) + TextWinsOf(rows, id)
  {
    if rows != [] {
      NumericWinsOf(rows[1..], id);
      assert NumericPositions(rows)[1..] == NumericPositions(rows[1..]);
    }
  }

  /** The converted ranking, asked for every winner, lists exactly the
      drivers with a first place, numeric or written as text; so the text
      position "1" counts as a win. */
  lemma GetNumericWinners(rows: seq<PosRow>, count: int, id: int)
    requires count >= |WinsCountsForEachDriver(NumericPositions(rows))|
    ensures Listed(GetNumeric(rows, count), id) <==> WinsOf(rows, id) + TextWinsOf(rows, id) > 0
  {
    NumericWinsOf(rows, id);
    GetAllWinners(NumericPositions(rows), count, id);
  }
}
