/** The part of pandas' DataFrame that the analytics code relies on, as values:
    column selection, dropping columns, moving the row key into a column,
    assigning a column and the inner merge on key columns. `DataFrame` is the
    mutable object that the in-place operations change. */
module Frames {
  import opened Base

  /** A cell value after CSV parsing or type conversion. */
  datatype Value = Text(s: string) | Int(i: int) | Num(x: real) | Flag(b: bool)

  /** A cell; `None` is pandas' NA / NaN. */
  type Cell = Option<Value>

  /** A table: the name of its row key (`None` for an unnamed index), the key of
      each row, the column labels and the columns, stored column by column. */
  datatype Table = Table(key: Option<string>, index: seq<Cell>, names: seq<string>, cols: seq<seq<Cell>>)
  {
    /** One column per label, one cell per row in every column. */
    ghost predicate Valid()
    {
      |cols| == |names| && forall j :: 0 <= j < |cols| ==> |cols[j]| == |index|
    }
  }

  /** A RangeIndex: the key of row i is i. */
  function Positions(n: nat): (r: seq<Cell>)
    ensures |r| == n && forall i :: 0 <= i < n ==> r[i] == Some(Int(i))
  {
    seq(n, i => Some(Int(i)))
  }

  /** Position of the first column labelled `c`, or |names| when there is none. */
  function Find(names: seq<string>, c: string): (k: nat)
    ensures k <= |names|
    ensures k < |names| <==> c in names
    ensures k < |names| ==> names[k] == c && c !in names[..k]
  {
    if names == [] then 0
    else if names[0] == c then 0
    else
      assert names == [names[0]] + names[1..];
      var k := Find(names[1..], c);
      assert k < |names| - 1 ==> names[..k + 1] == [names[0]] + names[1..][..k];
      1 + k
  }

  /** The first position holding `c` is the one Find returns. */
  lemma FindUnique(names: seq<string>, c: string, k: nat)
    requires k < |names| && names[k] == c && c !in names[..k]
    ensures Find(names, c) == k
  {
    var f := Find(names, c);
    assert forall i :: 0 <= i < k ==> names[..k][i] == names[i];
    assert forall i :: 0 <= i < f ==> names[..f][i] == names[i];
  }

  /** The column labelled `c`. */
  function Column(t: Table, c: string): (col: seq<Cell>)
    requires t.Valid() && c in t.names
    ensures |col| == |t.index|
  {
    t.cols[Find(t.names, c)]
  }

  /** Position in `want` of the first label that is not a column, or |want|. */
  function FirstMissing(want: seq<string>, names: seq<string>): (k: nat)
    ensures k <= |want|
    ensures forall i :: 0 <= i < k ==> want[i] in names
    ensures k < |want| ==> want[k] !in names
  {
    if want == [] then 0
    else if want[0] !in names then 0
    else 1 + FirstMissing(want[1..], names)
  }

  /** `df[[c1, c2, ...]]`: exactly the requested columns, in the requested
      order, with the row keys and every cell unchanged; KeyError naming a
      requested label that is not a column. */
  function Select(t: Table, want: seq<string>): (r: Result<Table>)
    requires t.Valid()
    ensures r.Err? <==> exists c :: c in want && c !in t.names
    ensures r.Err? ==> r.error == KeyError(want[FirstMissing(want, t.names)])
    ensures r.Ok? ==> r.value.Valid() && r.value.key == t.key && r.value.index == t.index
    ensures r.Ok? ==> r.value.names == want
    ensures r.Ok? ==> forall k :: 0 <= k < |want| ==> r.value.cols[k] == Column(t, want[k])
  {
    var m := FirstMissing(want, t.names);
    if m < |want| then Err(KeyError(want[m]))
    else Ok(Table(t.key, t.index, want, seq(|want|, k requires 0 <= k < |want| => Column(t, want[k]))))
  }

  /** Selecting from a selection is selecting from the original. */
  lemma SelectOfSelect(t: Table, a: seq<string>, b: seq<string>)
    requires t.Valid() && Select(t, a).Ok?
    ensures Select(Select(t, a).value, b).Ok? <==> (forall c :: c in b ==> c in a)
    ensures Select(Select(t, a).value, b).Ok? ==> Select(t, b) == Select(Select(t, a).value, b)
  {
    var s := Select(t, a).value;
    if Select(s, b).Ok? {
      assert forall c :: c in b ==> c in t.names;
      forall k | 0 <= k < |b| ensures Column(s, b[k]) == Column(t, b[k]) {
        var p := Find(a, b[k]);
        assert s.cols[p] == Column(t, a[p]);
      }
      assert Select(t, b).value.cols == Select(s, b).value.cols;
    }
  }

  /** Positions, in order, of the labels not listed in `drop`. */
  function KeptIndices(names: seq<string>, drop: seq<string>): (idx: seq<nat>)
    ensures forall k :: 0 <= k < |idx| ==> idx[k] < |names| && names[idx[k]] !in drop
    ensures forall k, l :: 0 <= k < l < |idx| ==> idx[k] < idx[l]
    ensures forall j :: 0 <= j < |names| && names[j] !in drop ==> j in idx
  {
    if names == [] then []
    else
      var n := |names| - 1;
      var front := KeptIndices(names[..n], drop);
      if names[n] in drop then front else front + [n]
  }

  /** `df.drop(columns=drop)`: every column whose label is listed is removed,
      the others stay in their order; KeyError for a listed label that is not a
      column. */
  function DropColumns(t: Table, drop: seq<string>): (r: Result<Table>)
    requires t.Valid()
    ensures r.Err? <==> exists c :: c in drop && c !in t.names
    ensures r.Ok? ==> r.value.Valid() && r.value.key == t.key && r.value.index == t.index
    ensures r.Ok? ==> forall c :: c in r.value.names <==> c in t.names && c !in drop
  {
    var m := FirstMissing(drop, t.names);
    if m < |drop| then Err(KeyError(drop[m]))
    else
      var idx := KeptIndices(t.names, drop);
      var names := seq(|idx|, k requires 0 <= k < |idx| => t.names[idx[k]]);
      assert forall c :: c in t.names && c !in drop ==> c in names by {
        forall c | c in t.names && c !in drop ensures c in names {
          var j :| 0 <= j < |t.names| && t.names[j] == c;
          var k :| 0 <= k < |idx| && idx[k] == j;
          assert names[k] == c;
        }
      }
      Ok(Table(t.key, t.index, names, seq(|idx|, k requires 0 <= k < |idx| => t.cols[idx[k]])))
  }

  /** The columns that survive a drop keep their cells and their order. */
  lemma DropKeepsColumns(t: Table, drop: seq<string>)
    requires t.Valid() && DropColumns(t, drop).Ok?
    ensures var r := DropColumns(t, drop).value;
      var idx := KeptIndices(t.names, drop);
      && |r.names| == |idx|
      && forall k :: 0 <= k < |idx| ==> r.names[k] == t.names[idx[k]] && r.cols[k] == t.cols[idx[k]]
  {
  }

  /** A column that is not dropped is still found under its label, with its cells. */
  lemma DropKeepsNamedColumn(t: Table, drop: seq<string>, d: string)
    requires t.Valid() && DropColumns(t, drop).Ok? && d in t.names && d !in drop
    ensures d in DropColumns(t, drop).value.names
    ensures Column(DropColumns(t, drop).value, d) == Column(t, d)
  {
    var r := DropColumns(t, drop).value;
    DropKeepsColumns(t, drop);
    var k := Find(r.names, d);
    KeptFirst(t.names, drop, r.names, k, d);
    FindUnique(t.names, d, KeptIndices(t.names, drop)[k]);
  }

  /** The first kept label equal to `d` sits where `d` first occurs among all
      the labels. */
  lemma KeptFirst(names: seq<string>, drop: seq<string>, kept: seq<string>, k: nat, d: string)
    requires |kept| == |KeptIndices(names, drop)|
    requires forall i :: 0 <= i < |kept| ==> kept[i] == names[KeptIndices(names, drop)[i]]
    requires k < |kept| && kept[k] == d && d !in kept[..k] && d !in drop
    ensures var p := KeptIndices(names, drop)[k]; names[p] == d && d !in names[..p]
  {
    var idx := KeptIndices(names, drop);
    var p := idx[k];
    forall j | 0 <= j < p ensures names[j] != d {
      if names[j] !in drop {
        var k' :| 0 <= k' < |idx| && idx[k'] == j;
        assert k' < k;
        assert kept[..k][k'] == names[j];
      }
    }
    assert forall j :: 0 <= j < p ==> names[..p][j] == names[j];
  }

  /** When no label is dropped, every position is kept. */
  lemma {:induction false} KeptIndicesAll(names: seq<string>, drop: seq<string>)
    requires forall j :: 0 <= j < |names| ==> names[j] !in drop
    ensures |KeptIndices(names, drop)| == |names|
  {
    if names != [] { KeptIndicesAll(names[..|names| - 1], drop); }
  }

  /** Dropping one label that occurs once removes exactly one column. */
  lemma {:induction false} KeptIndicesOne(names: seq<string>, c: string)
    requires c in names
    requires forall i, j :: 0 <= i < j < |names| ==> names[i] != names[j]
    ensures |KeptIndices(names, [c])| == |names| - 1
  {
    var n := |names| - 1;
    var front := names[..n];
    assert KeptIndices(names, [c]) == KeptIndices(front, [c]) + (if names[n] in [c] then [] else [n]);
    if names[n] == c {
      assert forall j :: 0 <= j < |front| ==> front[j] != names[n];
      KeptIndicesAll(front, [c]);
    } else {
      var p :| 0 <= p < |names| && names[p] == c;
      assert front[p] == c;
      KeptIndicesOne(front, c);
    }
  }

  /** `df.reset_index()`: the row key becomes the first column, named after the
      key (`index`, or `level_0` when `index` is taken, for an unnamed key), and
      the rows are keyed by position; ValueError when that label is already a
      column. */
  function ResetIndex(t: Table): (r: Result<Table>)
    requires t.Valid()
    ensures r.Ok? ==> r.value.Valid() && r.value.key == None && r.value.index == Positions(|t.index|)
    ensures r.Ok? ==> r.value.names == [IndexLabel(t)] + t.names && r.value.cols == [t.index] + t.cols
    ensures r.Err? <==> IndexLabel(t) in t.names
  {
    var col := IndexLabel(t);
    if col in t.names then Err(CannotInsert(col))
    else Ok(Table(None, Positions(|t.index|), [col] + t.names, [t.index] + t.cols))
  }

  /** The label `reset_index` gives the column made from the row key. */
  function IndexLabel(t: Table): string
  {
    match t.key
    case Some(k) => k
    case None => if "index" in t.names then "level_0" else "index"
  }

  /** A selected column keeps its cells. */
  lemma SelectColumn(t: Table, want: seq<string>, c: string)
    requires t.Valid() && Select(t, want).Ok? && c in want
    ensures Column(Select(t, want).value, c) == Column(t, c)
  {
    var k := Find(want, c);
  }

  /** After `reset_index`, the new first column holds the old row keys and
      every other column keeps its cells. */
  lemma ResetIndexColumn(t: Table, c: string)
    requires t.Valid() && ResetIndex(t).Ok? && c in t.names
    ensures Column(ResetIndex(t).value, IndexLabel(t)) == t.index
    ensures Column(ResetIndex(t).value, c) == Column(t, c)
  {
    var r := ResetIndex(t).value;
    FindInAppend([IndexLabel(t)], t.names, IndexLabel(t));
    FindInAppend([IndexLabel(t)], t.names, c);
  }

  /** The labels of `names` not listed in `drop`, in order. */
  function Without(names: seq<string>, drop: seq<string>): (r: seq<string>)
  {
    if names == [] then []
    else
      var n := |names| - 1;
      Without(names[..n], drop) + if names[n] in drop then [] else [names[n]]
  }

  /** `df.drop(columns=drop)` keeps exactly the labels not dropped, in order. */
  lemma {:induction false} DropNames(t: Table, drop: seq<string>)
    requires t.Valid() && DropColumns(t, drop).Ok?
    ensures DropColumns(t, drop).value.names == Without(t.names, drop)
  {
    DropKeepsColumns(t, drop);
    KeptNames(t.names, drop);
  }

  lemma {:induction false} KeptNames(names: seq<string>, drop: seq<string>)
    ensures var idx := KeptIndices(names, drop);
      seq(|idx|, k requires 0 <= k < |idx| => names[idx[k]]) == Without(names, drop)
  {
    if names != [] {
      var n := |names| - 1;
      KeptNames(names[..n], drop);
    }
  }

  lemma {:induction false} WithoutAppend(a: seq<string>, b: seq<string>, drop: seq<string>)
    ensures Without(a + b, drop) == Without(a, drop) + Without(b, drop)
    decreases |b|
  {
    if b != [] {
      var n := |b| - 1;
      assert (a + b)[..|a| + n] == a + b[..n];
      WithoutAppend(a, b[..n], drop);
    } else {
      assert a + b == a;
    }
  }

  lemma {:induction false} WithoutNone(a: seq<string>, drop: seq<string>)
    requires forall k :: 0 <= k < |a| ==> a[k] !in drop
    ensures Without(a, drop) == a
  {
    if a != [] {
      var n := |a| - 1;
      WithoutNone(a[..n], drop);
      assert a == a[..n] + [a[n]];
    }
  }

  lemma {:induction false} WithoutAll(a: seq<string>, drop: seq<string>)
    requires forall k :: 0 <= k < |a| ==> a[k] in drop
    ensures Without(a, drop) == []
  {
    if a != [] { WithoutAll(a[..|a| - 1], drop); }
  }

  /** Dropping exactly the middle run of labels leaves the two outer runs. */
  lemma WithoutMiddle(a: seq<string>, b: seq<string>, c: seq<string>, drop: seq<string>)
    requires forall k :: 0 <= k < |a| ==> a[k] !in drop
    requires forall k :: 0 <= k < |b| ==> b[k] in drop
    requires forall k :: 0 <= k < |c| ==> c[k] !in drop
    ensures Without(a + b + c, drop) == a + c
  {
    calc {
      Without(a + b + c, drop);
    == { WithoutAppend(a + b, c, drop); }
      Without(a + b, drop) + Without(c, drop);
    == { WithoutAppend(a, b, drop); WithoutNone(a, drop); WithoutAll(b, drop); assert a + [] == a; }
      a + Without(c, drop);
    == { WithoutNone(c, drop); }
      a + c;
    }
  }

  /** `df[c] = col`: replaces the column labelled `c`, or appends it. */
  function SetColumn(t: Table, c: string, col: seq<Cell>): (r: Table)
    requires t.Valid() && |col| == |t.index|
    ensures r.Valid() && r.key == t.key && r.index == t.index
    ensures c in r.names && Column(r, c) == col
    ensures c in t.names ==> r.names == t.names
    ensures c !in t.names ==> r.names == t.names + [c]
    ensures forall d :: d in t.names && d != c ==> Column(r, d) == Column(t, d)
  {
    if c in t.names then
      var k := Find(t.names, c);
      var r := Table(t.key, t.index, t.names, t.cols[k := col]);
      assert forall d :: d in t.names && d != c ==> Find(r.names, d) != k;
      r
    else
      var r := Table(t.key, t.index, t.names + [c], t.cols + [col]);
      assert forall d :: d in t.names ==> Find(r.names, d) == Find(t.names, d) by {
        forall d | d in t.names ensures Find(r.names, d) == Find(t.names, d) {
          var k := Find(t.names, d);
          assert r.names[..k] == t.names[..k];
          FindUnique(r.names, d, k);
        }
      }
      assert Find(r.names, c) == |t.names| by {
        assert r.names[..|t.names|] == t.names;
        FindUnique(r.names, c, |t.names|);
      }
      r
  }

  // ---------------------------------------------------------------------
  // Inner merge on key columns

  /** The cells of row i in the columns at positions `on`. */
  function RowKey(t: Table, on: seq<nat>, i: nat): seq<Cell>
    requires t.Valid() && i < |t.index| && forall c :: 0 <= c < |on| ==> on[c] < |t.cols|
  {
    seq(|on|, c requires 0 <= c < |on| => t.cols[on[c]][i])
  }

  /** Whether row i of `l` and row k of `r` agree on their key columns. */
  ghost predicate KeysMatch(l: Table, lon: seq<nat>, i: nat, r: Table, ron: seq<nat>, k: nat)
    requires l.Valid() && r.Valid()
    requires forall c :: 0 <= c < |lon| ==> lon[c] < |l.cols|
    requires forall c :: 0 <= c < |ron| ==> ron[c] < |r.cols|
  {
    i < |l.index| && k < |r.index| && RowKey(l, lon, i) == RowKey(r, ron, k)
  }

  /** The pairs (i, k), k < n, where row k of `r` matches row i of `l`, in
      order of k. */
  function Matches(l: Table, lon: seq<nat>, i: nat, r: Table, ron: seq<nat>, n: nat): (ps: seq<(nat, nat)>)
    requires l.Valid() && r.Valid() && i < |l.index| && n <= |r.index|
    requires forall c :: 0 <= c < |lon| ==> lon[c] < |l.cols|
    requires forall c :: 0 <= c < |ron| ==> ron[c] < |r.cols|
    ensures forall p :: 0 <= p < |ps| ==> ps[p].0 == i && ps[p].1 < n && KeysMatch(l, lon, i, r, ron, ps[p].1)
    ensures forall p, q :: 0 <= p < q < |ps| ==> ps[p].1 < ps[q].1
    ensures forall k :: 0 <= k < n && KeysMatch(l, lon, i, r, ron, k) ==> (i, k) in ps
  {
    if n == 0 then []
    else
      var front := Matches(l, lon, i, r, ron, n - 1);
      if RowKey(l, lon, i) == RowKey(r, ron, n - 1) then front + [(i, n - 1)] else front
  }

  /** Every matching pair (i, k) with i < m, left row by left row. */
  function JoinPairs(l: Table, lon: seq<nat>, r: Table, ron: seq<nat>, m: nat): (ps: seq<(nat, nat)>)
    requires l.Valid() && r.Valid() && m <= |l.index|
    requires forall c :: 0 <= c < |lon| ==> lon[c] < |l.cols|
    requires forall c :: 0 <= c < |ron| ==> ron[c] < |r.cols|
    ensures forall p :: 0 <= p < |ps| ==> ps[p].0 < m && KeysMatch(l, lon, ps[p].0, r, ron, ps[p].1)
    ensures forall p, q :: 0 <= p < q < |ps| ==> ps[p].0 < ps[q].0 || (ps[p].0 == ps[q].0 && ps[p].1 < ps[q].1)
    ensures forall i: nat, k: nat :: i < m && KeysMatch(l, lon, i, r, ron, k) ==> (i, k) in ps
  {
    if m == 0 then []
    else
      var front := JoinPairs(l, lon, r, ron, m - 1);
      var last := Matches(l, lon, m - 1, r, ron, |r.index|);
      PairsOfRows(l, lon, r, ron, m, front, last);
      PairsInOrder(front, last, m - 1);
      front + last
  }

  /** The matching pairs of rows before row m - 1, then those of row m - 1:
      all the matching pairs of rows before m, and nothing else. */
  lemma PairsOfRows(l: Table, lon: seq<nat>, r: Table, ron: seq<nat>, m: nat, front: seq<(nat, nat)>, last: seq<(nat, nat)>)
    requires l.Valid() && r.Valid() && 0 < m <= |l.index|
    requires forall c :: 0 <= c < |lon| ==> lon[c] < |l.cols|
    requires forall c :: 0 <= c < |ron| ==> ron[c] < |r.cols|
    requires forall p :: 0 <= p < |front| ==> front[p].0 < m - 1 && KeysMatch(l, lon, front[p].0, r, ron, front[p].1)
    requires forall i: nat, k: nat :: i < m - 1 && KeysMatch(l, lon, i, r, ron, k) ==> (i, k) in front
    requires forall p :: 0 <= p < |last| ==> last[p].0 == m - 1 && KeysMatch(l, lon, m - 1, r, ron, last[p].1)
    requires forall i: nat, k: nat :: i == m - 1 && KeysMatch(l, lon, i, r, ron, k) ==> (i, k) in last
    ensures forall p :: 0 <= p < |front + last| ==> (front + last)[p].0 < m && KeysMatch(l, lon, (front + last)[p].0, r, ron, (front + last)[p].1)
    ensures forall i: nat, k: nat :: i < m && KeysMatch(l, lon, i, r, ron, k) ==> (i, k) in front + last
  {
    var ps := front + last;
    forall p | 0 <= p < |ps| ensures ps[p].0 < m && KeysMatch(l, lon, ps[p].0, r, ron, ps[p].1) {
      if p < |front| { assert ps[p] == front[p]; } else { assert ps[p] == last[p - |front|]; }
    }
    forall i: nat, k: nat | i < m && KeysMatch(l, lon, i, r, ron, k) ensures (i, k) in ps {
      if i < m - 1 { assert (i, k) in front; } else { assert (i, k) in last; }
    }
  }

  /** Pairs of rows before row `i`, in order, followed by the pairs of row
      `i` in order of their second row: still in order. */
  lemma PairsInOrder(front: seq<(nat, nat)>, last: seq<(nat, nat)>, i: nat)
    requires forall p :: 0 <= p < |front| ==> front[p].0 < i
    requires forall p, q :: 0 <= p < q < |front| ==> front[p].0 < front[q].0 || (front[p].0 == front[q].0 && front[p].1 < front[q].1)
    requires forall p :: 0 <= p < |last| ==> last[p].0 == i
    requires forall p, q :: 0 <= p < q < |last| ==> last[p].1 < last[q].1
    ensures var ps := front + last;
      forall p, q :: 0 <= p < q < |ps| ==> ps[p].0 < ps[q].0 || (ps[p].0 == ps[q].0 && ps[p].1 < ps[q].1)
  {
    var ps := front + last;
    forall p, q | 0 <= p < q < |ps| ensures ps[p].0 < ps[q].0 || (ps[p].0 == ps[q].0 && ps[p].1 < ps[q].1) {
      if q < |front| {
        assert ps[p] == front[p] && ps[q] == front[q];
      } else if p >= |front| {
        assert ps[p] == last[p - |front|] && ps[q] == last[q - |front|];
      } else {
        assert ps[p] == front[p] && ps[q] == last[q - |front|];
      }
    }
  }

  /** Positions of the given labels (all of which are columns). */
  function Positions2(names: seq<string>, on: seq<string>): (ps: seq<nat>)
    requires forall c :: c in on ==> c in names
    ensures |ps| == |on| && forall c :: 0 <= c < |on| ==> ps[c] < |names| && names[ps[c]] == on[c]
  {
    seq(|on|, c requires 0 <= c < |on| => Find(names, on[c]))
  }

  /** `pd.merge(l, r, left_on=leftOn, right_on=rightOn)` (an inner join): one
      output row for every pair of a left row and a right row whose key cells
      are equal, left rows in order and, within one left row, its partners in
      order; the columns of `l` followed by those of `r`; keyed by position.
      KeyError for a key label that is not a column. */
  function InnerJoin(l: Table, r: Table, leftOn: seq<string>, rightOn: seq<string>): (res: Result<Table>)
    requires l.Valid() && r.Valid()
    requires |leftOn| == |rightOn|
    ensures res.Err? <==> (exists c :: c in leftOn && c !in l.names) || (exists c :: c in rightOn && c !in r.names)
    ensures res.Ok? ==> res.value.Valid() && res.value.key == None
    ensures res.Ok? ==> res.value.names == l.names + r.names
  {
    var ml := FirstMissing(leftOn, l.names);
    var mr := FirstMissing(rightOn, r.names);
    if ml < |leftOn| then Err(KeyError(leftOn[ml]))
    else if mr < |rightOn| then Err(KeyError(rightOn[mr]))
    else Ok(JoinOn(l, r, Positions2(l.names, leftOn), Positions2(r.names, rightOn)))
  }

  /** The merged table for key columns given by position. */
  function JoinOn(l: Table, r: Table, lon: seq<nat>, ron: seq<nat>): (t: Table)
    requires l.Valid() && r.Valid()
    requires forall c :: 0 <= c < |lon| ==> lon[c] < |l.cols|
    requires forall c :: 0 <= c < |ron| ==> ron[c] < |r.cols|
    ensures t.Valid() && t.key == None && t.names == l.names + r.names
  {
    var ps := JoinPairs(l, lon, r, ron, |l.index|);
    var left := seq(|l.cols|, j requires 0 <= j < |l.cols| =>
      seq(|ps|, p requires 0 <= p < |ps| => l.cols[j][ps[p].0]));
    var right := seq(|r.cols|, j requires 0 <= j < |r.cols| =>
      seq(|ps|, p requires 0 <= p < |ps| => r.cols[j][ps[p].1]));
    Table(None, Positions(|ps|), l.names + r.names, left + right)
  }

  /** The number of rows k < n of `r` whose key cells equal those of row i
      of `l`. */
  ghost function MatchCount(l: Table, lon: seq<nat>, i: nat, r: Table, ron: seq<nat>, n: nat): nat
    requires l.Valid() && r.Valid() && i < |l.index| && n <= |r.index|
    requires forall c :: 0 <= c < |lon| ==> lon[c] < |l.cols|
    requires forall c :: 0 <= c < |ron| ==> ron[c] < |r.cols|
  {
    if n == 0 then 0
    else MatchCount(l, lon, i, r, ron, n - 1) + if KeysMatch(l, lon, i, r, ron, n - 1) then 1 else 0
  }

  /** The number of matching right rows, summed over the left rows i < m. */
  ghost function TotalMatches(l: Table, lon: seq<nat>, r: Table, ron: seq<nat>, m: nat): nat
    requires l.Valid() && r.Valid() && m <= |l.index|
    requires forall c :: 0 <= c < |lon| ==> lon[c] < |l.cols|
    requires forall c :: 0 <= c < |ron| ==> ron[c] < |r.cols|
  {
    if m == 0 then 0 else TotalMatches(l, lon, r, ron, m - 1) + MatchCount(l, lon, m - 1, r, ron, |r.index|)
  }

  lemma {:induction false} MatchesCount(l: Table, lon: seq<nat>, i: nat, r: Table, ron: seq<nat>, n: nat)
    requires l.Valid() && r.Valid() && i < |l.index| && n <= |r.index|
    requires forall c :: 0 <= c < |lon| ==> lon[c] < |l.cols|
    requires forall c :: 0 <= c < |ron| ==> ron[c] < |r.cols|
    ensures |Matches(l, lon, i, r, ron, n)| == MatchCount(l, lon, i, r, ron, n)
  {
    if n > 0 { MatchesCount(l, lon, i, r, ron, n - 1); }
  }

  lemma {:induction false} JoinPairsCount(l: Table, lon: seq<nat>, r: Table, ron: seq<nat>, m: nat)
    requires l.Valid() && r.Valid() && m <= |l.index|
    requires forall c :: 0 <= c < |lon| ==> lon[c] < |l.cols|
    requires forall c :: 0 <= c < |ron| ==> ron[c] < |r.cols|
    ensures |JoinPairs(l, lon, r, ron, m)| == TotalMatches(l, lon, r, ron, m)
  {
    if m > 0 {
      JoinPairsCount(l, lon, r, ron, m - 1);
      MatchesCount(l, lon, m - 1, r, ron, |r.index|);
    }
  }

  /** The merged rows: one per matching pair of a left and a right row, and
      so as many as the matches summed over the left rows; each carries the
      left row's cells and then the right row's. */
  lemma JoinOnRows(l: Table, r: Table, lon: seq<nat>, ron: seq<nat>)
    requires l.Valid() && r.Valid()
    requires forall c :: 0 <= c < |lon| ==> lon[c] < |l.cols|
    requires forall c :: 0 <= c < |ron| ==> ron[c] < |r.cols|
    ensures var t := JoinOn(l, r, lon, ron); var ps := JoinPairs(l, lon, r, ron, |l.index|);
      && |t.index| == |ps| == TotalMatches(l, lon, r, ron, |l.index|)
      && (forall j, p :: 0 <= j < |l.cols| && 0 <= p < |ps| ==> t.cols[j][p] == l.cols[j][ps[p].0])
      && (forall j, p :: 0 <= j < |r.cols| && 0 <= p < |ps| ==> t.cols[|l.cols| + j][p] == r.cols[j][ps[p].1])
  {
    JoinPairsCount(l, lon, r, ron, |l.index|);
  }

  /** A label of the left table is found where it is in the left table; one
      only the right table has is found after all the left labels. */
  lemma FindInAppend(a: seq<string>, b: seq<string>, c: string)
    requires c in a + b
    ensures c in a ==> Find(a + b, c) == Find(a, c)
    ensures c !in a ==> Find(a + b, c) == |a| + Find(b, c)
  {
    var ab := a + b;
    if c in a {
      var k := Find(a, c);
      assert ab[..k] == a[..k];
      FindUnique(ab, c, k);
    } else {
      var k := Find(b, c);
      assert c in b;
      assert ab[..|a| + k] == a + b[..k];
      FindUnique(ab, c, |a| + k);
    }
  }

  /** A column of either side of a merge, seen in the merged table: each
      merged row takes it from the left or the right row of its pair. */
  lemma JoinOnColumn(l: Table, r: Table, lon: seq<nat>, ron: seq<nat>, c: string)
    requires l.Valid() && r.Valid() && (c in l.names || c in r.names)
    requires forall c :: 0 <= c < |lon| ==> lon[c] < |l.cols|
    requires forall c :: 0 <= c < |ron| ==> ron[c] < |r.cols|
    ensures var t := JoinOn(l, r, lon, ron); var ps := JoinPairs(l, lon, r, ron, |l.index|);
      && c in t.names && |t.index| == |ps|
      && (c in l.names ==> forall p :: 0 <= p < |ps| ==> Column(t, c)[p] == Column(l, c)[ps[p].0])
      && (c !in l.names ==> forall p :: 0 <= p < |ps| ==> Column(t, c)[p] == Column(r, c)[ps[p].1])
  {
    JoinOnRows(l, r, lon, ron);
    FindInAppend(l.names, r.names, c);
  }

  /** The rows at positions `ps`, in that order, with their keys. */
  function TakeRows(t: Table, ps: seq<nat>): (r: Table)
    requires t.Valid() && forall p :: 0 <= p < |ps| ==> ps[p] < |t.index|
    ensures r.Valid() && r.key == t.key && r.names == t.names && |r.index| == |ps|
    ensures forall p :: 0 <= p < |ps| ==> r.index[p] == t.index[ps[p]]
    ensures forall j, p :: 0 <= j < |t.cols| && 0 <= p < |ps| ==> r.cols[j][p] == t.cols[j][ps[p]]
  {
    Table(t.key, seq(|ps|, p requires 0 <= p < |ps| => t.index[ps[p]]), t.names,
      seq(|t.cols|, j requires 0 <= j < |t.cols| => seq(|ps|, p requires 0 <= p < |ps| => t.cols[j][ps[p]])))
  }

  /** The positions, in row order, whose row key is `key`. */
  function KeyPositions(index: seq<Cell>, key: Cell): (ps: seq<nat>)
    ensures forall p :: 0 <= p < |ps| ==> ps[p] < |index| && index[ps[p]] == key
    ensures forall p, q :: 0 <= p < q < |ps| ==> ps[p] < ps[q]
    ensures forall i :: 0 <= i < |index| && index[i] == key ==> i in ps
    ensures key !in index ==> ps == []
  {
    if index == [] then []
    else
      var n := |index| - 1;
      var front := KeyPositions(index[..n], key);
      if index[n] == key then front + [n] else front
  }

  /** The positions `.loc[keys]` picks: for each key in turn, every row with
      that key. */
  function LocPositions(index: seq<Cell>, keys: seq<Cell>): (ps: seq<nat>)
    ensures forall p :: 0 <= p < |ps| ==> ps[p] < |index|
  {
    if keys == [] then []
    else LocPositions(index, keys[..|keys| - 1]) + KeyPositions(index, keys[|keys| - 1])
  }

  /** No two rows share a key. */
  predicate DistinctKeys(index: seq<Cell>)
  {
    forall i, j :: 0 <= i < j < |index| ==> index[i] != index[j]
  }

  /** `df.loc[keys]`: the rows with those keys, in the order of `keys`;
      KeyError when a key is not among the row keys. */
  function Loc(t: Table, keys: seq<Cell>): (r: Result<Table>)
    requires t.Valid()
    ensures r.Err? <==> exists k :: k in keys && k !in t.index
    ensures r.Err? ==> r.error == MissingRowLabels
    ensures r.Ok? ==> r.value.Valid() && r.value.key == t.key && r.value.names == t.names
  {
    if exists k :: k in keys && k !in t.index then Err(MissingRowLabels)
    else Ok(TakeRows(t, LocPositions(t.index, keys)))
  }

  /** With distinct row keys, a key that is present picks exactly its row. */
  lemma {:induction false} KeyPositionsDistinct(index: seq<Cell>, key: Cell)
    requires DistinctKeys(index) && key in index
    ensures KeyPositions(index, key) == [IndexOf(index, key)]
  {
    var n := |index| - 1;
    var i := IndexOf(index, key);
    if index[n] == key {
      assert i == n;
      assert key !in index[..n];
    } else {
      assert index == index[..n] + [index[n]];
      assert key in index[..n];
      KeyPositionsDistinct(index[..n], key);
      assert IndexOf(index[..n], key) == i;
    }
  }

  /** With distinct row keys and every key present, `.loc[keys]` returns one
      row per key, in the order asked for. */
  lemma {:induction false} LocPositionsDistinct(index: seq<Cell>, keys: seq<Cell>)
    requires DistinctKeys(index) && forall p :: 0 <= p < |keys| ==> keys[p] in index
    ensures |LocPositions(index, keys)| == |keys|
    ensures forall p :: 0 <= p < |keys| ==> LocPositions(index, keys)[p] == IndexOf(index, keys[p])
  {
    if keys != [] {
      var n := |keys| - 1;
      var ks := keys[..n];
      assert forall p :: 0 <= p < n ==> ks[p] == keys[p];
      LocPositionsDistinct(index, ks);
      KeyPositionsDistinct(index, keys[n]);
      var front := LocPositions(index, ks);
      var all := front + [IndexOf(index, keys[n])];
      assert LocPositions(index, keys) == all;
      assert |front| == n;
      forall p | 0 <= p < |keys| ensures all[p] == IndexOf(index, keys[p]) {
        if p < n {
          assert all[p] == front[p] == IndexOf(index, ks[p]);
        } else {
          assert all[n] == IndexOf(index, keys[n]);
        }
      }
    }
  }

  /** `.loc[keys]` on distinct row keys: row `p` of the result is the row
      keyed `keys[p]`, with all its cells. */
  lemma LocRows(t: Table, keys: seq<Cell>)
    requires t.Valid() && DistinctKeys(t.index) && Loc(t, keys).Ok?
    ensures var r := Loc(t, keys).value;
      && r.index == keys
      && forall j, p :: 0 <= j < |t.cols| && 0 <= p < |keys| ==> r.cols[j][p] == t.cols[j][IndexOf(t.index, keys[p])]
  {
    LocPositionsDistinct(t.index, keys);
  }

  /** The mutable DataFrame that in-place operations change. */
  class DataFrame {
    var key: Option<string>
    var index: seq<Cell>
    var names: seq<string>
    var cols: seq<seq<Cell>>

    /** The frame's current contents. */
    function Value(): Table
      reads this
    {
      Table(key, index, names, cols)
    }

    constructor (t: Table)
      ensures Value() == t
    {
      key, index, names, cols := t.key, t.index, t.names, t.cols;
    }
  }
}
