/** `DataProcessor`: null-marking of the `\N` placeholder, per-column type
    conversion that survives a TypeError, and concatenation of frames. */
module DataProcessor {
  import opened Base
  import opened Frames

  // ---------------------------------------------------------------------
  // empty_to_nan

  /** Whether a string contains the two characters backslash, N (the regular
      expression `\\N` searched anywhere in the text). */
  predicate HasPlaceholder(s: string)
  {
    exists i :: 0 <= i < |s| - 1 && s[i] == '\\' && s[i + 1] == 'N'
  }

  /** A cell that `empty_to_nan` turns into NA: text containing the placeholder.
      Non-text cells are never matched by the regular expression. */
  predicate IsPlaceholder(c: Cell)
  {
    c.Some? && c.value.Text? && HasPlaceholder(c.value.s)
  }

  /** The frame after `df.replace(r"\\N", pd.NA, regex=True)`: only body cells
      are searched, so the row keys and the labels stay as they were. */
  function NullPlaceholders(t: Table): (r: Table)
    requires t.Valid()
    ensures r.Valid() && r.key == t.key && r.index == t.index && r.names == t.names
    ensures forall j, i :: 0 <= j < |r.cols| && 0 <= i < |r.index| ==> !IsPlaceholder(r.cols[j][i])
    ensures forall j, i :: 0 <= j < |t.cols| && 0 <= i < |t.index| && IsPlaceholder(t.cols[j][i]) ==>
      r.cols[j][i] == None
    ensures forall j, i :: 0 <= j < |t.cols| && 0 <= i < |t.index| && !IsPlaceholder(t.cols[j][i]) ==>
      r.cols[j][i] == t.cols[j][i]
  {
    Table(t.key, t.index, t.names, seq(|t.cols|, j requires 0 <= j < |t.cols| =>
      seq(|t.cols[j]|, i requires 0 <= i < |t.cols[j]| =>
        if IsPlaceholder(t.cols[j][i]) then None else t.cols[j][i])))
  }

  /** Marking the placeholder twice changes nothing the second time. */
  lemma NullPlaceholdersIdempotent(t: Table)
    requires t.Valid()
    ensures NullPlaceholders(NullPlaceholders(t)) == NullPlaceholders(t)
  {
    var r := NullPlaceholders(t);
    var rr := NullPlaceholders(r);
    forall j | 0 <= j < |r.cols| ensures rr.cols[j] == r.cols[j] {
      assert forall i :: 0 <= i < |r.index| ==> rr.cols[j][i] == r.cols[j][i];
    }
  }

  /** `DataProcessor.empty_to_nan(df)`, in place. */
  method EmptyToNan(df: DataFrame)
    requires df.Value().Valid()
    modifies df
    ensures df.Value() == NullPlaceholders(old(df.Value()))
  {
    df.cols := NullPlaceholders(df.Value()).cols;
  }

  // ---------------------------------------------------------------------
  // convert_types

  /** What `astype` may raise: TypeError, which the loop absorbs, or anything
      else, which ends it. */
  datatype Raised = TypeError | OtherError(kind: string)

  /** The outcome of `series.astype(dtype)`. */
  datatype Conversion = Converted(cells: seq<Cell>) | Failed(raised: Raised)

  /** `astype` returns one cell per input cell. */
  ghost predicate KeepsLength(astype: (seq<Cell>, string) -> Conversion)
  {
    forall col, dtype :: astype(col, dtype).Converted? ==> |astype(col, dtype).cells| == |col|
  }

  /** The state of `convert_types`: the frame, the columns reported as not
      convertible (the printed messages), and the exception that stopped the
      loop, if any. */
  datatype Conversions = Conversions(table: Table, reported: seq<string>, raised: Option<Error>)

  /** One turn of the loop body: `df[column] = df[column].astype(dtype)`, a
      printed report on TypeError; a missing column (KeyError) or any other
      exception stops everything. */
  function ConvertStep(s: Conversions, column: string, dtype: string,
                       astype: (seq<Cell>, string) -> Conversion): (r: Conversions)
    requires s.table.Valid() && KeepsLength(astype)
    ensures r.table.Valid() && r.table.names == s.table.names && r.table.index == s.table.index
  {
    if s.raised.Some? then s
    else if column !in s.table.names then s.(raised := Some(KeyError(column)))
    else match astype(Column(s.table, column), dtype)
      case Converted(cells) => s.(table := SetColumn(s.table, column, cells))
      case Failed(TypeError) => s.(reported := s.reported + [column])
      case Failed(OtherError(kind)) => s.(raised := Some(ConversionError(kind)))
  }

  /** The state after the loop has visited `types` in order. */
  function ConvertAll(t: Table, types: seq<(string, string)>,
                      astype: (seq<Cell>, string) -> Conversion): (s: Conversions)
    requires t.Valid() && KeepsLength(astype)
    ensures s.table.Valid() && s.table.names == t.names && s.table.index == t.index
  {
    if types == [] then Conversions(t, [], None)
    else
      var n := |types| - 1;
      ConvertStep(ConvertAll(t, types[..n], astype), types[n].0, types[n].1, astype)
  }

  /** Once an exception other than TypeError has been raised, the remaining
      entries change nothing: the loop has been left. */
  lemma {:induction false} RaisedStopsLoop(t: Table, types: seq<(string, string)>,
                                           astype: (seq<Cell>, string) -> Conversion, i: nat)
    requires t.Valid() && KeepsLength(astype) && i <= |types|
    requires ConvertAll(t, types[..i], astype).raised.Some?
    ensures ConvertAll(t, types, astype) == ConvertAll(t, types[..i], astype)
    decreases |types|
  {
    if i < |types| {
      var n := |types| - 1;
      assert types[..n][..i] == types[..i];
      RaisedStopsLoop(t, types[..n], astype, i);
    } else {
      assert types[..i] == types;
    }
  }

  /** A column that `column_types` does not name keeps its cells. */
  lemma {:induction false} UnlistedColumnUntouched(t: Table, types: seq<(string, string)>,
                                                   astype: (seq<Cell>, string) -> Conversion, d: string)
    requires t.Valid() && KeepsLength(astype) && d in t.names
    requires forall k :: 0 <= k < |types| ==> types[k].0 != d
    ensures Column(ConvertAll(t, types, astype).table, d) == Column(t, d)
  {
    if types != [] {
      var n := |types| - 1;
      UnlistedColumnUntouched(t, types[..n], astype, d);
    }
  }

  /** The columns of `types` whose conversion raises TypeError on the
      original cells: the ones reported. */
  function TypeErrorColumns(t: Table, types: seq<(string, string)>,
                            astype: (seq<Cell>, string) -> Conversion): seq<string>
    requires t.Valid()
    requires forall k :: 0 <= k < |types| ==> types[k].0 in t.names
  {
    if types == [] then []
    else
      var n := |types| - 1;
      TypeErrorColumns(t, types[..n], astype) +
        (if astype(Column(t, types[n].0), types[n].1) == Failed(TypeError) then [types[n].0] else [])
  }

  /** Every listed column exists, none is listed twice, and no conversion
      raises anything but TypeError. */
  ghost predicate AllConvertible(t: Table, types: seq<(string, string)>,
                                 astype: (seq<Cell>, string) -> Conversion)
  {
    && t.Valid() && KeepsLength(astype)
    && (forall k :: 0 <= k < |types| ==> types[k].0 in t.names)
    && (forall k, l :: 0 <= k < l < |types| ==> types[k].0 != types[l].0)
    && (forall k :: 0 <= k < |types| ==>
      (!astype(Column(t, types[k].0), types[k].1).Failed? ||
       astype(Column(t, types[k].0), types[k].1).raised == TypeError))
  }

  /** A prefix of convertible entries is convertible. */
  lemma ConvertiblePrefix(t: Table, types: seq<(string, string)>,
                          astype: (seq<Cell>, string) -> Conversion, n: nat)
    requires AllConvertible(t, types, astype) && n <= |types|
    ensures AllConvertible(t, types[..n], astype)
  {
    assert forall k :: 0 <= k < n ==> types[..n][k] == types[k];
  }

  /** When every listed column exists (a dict has no repeated key) and no
      conversion raises anything but TypeError, the loop runs to the end:
      nothing is raised, exactly the TypeError columns are reported, a
      converted column holds the converted cells and a TypeError column keeps
      its old ones. */
  lemma ConvertAllAbsorbsTypeErrors(t: Table, types: seq<(string, string)>,
                                    astype: (seq<Cell>, string) -> Conversion)
    requires t.Valid() && KeepsLength(astype)
    requires forall k :: 0 <= k < |types| ==> types[k].0 in t.names
    requires forall k, l :: 0 <= k < l < |types| ==> types[k].0 != types[l].0
    requires forall k :: 0 <= k < |types| ==>
      (!astype(Column(t, types[k].0), types[k].1).Failed? ||
       astype(Column(t, types[k].0), types[k].1).raised == TypeError)
    ensures ConvertAll(t, types, astype).raised == None
    ensures ConvertAll(t, types, astype).reported == TypeErrorColumns(t, types, astype)
    ensures forall k :: 0 <= k < |types| ==>
      Column(ConvertAll(t, types, astype).table, types[k].0) ==
        match astype(Column(t, types[k].0), types[k].1)
        case Converted(cells) => cells
        case Failed(_) => Column(t, types[k].0)
  {
    assert AllConvertible(t, types, astype);
    OnlyTypeErrorsReported(t, types, astype);
    ConvertedColumns(t, types, astype);
  }

  /** Under the same conditions nothing is raised and exactly the TypeError
      columns are reported. */
  lemma {:induction false} OnlyTypeErrorsReported(t: Table, types: seq<(string, string)>,
                                                  astype: (seq<Cell>, string) -> Conversion)
    requires AllConvertible(t, types, astype)
    ensures ConvertAll(t, types, astype).raised == None
    ensures ConvertAll(t, types, astype).reported == TypeErrorColumns(t, types, astype)
  {
    if types != [] {
      var n := |types| - 1;
      var front := types[..n];
      ConvertiblePrefix(t, types, astype, n);
      OnlyTypeErrorsReported(t, front, astype);
      var s := ConvertAll(t, front, astype);
      UnlistedColumnUntouched(t, front, astype, types[n].0);
      assert Column(s.table, types[n].0) == Column(t, types[n].0);
    }
  }

  /** Under the same conditions a converted column holds the converted cells
      and a TypeError column keeps its old ones. */
  lemma {:induction false} ConvertedColumns(t: Table, types: seq<(string, string)>,
                                            astype: (seq<Cell>, string) -> Conversion)
    requires AllConvertible(t, types, astype)
    ensures forall k :: 0 <= k < |types| ==>
      Column(ConvertAll(t, types, astype).table, types[k].0) ==
        match astype(Column(t, types[k].0), types[k].1)
        case Converted(cells) => cells
        case Failed(_) => Column(t, types[k].0)
  {
    if types != [] {
      var n := |types| - 1;
      var front := types[..n];
      ConvertiblePrefix(t, types, astype, n);
      ConvertedColumns(t, front, astype);
      OnlyTypeErrorsReported(t, front, astype);
      var s := ConvertAll(t, front, astype);
      UnlistedColumnUntouched(t, front, astype, types[n].0);
      var r := ConvertStep(s, types[n].0, types[n].1, astype);
      assert ConvertAll(t, types, astype) == r;
      forall k | 0 <= k < |types|
        ensures Column(r.table, types[k].0) ==
          match astype(Column(t, types[k].0), types[k].1)
          case Converted(cells) => cells
          case Failed(_) => Column(t, types[k].0)
      {
        StepColumn(s, types[n].0, types[n].1, astype, types[k].0);
        if k < n {
          assert front[k] == types[k] && types[k].0 != types[n].0;
        }
      }
    }
  }

  /** One turn of the loop on a column that exists, with nothing raised yet:
      that column holds the converted cells or, on failure, its old ones;
      every other column is unchanged; a TypeError is reported and absorbed. */
  lemma StepColumn(s: Conversions, column: string, dtype: string,
                   astype: (seq<Cell>, string) -> Conversion, d: string)
    requires s.table.Valid() && KeepsLength(astype) && s.raised == None
    requires column in s.table.names && d in s.table.names
    ensures d != column ==> Column(ConvertStep(s, column, dtype, astype).table, d) == Column(s.table, d)
    ensures Column(ConvertStep(s, column, dtype, astype).table, column) ==
      match astype(Column(s.table, column), dtype)
      case Converted(cells) => cells
      case Failed(_) => Column(s.table, column)
    ensures astype(Column(s.table, column), dtype) == Failed(TypeError) ==>
      ConvertStep(s, column, dtype, astype).reported == s.reported + [column] &&
      ConvertStep(s, column, dtype, astype).raised == None
    ensures astype(Column(s.table, column), dtype).Converted? ==>
      ConvertStep(s, column, dtype, astype).reported == s.reported &&
      ConvertStep(s, column, dtype, astype).raised == None
  {
  }

  /** An entry that ends the loop when it is reached with the original
      cells: its column is missing (KeyError from `df[column]`) or `astype`
      raises something other than TypeError. */
  predicate EntryRaises(t: Table, e: (string, string), astype: (seq<Cell>, string) -> Conversion)
    requires t.Valid()
  {
    e.0 !in t.names || (astype(Column(t, e.0), e.1).Failed? && astype(Column(t, e.0), e.1).raised.OtherError?)
  }

  /** The exception such an entry lets escape. */
  function EntryError(t: Table, e: (string, string), astype: (seq<Cell>, string) -> Conversion): Error
    requires t.Valid() && EntryRaises(t, e, astype)
  {
    if e.0 !in t.names then KeyError(e.0) else ConversionError(astype(Column(t, e.0), e.1).raised.kind)
  }

  /** For the distinct keys of a dict, the loop lets an exception escape
      exactly when some entry is missing or fails with something other than
      TypeError. */
  lemma {:induction false} ConvertAllRaisesIff(t: Table, types: seq<(string, string)>,
                                               astype: (seq<Cell>, string) -> Conversion)
    requires t.Valid() && KeepsLength(astype)
    requires forall k, l :: 0 <= k < l < |types| ==> types[k].0 != types[l].0
    ensures ConvertAll(t, types, astype).raised.Some? <==>
      exists k :: 0 <= k < |types| && EntryRaises(t, types[k], astype)
  {
    if types != [] {
      var n := |types| - 1;
      var front := types[..n];
      assert forall k :: 0 <= k < n ==> front[k] == types[k];
      ConvertAllRaisesIff(t, front, astype);
      var s := ConvertAll(t, front, astype);
      if s.raised.None? {
        assert AllConvertible(t, front, astype);
        if types[n].0 in t.names {
          UnlistedColumnUntouched(t, front, astype, types[n].0);
        }
      }
    }
  }

  /** The first entry that raises decides the outcome: its KeyError or its
      conversion error escapes, the frame is left as the entries before it
      made it, and the reports are the TypeError columns among those. */
  lemma FirstFailureRaises(t: Table, types: seq<(string, string)>,
                           astype: (seq<Cell>, string) -> Conversion, k: nat)
    requires t.Valid() && KeepsLength(astype)
    requires forall i, l :: 0 <= i < l < |types| ==> types[i].0 != types[l].0
    requires k < |types| && EntryRaises(t, types[k], astype)
    requires forall j :: 0 <= j < k ==> !EntryRaises(t, types[j], astype)
    ensures forall j :: 0 <= j < k ==> types[j].0 in t.names
    ensures ConvertAll(t, types, astype) ==
      Conversions(ConvertAll(t, types[..k], astype).table, TypeErrorColumns(t, types[..k], astype),
                  Some(EntryError(t, types[k], astype)))
  {
    var front := types[..k];
    assert AllConvertible(t, front, astype) by {
      assert forall j :: 0 <= j < k ==> front[j] == types[j];
    }
    OnlyTypeErrorsReported(t, front, astype);
    var s := ConvertAll(t, front, astype);
    if types[k].0 in t.names {
      UnlistedColumnUntouched(t, front, astype, types[k].0);
    }
    StepRaises(t, s, types[k], astype);
    var next := types[..k + 1];
    assert next[..k] == front && next[k] == types[k];
    RaisedStopsLoop(t, types, astype, k + 1);
  }

  /** A turn of the loop on an entry that raises, its column (if present)
      still holding the original cells: the entry's exception escapes and
      nothing else changes. */
  lemma StepRaises(t: Table, s: Conversions, e: (string, string), astype: (seq<Cell>, string) -> Conversion)
    requires t.Valid() && s.table.Valid() && KeepsLength(astype)
    requires s.raised == None && s.table.names == t.names && s.table.index == t.index
    requires EntryRaises(t, e, astype)
    requires e.0 in t.names ==> Column(s.table, e.0) == Column(t, e.0)
    ensures ConvertStep(s, e.0, e.1, astype) == s.(raised := Some(EntryError(t, e, astype)))
  {
  }

  /** `DataProcessor.convert_types(df, column_types)`: visits the entries in
      order, converting each column in place; returns the exception that
      escaped (if any) and the columns it reported as not convertible. */
  method ConvertTypes(df: DataFrame, columnTypes: seq<(string, string)>,
                      astype: (seq<Cell>, string) -> Conversion)
    returns (raised: Option<Error>, reported: seq<string>)
    requires df.Value().Valid() && KeepsLength(astype)
    modifies df
    ensures ConvertAll(old(df.Value()), columnTypes, astype) == Conversions(df.Value(), reported, raised)
  {
    reported, raised := [], None;
    var i := 0;
    while i < |columnTypes|
      invariant 0 <= i <= |columnTypes|
      invariant df.Value().Valid()
      invariant ConvertAll(old(df.Value()), columnTypes[..i], astype) == Conversions(df.Value(), reported, None)
    {
      var (column, dtype) := columnTypes[i];
      assert columnTypes[..i + 1][..i] == columnTypes[..i];
      if column !in df.names {
        raised := Some(KeyError(column));
        RaisedStopsLoop(old(df.Value()), columnTypes, astype, i + 1);
        return;
      }
      match astype(Column(df.Value(), column), dtype) {
        case Converted(cells) =>
          df.cols := SetColumn(df.Value(), column, cells).cols;
        case Failed(TypeError) =>
          reported := reported + [column];
        case Failed(OtherError(kind)) =>
          raised := Some(ConversionError(kind));
          RaisedStopsLoop(old(df.Value()), columnTypes, astype, i + 1);
          return;
      }
      i := i + 1;
    }
    assert columnTypes[..i] == columnTypes;
  }

  // ---------------------------------------------------------------------
  // merge

  /** Rows of all frames together. */
  function TotalRows(data: seq<Table>): nat
  {
    if data == [] then 0 else TotalRows(data[..|data| - 1]) + |data[|data| - 1].index|
  }

  /** Labels of all frames, frame after frame. */
  function AllNames(data: seq<Table>): seq<string>
  {
    if data == [] then [] else AllNames(data[..|data| - 1]) + data[|data| - 1].names
  }

  /** Keys of all frames, frame after frame. */
  function AllKeys(data: seq<Table>): seq<Cell>
  {
    if data == [] then [] else AllKeys(data[..|data| - 1]) + data[|data| - 1].index
  }

  /** Columns of all frames, frame after frame. */
  function AllCols(data: seq<Table>): seq<seq<Cell>>
  {
    if data == [] then [] else AllCols(data[..|data| - 1]) + data[|data| - 1].cols
  }

  function Nulls(n: nat): (r: seq<Cell>)
    ensures |r| == n && forall i :: 0 <= i < n ==> r[i] == None
  {
    seq(n, i => None)
  }

  /** The labels of `names` that `seen` lacks, in order. */
  function NewLabels(names: seq<string>, seen: seq<string>): (r: seq<string>)
    ensures forall c :: c in r <==> c in names && c !in seen
  {
    if names == [] then []
    else
      var n := |names| - 1;
      NewLabels(names[..n], seen) + (if names[n] in seen then [] else [names[n]])
  }

  /** `pd.concat([a, b], axis=0)`: rows of `a` then rows of `b`; the columns
      are those of `a` followed by the new ones of `b`, and a frame lacking a
      column contributes NA cells to it. */
  function StackTwo(a: Table, b: Table): (r: Table)
    requires a.Valid() && b.Valid()
    ensures r.Valid() && r.index == a.index + b.index && r.names == a.names + NewLabels(b.names, a.names)
    ensures forall c :: c in r.names <==> c in a.names || c in b.names
  {
    var extra := NewLabels(b.names, a.names);
    var old_cols := seq(|a.cols|, j requires 0 <= j < |a.cols| =>
      a.cols[j] + if a.names[j] in b.names then Column(b, a.names[j]) else Nulls(|b.index|));
    var new_cols := seq(|extra|, k requires 0 <= k < |extra| => Nulls(|a.index|) + Column(b, extra[k]));
    Table(if a.key == b.key then a.key else None, a.index + b.index, a.names + extra, old_cols + new_cols)
  }

  /** Labels of `pd.concat(data, axis=0)`: those of the first frame, then
      each later frame's labels not seen so far, in order. */
  function StackedNames(data: seq<Table>): seq<string>
    requires data != []
  {
    if |data| == 1 then data[0].names
    else
      var front := StackedNames(data[..|data| - 1]);
      front + NewLabels(data[|data| - 1].names, front)
  }

  /** The cells `pd.concat(data, axis=0)` puts under label `c`: each frame's
      column `c`, or NA for a frame without it, frame after frame. */
  function StackedColumn(data: seq<Table>, c: string): (col: seq<Cell>)
    requires forall k :: 0 <= k < |data| ==> data[k].Valid()
    ensures |col| == TotalRows(data)
  {
    if data == [] then []
    else
      var d := data[|data| - 1];
      StackedColumn(data[..|data| - 1], c) + if c in d.names then Column(d, c) else Nulls(|d.index|)
  }

  /** `pd.concat(data, axis=0)`. */
  function StackRows(data: seq<Table>): (r: Table)
    requires data != [] && forall k :: 0 <= k < |data| ==> data[k].Valid()
    ensures r.Valid() && r.index == AllKeys(data) && r.names == StackedNames(data)
    ensures forall c :: c in r.names <==> c in AllNames(data)
  {
    if |data| == 1 then
      assert AllKeys(data) == AllKeys(data[..0]) + data[0].index;
      assert AllNames(data) == AllNames(data[..0]) + data[0].names;
      data[0]
    else
      var n := |data| - 1;
      StackTwo(StackRows(data[..n]), data[n])
  }

  /** `pd.concat(data, axis=1)` for frames sharing one row key: the columns
      of all frames side by side. */
  function SideBySide(data: seq<Table>): (r: Table)
    requires data != [] && forall k :: 0 <= k < |data| ==> data[k].Valid() && data[k].index == data[0].index
    ensures r.Valid() && r.index == data[0].index && r.names == AllNames(data) && r.cols == AllCols(data)
  {
    if |data| == 1 then
      assert AllNames(data) == AllNames(data[..0]) + data[0].names;
      data[0]
    else
      var n := |data| - 1;
      var front := SideBySide(data[..n]);
      assert data[..n][0] == data[0];
      var last := data[n];
      assert last.Valid() && front.index == last.index;
      var cols := front.cols + last.cols;
      forall j | 0 <= j < |cols| ensures |cols[j]| == |front.index| {
        if j >= |front.cols| { assert cols[j] == last.cols[j - |front.cols|]; }
      }
      Table(front.key, front.index, front.names + last.names, cols)
  }

  /** `DataProcessor.merge(axis, *data)`, i.e. `pd.concat(data, axis=axis)`:
      no frames is a ValueError, so is an axis other than 0 (rows) or 1
      (columns, the default). */
  function Merge(axis: int, data: seq<Table>): (r: Result<Table>)
    requires forall k :: 0 <= k < |data| ==> data[k].Valid()
    requires axis == 1 ==> forall k :: 0 <= k < |data| ==> data[k].index == data[0].index
    ensures r.Err? <==> data == [] || (axis != 0 && axis != 1)
    ensures r.Err? ==> r.error == if data == [] then NoObjects else NoAxis(axis)
    ensures r.Ok? ==> r.value.Valid()
    ensures r.Ok? && axis == 0 ==> r.value.index == AllKeys(data) && |r.value.index| == TotalRows(data)
    ensures r.Ok? && axis == 0 ==> r.value.names == StackedNames(data)
    ensures r.Ok? && axis == 0 ==> forall c :: c in r.value.names <==> c in AllNames(data)
    ensures r.Ok? && axis == 0 ==> forall c :: c in AllNames(data) ==> Column(r.value, c) == StackedColumn(data, c)
    ensures r.Ok? && axis == 1 ==> r.value.index == data[0].index && r.value.names == AllNames(data)
    ensures r.Ok? && axis == 1 ==> r.value.cols == AllCols(data)
  {
    if data == [] then Err(NoObjects)
    else if axis == 0 then
      RowCountOfKeys(data);
      forall c | c in AllNames(data) {
        StackRowsColumn(data, c);
      }
      Ok(StackRows(data))
    else if axis == 1 then Ok(SideBySide(data))
    else Err(NoAxis(axis))
  }

  /** Stacking keeps every key, so the row count is the sum of the inputs'. */
  lemma {:induction false} RowCountOfKeys(data: seq<Table>)
    ensures |AllKeys(data)| == TotalRows(data)
  {
    if data != [] { RowCountOfKeys(data[..|data| - 1]); }
  }

  /** Stacking two frames: a column of the first keeps its cells on top and
      takes the second frame's cells of the same label, or NA, below. */
  lemma StackTwoColumn(a: Table, b: Table, c: string)
    requires a.Valid() && b.Valid() && c in a.names
    ensures c in StackTwo(a, b).names
    ensures Column(StackTwo(a, b), c) ==
      Column(a, c) + if c in b.names then Column(b, c) else Nulls(|b.index|)
  {
    var r := StackTwo(a, b);
    var k := Find(a.names, c);
    assert r.names[..k] == a.names[..k];
    FindUnique(r.names, c, k);
  }

  /** Stacking two frames: a label only the second frame has is NA over the
      first frame's rows and the second frame's cells below. */
  lemma StackTwoNewColumn(a: Table, b: Table, c: string)
    requires a.Valid() && b.Valid() && c !in a.names && c in b.names
    ensures c in StackTwo(a, b).names
    ensures Column(StackTwo(a, b), c) == Nulls(|a.index|) + Column(b, c)
  {
    var r := StackTwo(a, b);
    var extra := NewLabels(b.names, a.names);
    FindInAppend(a.names, extra, c);
    var k := Find(extra, c);
    assert r.cols[|a.cols| + k] == Nulls(|a.index|) + Column(b, extra[k]);
  }

  /** A label no frame has is NA all the way down. */
  lemma {:induction false} StackedColumnAbsent(data: seq<Table>, c: string)
    requires forall k :: 0 <= k < |data| ==> data[k].Valid()
    requires c !in AllNames(data)
    ensures StackedColumn(data, c) == Nulls(TotalRows(data))
  {
    if data != [] {
      var n := |data| - 1;
      StackedColumnAbsent(data[..n], c);
    }
  }

  /** Stacking any number of frames: the column of a label is each frame's
      column of that label, or NA for a frame without it, frame after frame. */
  lemma {:induction false} StackRowsColumn(data: seq<Table>, c: string)
    requires data != [] && forall k :: 0 <= k < |data| ==> data[k].Valid()
    requires c in AllNames(data)
    ensures c in StackRows(data).names
    ensures Column(StackRows(data), c) == StackedColumn(data, c)
  {
    var n := |data| - 1;
    var front := data[..n];
    assert AllNames(data) == AllNames(front) + data[n].names;
    if n == 0 {
      assert StackedColumn(data, c) == StackedColumn(front, c) + Column(data[0], c);
    } else {
      assert forall k :: 0 <= k < |front| ==> front[k] == data[k];
      var f := StackRows(front);
      if c in AllNames(front) {
        StackRowsColumn(front, c);
        StackTwoColumn(f, data[n], c);
      } else {
        StackTwoNewColumn(f, data[n], c);
        StackedColumnAbsent(front, c);
        RowCountOfKeys(front);
      }
    }
  }

  /** The first frame's labels come first, in their order. */
  lemma {:induction false} StackedNamesStartWithFirst(data: seq<Table>)
    requires data != []
    ensures data[0].names <= StackedNames(data)
  {
    if |data| > 1 {
      var front := data[..|data| - 1];
      assert front[0] == data[0];
      StackedNamesStartWithFirst(front);
    }
  }
}
