/** `F1Data`: one dataset loaded into a frame, keyed by its identifier column
    (or by position), with the `\N` placeholders turned into NA. The CSV
    loader is not part of this model: the loaded table is an input. */
module F1Data {
  import opened Base
  import opened Frames
  import Index
  import DataProcessor

  /** The label of the column added when a dataset has no identifier. */
  const PositionColumn := "index"

  /** The frame `F1Data.__init__` leaves behind for a loaded table `raw`:
      re-keyed by `idName`, or given an `index` column holding the row keys,
      and then null-marked. */
  function Prepared(raw: Table, idName: Option<string>): (r: Result<Table>)
    requires raw.Valid()
    ensures r.Ok? ==> r.value.Valid()
  {
    var keyed := match idName
      case Some(c) => Index.PromoteKey(raw, c)
      case None => Ok(SetColumn(raw, PositionColumn, raw.index));
    match keyed
    case Err(e) => Err(e)
    case Ok(t) => Ok(DataProcessor.NullPlaceholders(t))
  }

  /** With an identifier: KeyError when the column is missing; otherwise the
      rows are keyed by the id values exactly as loaded (null-marking runs
      after re-keying and never touches keys), and the id is no longer a body
      column. */
  lemma PreparedWithId(raw: Table, c: string)
    requires raw.Valid()
    ensures Prepared(raw, Some(c)).Err? <==> c !in raw.names
    ensures Prepared(raw, Some(c)).Err? ==> Prepared(raw, Some(c)).error == KeyError(c)
    ensures Prepared(raw, Some(c)).Ok? ==>
      && Prepared(raw, Some(c)).value.key == Some(c)
      && Prepared(raw, Some(c)).value.index == Column(raw, c)
      && c !in Prepared(raw, Some(c)).value.names
  {
    if c in raw.names {
      Index.KeysAreFormerIds(raw, c);
      Index.IdColumnRemoved(raw, c);
    }
  }

  /** Without an identifier: a column `index` holds row i's position i (for
      a freshly loaded, positionally keyed table), and the rows keep their
      keys. */
  lemma PreparedPositional(raw: Table)
    requires raw.Valid() && raw.index == Positions(|raw.index|)
    ensures Prepared(raw, None).Ok?
    ensures Prepared(raw, None).value.index == raw.index
    ensures PositionColumn in Prepared(raw, None).value.names
    ensures forall i :: 0 <= i < |raw.index| ==>
      Column(Prepared(raw, None).value, PositionColumn)[i] == Some(Int(i))
  {
    var t := SetColumn(raw, PositionColumn, raw.index);
    var r := Prepared(raw, None).value;
    assert r == DataProcessor.NullPlaceholders(t);
    var k := Find(t.names, PositionColumn);
    forall i | 0 <= i < |raw.index| ensures Column(r, PositionColumn)[i] == Some(Int(i)) {
      assert t.cols[k][i] == Some(Int(i));
      assert !DataProcessor.IsPlaceholder(t.cols[k][i]);
    }
  }

  /** After construction no body cell holds the placeholder. */
  lemma PreparedHasNoPlaceholder(raw: Table, idName: Option<string>)
    requires raw.Valid() && Prepared(raw, idName).Ok?
    ensures forall j, i ::
      (0 <= j < |Prepared(raw, idName).value.cols| && 0 <= i < |Prepared(raw, idName).value.index|) ==>
        !DataProcessor.IsPlaceholder(Prepared(raw, idName).value.cols[j][i])
  {
  }

  /** One loaded dataset. */
  class F1Data {
    var data: DataFrame

    constructor (df: DataFrame)
      ensures data == df
    {
      data := df;
    }

    /** `get_data`: the stored frame itself. */
    method GetData() returns (d: DataFrame)
      ensures d == data
    {
      d := data;
    }

    /** `get_selected_columns(*args)`: exactly the named columns, in that
        order, with every row and cell unchanged; KeyError for a name that is
        not a column. */
    function GetSelectedColumns(want: seq<string>): (r: Result<Table>)
      reads this, data
      requires data.Value().Valid()
      ensures r.Err? <==> exists c :: c in want && c !in data.names
      ensures r.Ok? ==> r.value.Valid() && r.value.names == want && r.value.index == data.index
      ensures r.Ok? ==> forall k :: 0 <= k < |want| ==> r.value.cols[k] == Column(data.Value(), want[k])
    {
      Select(data.Value(), want)
    }
  }

  /** `F1Data(filename, id_name)` for the table the loader returned: the new
      object holds a new frame, changed step by step as `__init__` does;
      KeyError (and no object) when the identifier column is missing. */
  method Load(raw: Table, idName: Option<string>) returns (r: Result<F1Data>)
    requires raw.Valid()
    ensures r.Err? <==> Prepared(raw, idName).Err?
    ensures r.Err? ==> r.error == Prepared(raw, idName).error
    ensures r.Ok? ==> fresh(r.value) && fresh(r.value.data)
    ensures r.Ok? ==> r.value.data.Value() == Prepared(raw, idName).value
  {
    var df := new DataFrame(raw);
    match idName {
      case Some(c) =>
        var keyed := Index.IdToIndex(df, c);
        if keyed.Err? {
          return Err(keyed.error);
        }
      case None =>
        var t := SetColumn(df.Value(), PositionColumn, df.index);
        df.names, df.cols := t.names, t.cols;
    }
    DataProcessor.EmptyToNan(df);
    var d := new F1Data(df);
    r := Ok(d);
  }
}
