/** `Index.id_to_index`: an identifier column becomes the frame's row key. */
module Index {
  import opened Base
  import opened Frames

  /** The frame after `df.index = df[idCol]` and
      `df.drop(idCol, axis=1, inplace=True)`; KeyError when there is no such
      column. */
  function PromoteKey(t: Table, idCol: string): (r: Result<Table>)
    requires t.Valid()
    ensures r.Err? <==> idCol !in t.names
    ensures r.Err? ==> r.error == KeyError(idCol)
    ensures r.Ok? ==> r.value.Valid()
  {
    if idCol !in t.names then Err(KeyError(idCol))
    else DropColumns(Table(Some(idCol), Column(t, idCol), t.names, t.cols), [idCol])
  }

  /** The row keys are the former values of the id column, row by row, and
      the key takes the column's name. */
  lemma KeysAreFormerIds(t: Table, idCol: string)
    requires t.Valid() && idCol in t.names
    ensures PromoteKey(t, idCol).Ok?
    ensures PromoteKey(t, idCol).value.key == Some(idCol)
    ensures PromoteKey(t, idCol).value.index == Column(t, idCol)
  {
  }

  /** The id column leaves the body; when its label occurs once, the body has
      exactly one column fewer. */
  lemma IdColumnRemoved(t: Table, idCol: string)
    requires t.Valid() && idCol in t.names
    ensures idCol !in PromoteKey(t, idCol).value.names
    ensures (forall i, j :: 0 <= i < j < |t.names| ==> t.names[i] != t.names[j]) ==>
      |PromoteKey(t, idCol).value.names| == |t.names| - 1
  {
    var u := Table(Some(idCol), Column(t, idCol), t.names, t.cols);
    DropKeepsColumns(u, [idCol]);
    if forall i, j :: 0 <= i < j < |t.names| ==> t.names[i] != t.names[j] {
      KeptIndicesOne(t.names, idCol);
    }
  }

  /** The number of rows, and every other column with its cells, are unchanged. */
  lemma OtherColumnsUnchanged(t: Table, idCol: string, d: string)
    requires t.Valid() && idCol in t.names && d in t.names && d != idCol
    ensures |PromoteKey(t, idCol).value.index| == |t.index|
    ensures d in PromoteKey(t, idCol).value.names
    ensures Column(PromoteKey(t, idCol).value, d) == Column(t, d)
  {
    var u := Table(Some(idCol), Column(t, idCol), t.names, t.cols);
    DropKeepsNamedColumn(u, [idCol], d);
  }

  /** `Index.id_to_index(df, id_col)`: re-keys the caller's frame in place and
      returns that same frame; a missing column raises KeyError before anything
      changes. */
  method IdToIndex(df: DataFrame, idCol: string) returns (r: Result<DataFrame>)
    requires df.Value().Valid()
    modifies df
    ensures r.Ok? <==> idCol in old(df.names)
    ensures r.Ok? ==> r.value == df && df.Value() == PromoteKey(old(df.Value()), idCol).value
    ensures r.Err? ==> r.error == KeyError(idCol) && df.Value() == old(df.Value())
  {
    if idCol !in df.names {
      return Err(KeyError(idCol));
    }
    df.key, df.index := Some(idCol), Column(df.Value(), idCol);
    var dropped := DropColumns(df.Value(), [idCol]);
    df.names, df.cols := dropped.value.names, dropped.value.cols;
    r := Ok(df);
  }
}
