/** Values shared by every module: optional cells, results with the errors the
    pipeline raises, and a few facts about sequences. */
module Base {

  /** A cell or key that may be missing (pandas NA / NaN). */
  datatype Option<+T> = None | Some(value: T)

  /** The outcome of an operation that may raise. */
  datatype Result<+T> = Ok(value: T) | Err(error: Error)

  /** The exceptions the modelled code raises or lets through. */
  datatype Error =
    | KeyError(name: string)         // a column label that is not there
    | MissingRowLabels               // KeyError from .loc: a row key that is not there
    | SeasonNotFound(year: int)      // ValueError "Season ... not found."
    | DriverNotFound(name: string)   // ValueError "Driver ... not found. ..."
    | DuplicateEntries               // ValueError from pivot: an (index, column) pair occurs twice
    | CannotInsert(name: string)     // ValueError from reset_index: the column already exists
    | NoColumns                      // ValueError from .loc enlargement: the frame has no columns
    | NoObjects                      // ValueError from concat: nothing to concatenate
    | NoAxis(axis: int)              // ValueError from concat: no such axis
    | ConversionError(kind: string)  // any non-TypeError exception raised by astype

  /** The set of elements of a sequence. */
  function Elems<T>(s: seq<T>): set<T>
  {
    set x | x in s
  }

  /** The first position of `x` in `s`. */
  function IndexOf<T(==)>(s: seq<T>, x: T): (k: nat)
    requires x in s
    ensures k < |s| && s[k] == x && x !in s[..k]
  {
    if s[0] == x then 0 else 1 + IndexOf(s[1..], x)
  }
}
