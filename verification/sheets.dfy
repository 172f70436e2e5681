/** `get_rows`: turning a worksheet's cell grid into one record per data row, keyed
    by the lower-cased header row. */
module Sheets {
  import opened Outcomes
  import opened Text
  import opened Dicts
  import opened Cells
  import opened Forms

  /** The worksheet as rows of cell values, the header row first. */
  type Grid = seq<seq<Value>>

  const ExtraData := "extra data"

  /** A header cell: its text lower-cased, or "extra data" when it holds no text. */
  function HeaderName(v: Value): (r: string)
    ensures v.VStr? ==> r == Lower(v.s)
    ensures !v.VStr? ==> r == ExtraData
  {
    match v
    case VStr(s) => Lower(s)
    case _ => ExtraData
  }

  /** The column names taken from the header row. */
  function Headers(header: seq<Value>): (cols: seq<string>)
    ensures |cols| == |header|
    ensures forall j :: 0 <= j < |header| ==> cols[j] == HeaderName(header[j])
  {
    seq(|header|, j requires 0 <= j < |header| => HeaderName(header[j]))
  }

  /** The (column, cell) pairs of one data row, in column order. */
  function Pairs(cols: seq<string>, cells: seq<Value>): (r: seq<(string, Value)>)
    requires |cells| <= |cols|
    ensures |r| == |cells|
    ensures forall j :: 0 <= j < |cells| ==> r[j] == (cols[j], cells[j])
  {
    seq(|cells|, j requires 0 <= j < |cells| => (cols[j], cells[j]))
  }

  /** One record: `new_row[cols[j]] = cell` for every cell, in order. A cell beyond
      the last header raises. */
  function RecordOf(cols: seq<string>, cells: seq<Value>): (r: Result<Record>)
    ensures r.Success? <==> |cells| <= |cols|
    ensures r.Failure? ==> r.error == RowWiderThanHeader
    ensures r.Success? ==> DistinctKeys(r.value)
  {
    if |cells| > |cols| then Failure(RowWiderThanHeader)
    else
      PutAllDistinct([], Pairs(cols, cells));
      Success(PutAll([], Pairs(cols, cells)))
  }

  /** The records of the data rows `rows`, in order. */
  function Records(cols: seq<string>, rows: seq<seq<Value>>): (r: Result<seq<Record>>)
    ensures r.Success? <==> forall i :: 0 <= i < |rows| ==> |rows[i]| <= |cols|
    ensures r.Success? ==> |r.value| == |rows|
    ensures r.Success? ==> forall i :: 0 <= i < |rows| ==> RecordOf(cols, rows[i]) == Success(r.value[i])
  {
    if |rows| == 0 then Success([])
    else
      match RecordOf(cols, rows[0])
      case Failure(e) => Failure(e)
      case Success(rec) =>
        match Records(cols, rows[1..])
        case Failure(e) => Failure(e)
        case Success(rest) =>
          assert forall i :: 0 < i < |rows| ==> rows[1..][i - 1] == rows[i];
          Success([rec] + rest)
  }

  /** `get_rows` on a grid. It fails only on a data row wider than the header;
      otherwise it yields one record per data row. */
  function GetRows(grid: Grid): (r: Result<seq<Record>>)
    ensures r.Success? <==> |grid| == 0 || forall i :: 1 <= i < |grid| ==> |grid[i]| <= |grid[0]|
    ensures r.Success? ==> |r.value| == if |grid| == 0 then 0 else |grid| - 1
    ensures r.Success? ==> forall i :: 0 <= i < |r.value| ==> DistinctKeys(r.value[i])
  {
    if |grid| == 0 then Success([])
    else
      var r := Records(Headers(grid[0]), grid[1..]);
      assert forall i :: 1 <= i < |grid| ==> grid[1..][i - 1] == grid[i];
      r
  }

  /** Column `j` is the last column of the first `width` ones whose header is `name`. */
  predicate LastColumnNamed(header: seq<Value>, width: int, j: int, name: string)
  {
    0 <= j < width <= |header| && HeaderName(header[j]) == name
    && forall j' :: j < j' < width ==> HeaderName(header[j']) != name
  }

  /** Every data row fits under the header, so `get_rows` succeeds. */
  predicate FitsHeader(grid: Grid)
  {
    forall r :: 1 <= r < |grid| ==> |grid[r]| <= |grid[0]|
  }

  /** Data row `i` maps each header to its cell; when headers repeat, the cell of the
      later column wins. */
  lemma GetRowsCell(grid: Grid, i: int, j: int, name: string)
    requires 0 <= i < |grid| - 1 && FitsHeader(grid)
    requires LastColumnNamed(grid[0], |grid[i + 1]|, j, name)
    ensures GetRows(grid).Success? && |GetRows(grid).value| == |grid| - 1
    ensures Lookup(GetRows(grid).value[i], name) == Some(grid[i + 1][j])
  {
    var cols := Headers(grid[0]);
    assert grid[1..][i] == grid[i + 1];
    assert LastWithKey(Pairs(cols, grid[i + 1]), j, name);
    PutAllLast([], Pairs(cols, grid[i + 1]), j, name);
  }

  /** A name that heads none of a data row's columns is absent from its record. */
  lemma GetRowsAbsent(grid: Grid, i: int, name: string)
    requires 0 <= i < |grid| - 1 && FitsHeader(grid)
    requires forall j :: 0 <= j < |grid[i + 1]| ==> HeaderName(grid[0][j]) != name
    ensures GetRows(grid).Success? && |GetRows(grid).value| == |grid| - 1
    ensures Lookup(GetRows(grid).value[i], name) == None
  {
    var cols := Headers(grid[0]);
    assert grid[1..][i] == grid[i + 1];
    PutAllAbsent([], Pairs(cols, grid[i + 1]), name);
  }
}
