/**
 * Spreadsheets as the tools see them after pandas has read them: a sheet is a
 * frame of column names and data rows (the header row is consumed as column
 * names), a cell is either a value or NaN, and a workbook is the ordered
 * mapping from sheet names to frames.
 */
module Frames {
  import opened Wrappers
  import opened Collections

  /** A data frame; `None` is a NaN cell. Rows shorter than the header are padded with NaN. */
  datatype Frame<T> = Frame(columns: seq<string>, rows: seq<seq<Option<T>>>)

  /** `df.iloc[i, j]`, NaN outside a short row. */
  function CellAt<T>(df: Frame<T>, i: nat, j: nat): Option<T>
    requires i < |df.rows|
  {
    if j < |df.rows[i]| then df.rows[i][j] else None
  }

  /** `row[j]` of one row, NaN outside it. */
  function RowCell<T>(row: seq<Option<T>>, j: nat): Option<T> {
    if j < |row| then row[j] else None
  }

  /** `df.empty`: no rows or no columns. */
  predicate IsEmpty<T>(df: Frame<T>) {
    |df.rows| == 0 || |df.columns| == 0
  }

  /** The first position of column `name`, or -1. */
  function ColumnIndex(columns: seq<string>, name: string): (j: int)
    ensures -1 <= j < |columns|
    ensures j == -1 <==> name !in columns
    ensures j >= 0 ==> columns[j] == name && name !in columns[..j]
  {
    if columns == [] then -1
    else if columns[0] == name then 0
    else
      var j := ColumnIndex(columns[1..], name);
      if j == -1 then -1
      else
        assert columns[..j + 1] == [columns[0]] + columns[1..][..j];
        j + 1
  }

  /** The first name in `candidates` that is a column, as in the source's `for col in [...]: if col in df.columns: break`. */
  function FirstPresent(columns: seq<string>, candidates: seq<string>): (r: Option<string>)
    ensures r.None? <==> forall i :: 0 <= i < |candidates| ==> candidates[i] !in columns
    ensures r.Some? ==> r.value in columns
    ensures r.Some? ==> exists i :: 0 <= i < |candidates| && candidates[i] == r.value
                                    && forall k :: 0 <= k < i ==> candidates[k] !in columns
  {
    if candidates == [] then None
    else if candidates[0] in columns then Some(candidates[0])
    else
      var r := FirstPresent(columns, candidates[1..]);
      if r.Some? then
        var i :| 0 <= i < |candidates[1..]| && candidates[1..][i] == r.value
          && forall k :: 0 <= k < i ==> candidates[1..][k] !in columns;
        assert candidates[i + 1] == r.value && forall k :: 0 <= k < i + 1 ==> candidates[k] !in columns;
        r
      else r
  }

  /** A workbook as loaded: sheet names in file order, each with its frame of cell texts. */
  datatype Workbook = Workbook(sheets: Dict<string, Frame<string>>)

  function EmptyWorkbook(): Workbook { Workbook([]) }

  /** `sheets_data.get(name)`. */
  function SheetOf(wb: Workbook, name: string): Option<Frame<string>> {
    Get(wb.sheets, name)
  }

  /** `list(sheets_data.keys())[0] if sheets_data else ""`. */
  function FirstSheetName(wb: Workbook): string {
    if wb.sheets == [] then "" else wb.sheets[0].0
  }
}
