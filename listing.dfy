/**
 * The results directory as the aggregator sees it. `os.listdir` becomes a
 * sequence in listing order; a file is given both as its text lines (how a
 * parameter file is read) and as the table `pd.read_csv(..., sep="\t")`
 * makes of it (how a segmentation file is read).
 */
module Listing {
  import opened Wrappers
  import opened Text

  /** One data row of a segmentation table: the interval columns, typed, and the other columns' cells by name. */
  datatype SegRow = SegRow(chr: string, start: int, end: int, cells: map<string, string>)

  datatype SegTable = SegTable(header: seq<string>, rows: seq<SegRow>)

  /** An entry of a sample folder. */
  datatype Item = Item(name: string, isDir: bool, lines: seq<string>, table: SegTable)

  /** An entry of the results directory. */
  datatype Sample = Sample(name: string, isDir: bool, items: seq<Item>)

  /** The three interval columns a segmentation table is read by. */
  const IntervalColumns: seq<string> := ["chr", "start", "end"]

  /** The text of a row's cell in `column`; a field the line leaves out reads as empty, as read_csv fills it with NaN. */
  function CellText(row: SegRow, column: string): string
  {
    if column in row.cells then row.cells[column] else ""
  }

  /** The position of the first entry, in listing order, whose name ends with `suffix`. */
  function FirstWithSuffix(items: seq<Item>, suffix: string): (r: Option<nat>)
    ensures r.Some? ==> r.value < |items| && EndsWith(items[r.value].name, suffix)
    ensures r.Some? ==> forall m :: 0 <= m < r.value ==> !EndsWith(items[m].name, suffix)
    ensures r.None? <==> forall m :: 0 <= m < |items| ==> !EndsWith(items[m].name, suffix)
  {
    if items == [] then None
    else if EndsWith(items[0].name, suffix) then Some(0)
    else match FirstWithSuffix(items[1..], suffix)
      case None => None
      case Some(i) => Some(i + 1)
  }
}
