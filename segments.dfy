/**
 * `extract_cna_data`: the long-format segmentation table. Every `.cna.seg`
 * file of every sample folder whose header has the column
 * `<library>.<choice>` contributes one row per data row, and the combined
 * rows are sorted by (library, chr, start, end).
 */
module Segments {
  import opened Wrappers
  import opened Text
  import opened Ordering
  import opened Listing
  import opened Seqs

  const SegSuffix: string := ".cna.seg"

  /** One row of the long table: `[library, chr, start, end, <choice>]`. */
  datatype LongRow = LongRow(library: string, chr: string, start: int, end: int, value: string)

  /** `df.loc[:, ['chr', 'start', 'end', column]]` raised KeyError: the file lacks an interval column. */
  datatype CnaError = MissingIntervalColumn(file: string)

  /** `file_name.replace(".cna.seg", "")`. */
  function SegLibrary(name: string): string
  {
    RemoveAll(name, SegSuffix)
  }

  /** The value column a file is read by: `f"{library}.{choice}"`. */
  function ValueColumn(name: string, choice: string): string
  {
    SegLibrary(name) + "." + choice
  }

  /** The file is a regular `.cna.seg` file whose header has its value column. */
  predicate Contributes(it: Item, choice: string)
  {
    EndsWith(it.name, SegSuffix) && !it.isDir && ValueColumn(it.name, choice) in it.table.header
  }

  /** The long rows built from a table's data rows, tagged with the library. */
  function TagRows(library: string, column: string, rows: seq<SegRow>): (r: seq<LongRow>)
    ensures |r| == |rows|
    ensures forall i :: 0 <= i < |rows| ==>
      r[i] == LongRow(library, rows[i].chr, rows[i].start, rows[i].end, CellText(rows[i], column))
  {
    if rows == [] then []
    else
      [LongRow(library, rows[0].chr, rows[0].start, rows[0].end, CellText(rows[0], column))]
        + TagRows(library, column, rows[1..])
  }

  /** What one entry of a sample folder contributes to the long table. */
  function FileRows(it: Item, choice: string): (r: Result<seq<LongRow>, CnaError>)
    ensures r.Err? <==> Contributes(it, choice) && !(forall c :: c in IntervalColumns ==> c in it.table.header)
    ensures r.Ok? && !Contributes(it, choice) ==> r.value == []
  {
    if !Contributes(it, choice) then Ok([])
    else if !("chr" in it.table.header && "start" in it.table.header && "end" in it.table.header) then
      Err(MissingIntervalColumn(it.name))
    else
      Ok(TagRows(SegLibrary(it.name), ValueColumn(it.name, choice), it.table.rows))
  }

  /** The rows of one sample folder, file by file in listing order; the first failing file aborts. */
  function FolderRows(items: seq<Item>, choice: string): Result<seq<LongRow>, CnaError>
  {
    if items == [] then Ok([])
    else match FolderRows(items[..|items| - 1], choice)
      case Err(e) => Err(e)
      case Ok(rows) =>
        match FileRows(items[|items| - 1], choice)
        case Err(e) => Err(e)
        case Ok(more) => Ok(rows + more)
  }

  /** What one entry of the results directory contributes. */
  function SampleRows(s: Sample, choice: string): Result<seq<LongRow>, CnaError>
  {
    if s.isDir then FolderRows(s.items, choice) else Ok([])
  }

  /** The rows in listing order (`data` before sorting). */
  function CollectCna(samples: seq<Sample>, choice: string): Result<seq<LongRow>, CnaError>
  {
    if samples == [] then Ok([])
    else match CollectCna(samples[..|samples| - 1], choice)
      case Err(e) => Err(e)
      case Ok(rows) =>
        match SampleRows(samples[|samples| - 1], choice)
        case Err(e) => Err(e)
        case Ok(more) => Ok(rows + more)
  }

  /** `sort_values(by=['library', 'chr', 'start', 'end'])`. */
  predicate KeyLe(a: LongRow, b: LongRow)
  {
    if a.library != b.library then StrLe(a.library, b.library)
    else if a.chr != b.chr then StrLe(a.chr, b.chr)
    else if a.start != b.start then a.start < b.start
    else a.end <= b.end
  }

  /** The long table `extract_cna_data` returns for the column choice. */
  function CnaTable(samples: seq<Sample>, choice: string): Result<seq<LongRow>, CnaError>
  {
    match CollectCna(samples, choice)
    case Err(e) => Err(e)
    case Ok(rows) => Ok(SortBy(rows, KeyLe))
  }

  lemma {:induction false} FolderRowsErrPersists(items: seq<Item>, k: nat, choice: string)
    requires k <= |items| && FolderRows(items[..k], choice).Err?
    ensures FolderRows(items, choice) == FolderRows(items[..k], choice)
    decreases |items| - k
  {
    if k < |items| {
      PrefixSnoc(items, k);
      FolderRowsErrPersists(items, k + 1, choice);
    } else {
      PrefixFull(items);
    }
  }

  lemma {:induction false} CollectCnaErrPersists(samples: seq<Sample>, k: nat, choice: string)
    requires k <= |samples| && CollectCna(samples[..k], choice).Err?
    ensures CollectCna(samples, choice) == CollectCna(samples[..k], choice)
    decreases |samples| - k
  {
    if k < |samples| {
      PrefixSnoc(samples, k);
      CollectCnaErrPersists(samples, k + 1, choice);
    } else {
      PrefixFull(samples);
    }
  }

  lemma {:induction false} CollectCnaSnoc(samples: seq<Sample>, k: nat, choice: string, data: seq<LongRow>)
    requires k < |samples|
    requires CollectCna(samples[..k], choice) == Ok(data)
    ensures CollectCna(samples[..k + 1], choice) ==
      match SampleRows(samples[k], choice)
      case Err(e) => Err(e)
      case Ok(more) => Ok(data + more)
  {
    PrefixSnoc(samples, k);
  }

  lemma {:induction false} FolderRowsSnoc(items: seq<Item>, j: nat, choice: string, rows: seq<LongRow>)
    requires j < |items| && FolderRows(items[..j], choice) == Ok(rows)
    ensures FolderRows(items[..j + 1], choice) ==
      match FileRows(items[j], choice)
      case Err(e) => Err(e)
      case Ok(more) => Ok(rows + more)
  {
    PrefixSnoc(items, j);
  }

  /** The inner loop of `extract_cna_data`: every file of one sample folder, in listing order. */
  method ReadFolder(files: seq<Item>, choice: string) returns (res: Result<seq<LongRow>, CnaError>)
    ensures res == FolderRows(files, choice)
  {
    var data: seq<LongRow> := [];
    for j := 0 to |files|
      invariant FolderRows(files[..j], choice) == Ok(data)
    {
      FolderRowsSnoc(files, j, choice, data);
      var rows := FileRows(files[j], choice);
      if rows.Err? {
        FolderRowsErrPersists(files, j + 1, choice);
        return Err(rows.error);
      }
      data := data + rows.value;
    }
    PrefixFull(files);
    return Ok(data);
  }

  /** `extract_cna_data`: the loop over the results directory, extending `data` folder by folder, then the sort. */
  method ExtractCnaData(samples: seq<Sample>, choice: string) returns (res: Result<seq<LongRow>, CnaError>)
    ensures res == CnaTable(samples, choice)
  {
    var data: seq<LongRow> := [];
    for k := 0 to |samples|
      invariant CollectCna(samples[..k], choice) == Ok(data)
    {
      CollectCnaSnoc(samples, k, choice, data);
      if samples[k].isDir {
        var rows := ReadFolder(samples[k].items, choice);
        if rows.Err? {
          CollectCnaErrPersists(samples, k + 1, choice);
          return Err(rows.error);
        }
        data := data + rows.value;
      } else {
        assert data + [] == data;
      }
    }
    PrefixFull(samples);
    res := Ok(SortBy(data, KeyLe));
  }

  lemma {:induction false} KeyOrder()
    ensures TotalPreorder(KeyLe)
  {
    forall a: LongRow, b: LongRow ensures KeyLe(a, b) || KeyLe(b, a) {
      StrLeTotal(a.library, b.library);
      StrLeTotal(a.chr, b.chr);
    }
    forall a: LongRow, b: LongRow, c: LongRow | KeyLe(a, b) && KeyLe(b, c) ensures KeyLe(a, c) {
      KeyLeTransitive(a, b, c);
    }
  }

  lemma {:induction false} KeyLeTransitive(a: LongRow, b: LongRow, c: LongRow)
    requires KeyLe(a, b) && KeyLe(b, c)
    ensures KeyLe(a, c)
  {
    StrLeReflexive(a.library);
    StrLeReflexive(b.library);
    StrLeTransitive(a.library, b.library, c.library);
    if a.library == c.library {
      StrLeAntisymmetric(a.library, b.library);
      StrLeReflexive(a.chr);
      StrLeReflexive(b.chr);
      StrLeTransitive(a.chr, b.chr, c.chr);
      if a.chr == c.chr {
        StrLeAntisymmetric(a.chr, b.chr);
      }
    }
  }

  /** The long table is sorted on (library, chr, start, end) and holds exactly the collected rows, as often as collected. */
  lemma {:induction false} CnaTableIsSortedCollection(samples: seq<Sample>, choice: string, t: seq<LongRow>)
    requires CnaTable(samples, choice) == Ok(t)
    ensures CollectCna(samples, choice).Ok?
    ensures SortedBy(t, KeyLe)
    ensures multiset(t) == multiset(CollectCna(samples, choice).value)
  {
    KeyOrder();
    SortBySorted(CollectCna(samples, choice).value, KeyLe);
  }

  /** The long row a data row of file `it` becomes. */
  function Tag(it: Item, choice: string, row: SegRow): LongRow
  {
    LongRow(SegLibrary(it.name), row.chr, row.start, row.end, CellText(row, ValueColumn(it.name, choice)))
  }

  /** `x` is built from one of the data rows of contributing file `it`. */
  predicate FromFile(x: LongRow, it: Item, choice: string)
  {
    Contributes(it, choice) && exists i :: 0 <= i < |it.table.rows| && x == Tag(it, choice, it.table.rows[i])
  }

  /** A contributing file lacking one of chr, start, end. */
  predicate BadFile(it: Item, choice: string)
  {
    Contributes(it, choice) && !("chr" in it.table.header && "start" in it.table.header && "end" in it.table.header)
  }

  lemma {:induction false} FileRowsMembers(it: Item, choice: string, rows: seq<LongRow>)
    requires FileRows(it, choice) == Ok(rows)
    ensures forall x :: x in rows <==> FromFile(x, it, choice)
  {
    if Contributes(it, choice) {
      forall x | FromFile(x, it, choice) ensures x in rows {
        var i :| 0 <= i < |it.table.rows| && x == Tag(it, choice, it.table.rows[i]);
        assert rows[i] == x;
      }
    }
  }

  lemma {:induction false} FolderRowsMembers(items: seq<Item>, choice: string, rows: seq<LongRow>)
    requires FolderRows(items, choice) == Ok(rows)
    ensures forall x :: x in rows <==> exists it :: it in items && FromFile(x, it, choice)
    decreases |items|
  {
    if items != [] {
      var init := items[..|items| - 1];
      var last := items[|items| - 1];
      var prev := FolderRows(init, choice).value;
      var more := FileRows(last, choice).value;
      FolderRowsMembers(init, choice, prev);
      FileRowsMembers(last, choice, more);
      InitLast(items);
      forall x ensures x in rows <==> exists it :: it in items && FromFile(x, it, choice) {
        if x in rows {
          if x in prev {
            var it :| it in init && FromFile(x, it, choice);
            assert it in items;
          } else {
            assert x in more;
          }
        } else {
          forall it | it in items ensures !FromFile(x, it, choice) {
            if it != last {
              assert it in init;
            }
          }
        }
      }
    }
  }

  /**
   * Nothing is lost or invented: a row is in the collected table exactly
   * when it is the tagged row of some data row of a contributing file in a
   * sample folder.
   */
  lemma {:induction false} CollectCnaMembers(samples: seq<Sample>, choice: string, rows: seq<LongRow>)
    requires CollectCna(samples, choice) == Ok(rows)
    ensures forall x :: x in rows <==>
      exists s, it :: s in samples && s.isDir && it in s.items && FromFile(x, it, choice)
    decreases |samples|
  {
    if samples != [] {
      var init := samples[..|samples| - 1];
      var last := samples[|samples| - 1];
      var prev := CollectCna(init, choice).value;
      var more := SampleRows(last, choice).value;
      CollectCnaMembers(init, choice, prev);
      if last.isDir {
        FolderRowsMembers(last.items, choice, more);
      }
      InitLast(samples);
      forall x ensures x in rows <==> exists s, it :: s in samples && s.isDir && it in s.items && FromFile(x, it, choice) {
        if x in rows {
          if x in prev {
            var s, it :| s in init && s.isDir && it in s.items && FromFile(x, it, choice);
            assert s in samples;
          } else {
            var it :| it in last.items && FromFile(x, it, choice);
          }
        } else {
          forall s, it | s in samples && s.isDir && it in s.items ensures !FromFile(x, it, choice) {
            if s != last {
              assert s in init;
            }
          }
        }
      }
    }
  }

  lemma {:induction false} FolderRowsFailsIff(items: seq<Item>, choice: string)
    ensures FolderRows(items, choice).Err? <==> exists it :: it in items && BadFile(it, choice)
    decreases |items|
  {
    if items != [] {
      var init := items[..|items| - 1];
      FolderRowsFailsIff(init, choice);
      InitLast(items);
      if FolderRows(init, choice).Err? {
        var it :| it in init && BadFile(it, choice);
        assert it in items;
      } else if !BadFile(items[|items| - 1], choice) {
        forall it | it in items ensures !BadFile(it, choice) {
          if it != items[|items| - 1] {
            assert it in init;
          }
        }
      }
    }
  }

  /** Extraction aborts exactly when a contributing file in a sample folder lacks an interval column. */
  lemma {:induction false} CollectCnaFailsIff(samples: seq<Sample>, choice: string)
    ensures CollectCna(samples, choice).Err? <==>
      exists s, it :: s in samples && s.isDir && it in s.items && BadFile(it, choice)
    decreases |samples|
  {
    if samples != [] {
      var init := samples[..|samples| - 1];
      var last := samples[|samples| - 1];
      CollectCnaFailsIff(init, choice);
      FolderRowsFailsIff(last.items, choice);
      InitLast(samples);
      if CollectCna(init, choice).Err? {
        var s, it :| s in init && s.isDir && it in s.items && BadFile(it, choice);
        assert s in samples;
      } else if SampleRows(last, choice).Ok? {
        forall s, it | s in samples && s.isDir && it in s.items ensures !BadFile(it, choice) {
          if s != last {
            assert s in init;
          }
        }
      }
    }
  }
}
