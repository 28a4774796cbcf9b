/**
 * Steps 1 to 4 and 6 of `main`: the tumour-fraction table and the two long
 * segmentation tables (logR and logR_Copy_Number), each with its library
 * names normalised, the two matrices pivoted from the long tables, and the
 * member names of the two optional archives.
 */
module Summary {
  import opened Wrappers
  import opened Text
  import opened Listing
  import opened Params
  import opened TumorFraction
  import opened Segments
  import opened Reshape

  const LogR: string := "logR"
  const CopyNumber: string := "logR_Copy_Number"

  /** The first step that failed, with its error. */
  datatype SummaryError = TfFailed(params: ParamsError) | CnaFailed(choice: string, cna: CnaError) | PivotFailed(choice: string, pivot: PivotError)

  /** The five tables `main` writes. */
  datatype Outputs<N> = Outputs(
    tf: seq<TfRecord<N>>,
    logRLong: seq<LongRow>,
    copyNumberLong: seq<LongRow>,
    logRMatrix: Wide,
    copyNumberMatrix: Wide)

  /** `extract_cna_data(results_dir, choice)` followed by the library-name replacement. */
  function NormalizedCna(samples: seq<Sample>, choice: string, pattern: string): Result<seq<LongRow>, CnaError>
  {
    match CnaTable(samples, choice)
    case Err(e) => Err(e)
    case Ok(t) => Ok(NormalizeRows(t, pattern))
  }

  /** Steps 1 to 4 of `main`, stopping at the first exception. */
  function Summarize<N>(samples: seq<Sample>, pattern: string, parse: string -> Option<N>): Result<Outputs<N>, SummaryError>
  {
    match TfTable(samples, parse)
    case Err(e) => Err(TfFailed(e))
    case Ok(tf) =>
      match NormalizedCna(samples, LogR, pattern)
      case Err(e) => Err(CnaFailed(LogR, e))
      case Ok(logR) =>
        match NormalizedCna(samples, CopyNumber, pattern)
        case Err(e) => Err(CnaFailed(CopyNumber, e))
        case Ok(copyNumber) =>
          match Pivot(logR)
          case Err(e) => Err(PivotFailed(LogR, e))
          case Ok(logRMatrix) =>
            match Pivot(copyNumber)
            case Err(e) => Err(PivotFailed(CopyNumber, e))
            case Ok(copyNumberMatrix) =>
              Ok(Outputs(NormalizeTf(tf, pattern), logR, copyNumber, logRMatrix, copyNumberMatrix))
  }

  /** What data row `row` of file `it` becomes in the normalised long table. */
  function NormalizedTag(it: Item, choice: string, row: SegRow, pattern: string): LongRow
  {
    LongRow(RemoveAll(SegLibrary(it.name), pattern), row.chr, row.start, row.end, CellText(row, ValueColumn(it.name, choice)))
  }

  /** `x` is the normalised long row of a data row of a contributing file in a sample folder. */
  predicate FromFolders(samples: seq<Sample>, choice: string, pattern: string, x: LongRow)
  {
    exists s, it, row :: s in samples && s.isDir && it in s.items && Contributes(it, choice) && row in it.table.rows &&
      x == NormalizedTag(it, choice, row, pattern)
  }

  /**
   * The normalised long table holds exactly the data rows of the
   * contributing files, tagged with their normalised library names.
   */
  lemma {:induction false} NormalizedCnaMembers(samples: seq<Sample>, choice: string, pattern: string, long: seq<LongRow>)
    requires NormalizedCna(samples, choice, pattern) == Ok(long)
    ensures forall x :: x in long <==> FromFolders(samples, choice, pattern, x)
  {
    forall x | x in long ensures FromFolders(samples, choice, pattern, x) {
      LongRowFromFolders(samples, choice, pattern, long, x);
    }
    forall x | FromFolders(samples, choice, pattern, x) ensures x in long {
      FolderRowInLong(samples, choice, pattern, long, x);
    }
  }

  lemma {:induction false} LongRowFromFolders(samples: seq<Sample>, choice: string, pattern: string, long: seq<LongRow>, x: LongRow)
    requires NormalizedCna(samples, choice, pattern) == Ok(long) && x in long
    ensures FromFolders(samples, choice, pattern, x)
  {
    var t := CnaTable(samples, choice).value;
    var collected := CollectCna(samples, choice).value;
    var k :| 0 <= k < |long| && long[k] == x;
    assert t[k] in collected by {
      CnaTableIsSortedCollection(samples, choice, t);
      assert t[k] in multiset(t);
    }
    CollectCnaMembers(samples, choice, collected);
    var s, it :| s in samples && s.isDir && it in s.items && FromFile(t[k], it, choice);
    var m :| 0 <= m < |it.table.rows| && t[k] == Tag(it, choice, it.table.rows[m]);
    assert x == NormalizedTag(it, choice, it.table.rows[m], pattern);
  }

  lemma {:induction false} FolderRowInLong(samples: seq<Sample>, choice: string, pattern: string, long: seq<LongRow>, x: LongRow)
    requires NormalizedCna(samples, choice, pattern) == Ok(long) && FromFolders(samples, choice, pattern, x)
    ensures x in long
  {
    var t := CnaTable(samples, choice).value;
    var collected := CollectCna(samples, choice).value;
    var s, it, row :| s in samples && s.isDir && it in s.items && Contributes(it, choice) && row in it.table.rows &&
      x == NormalizedTag(it, choice, row, pattern);
    var m :| 0 <= m < |it.table.rows| && it.table.rows[m] == row;
    assert Tag(it, choice, row) in collected by {
      assert FromFile(Tag(it, choice, row), it, choice);
      CollectCnaMembers(samples, choice, collected);
    }
    assert Tag(it, choice, row) in t by {
      CnaTableIsSortedCollection(samples, choice, t);
      assert Tag(it, choice, row) in multiset(collected);
    }
    var k :| 0 <= k < |t| && t[k] == Tag(it, choice, row);
    assert long[k] == x;
  }

  /**
   * Matrix `w` agrees with the folders: every filled cell is the value of
   * some data row of a contributing file, at that row's interval and that
   * file's normalised library, and every such data row fills its cell.
   */
  ghost predicate MatrixAgrees(samples: seq<Sample>, choice: string, pattern: string, w: Wide)
  {
    (forall i, j :: 0 <= i < |w.intervals| && 0 <= j < |w.libraries| && i < |w.cells| && j < |w.cells[i]| && w.cells[i][j].Some? ==>
      FromFolders(samples, choice, pattern,
        LongRow(w.libraries[j], w.intervals[i].chr, w.intervals[i].start, w.intervals[i].end, w.cells[i][j].value)))
    && (forall x :: FromFolders(samples, choice, pattern, x) ==> Shows(w, KeyOf(x), Some(x.value)))
  }

  /**
   * A matrix agrees with the folders it was built from: every filled cell
   * is the value of some data row of a contributing file, at that row's
   * interval and that file's normalised library, and every such data row
   * fills its cell.
   */
  lemma {:induction false} MatrixFromFolders(samples: seq<Sample>, choice: string, pattern: string, long: seq<LongRow>, w: Wide)
    requires NormalizedCna(samples, choice, pattern) == Ok(long) && Pivot(long) == Ok(w)
    ensures MatrixAgrees(samples, choice, pattern, w)
  {
    NormalizedCnaMembers(samples, choice, pattern, long);
    PivotWideToLong(long, w);
    PivotLongToWide(long, w);
    forall x | FromFolders(samples, choice, pattern, x) ensures Shows(w, KeyOf(x), Some(x.value)) {
      var k :| 0 <= k < |long| && long[k] == x;
    }
  }

  /**
   * The record folder `q` puts in the renamed tumour-fraction table: its
   * parsed record, under the folder's name with the pattern removed; None
   * when the folder contributes no record.
   */
  function RenamedRecord<N>(q: Sample, pattern: string, parse: string -> Option<N>): Option<TfRecord<N>>
  {
    match SampleRecord(q, parse)
    case Ok(Some(r)) => Some(r.(library := RemoveAll(q.name, pattern)))
    case _ => None
  }

  /**
   * The renamed tumour-fraction table holds one record per qualifying
   * folder, no more and no fewer: each folder's parsed record, renamed, is
   * in it, and each of its records is the renamed record of some folder.
   */
  lemma {:induction false} NormalizedTfFromFolders<N(!new)>(samples: seq<Sample>, pattern: string, parse: string -> Option<N>, t: seq<TfRecord<N>>)
    requires TfTable(samples, parse) == Ok(t)
    ensures |NormalizeTf(t, pattern)| == |Qualifying(samples)|
    ensures forall i :: 0 <= i < |Qualifying(samples)| ==>
      RenamedRecord(Qualifying(samples)[i], pattern, parse).Some? &&
      RenamedRecord(Qualifying(samples)[i], pattern, parse).value in NormalizeTf(t, pattern)
    ensures forall r :: r in NormalizeTf(t, pattern) ==>
      exists i :: 0 <= i < |Qualifying(samples)| && RenamedRecord(Qualifying(samples)[i], pattern, parse) == Some(r)
  {
    TfTableRecordsFromFolders(samples, parse, t);
    RenamedRecordsFromFolders(samples, pattern, parse, t);
    FoldersInRenamedTable(samples, pattern, parse, t);
  }

  lemma {:induction false} RenamedRecordsFromFolders<N(!new)>(samples: seq<Sample>, pattern: string, parse: string -> Option<N>, t: seq<TfRecord<N>>)
    requires TfTable(samples, parse) == Ok(t)
    ensures forall r :: r in NormalizeTf(t, pattern) ==>
      exists i :: 0 <= i < |Qualifying(samples)| && RenamedRecord(Qualifying(samples)[i], pattern, parse) == Some(r)
  {
    TfTableRecordsFromFolders(samples, parse, t);
    var q := Qualifying(samples);
    var n := NormalizeTf(t, pattern);
    forall r | r in n ensures exists i :: 0 <= i < |q| && RenamedRecord(q[i], pattern, parse) == Some(r) {
      var k :| 0 <= k < |n| && n[k] == r;
      assert t[k] in t;
      var i :| 0 <= i < |q| && t[k].library == q[i].name && SampleRecord(q[i], parse) == Ok(Some(t[k]));
      assert RenamedRecord(q[i], pattern, parse) == Some(r);
    }
  }

  lemma {:induction false} FoldersInRenamedTable<N(!new)>(samples: seq<Sample>, pattern: string, parse: string -> Option<N>, t: seq<TfRecord<N>>)
    requires TfTable(samples, parse) == Ok(t)
    ensures forall i :: 0 <= i < |Qualifying(samples)| ==>
      RenamedRecord(Qualifying(samples)[i], pattern, parse).Some? &&
      RenamedRecord(Qualifying(samples)[i], pattern, parse).value in NormalizeTf(t, pattern)
  {
    TfTableIsSortedCollection(samples, parse, t);
    var q := Qualifying(samples);
    var n := NormalizeTf(t, pattern);
    var recs := CollectTf(samples, parse).value;
    CollectTfShape(samples, parse, recs);
    forall i | 0 <= i < |q| ensures RenamedRecord(q[i], pattern, parse).Some? && RenamedRecord(q[i], pattern, parse).value in n {
      assert recs[i] in multiset(t);
      var k :| 0 <= k < |t| && t[k] == recs[i];
      assert n[k] == RenamedRecord(q[i], pattern, parse).value;
    }
  }

  /**
   * What a successful run writes: the tumour-fraction table renamed by the
   * pattern, holding one record per qualifying folder; long tables holding
   * exactly the data rows of the contributing files; and matrices that
   * agree cell by cell with those rows, in both directions.
   */
  lemma {:induction false} SummarizeOutputs<N(!new)>(samples: seq<Sample>, pattern: string, parse: string -> Option<N>, o: Outputs<N>)
    requires Summarize(samples, pattern, parse) == Ok(o)
    ensures TfTable(samples, parse).Ok? && o.tf == NormalizeTf(TfTable(samples, parse).value, pattern)
    ensures |o.tf| == |Qualifying(samples)|
    ensures forall i :: 0 <= i < |Qualifying(samples)| ==>
      RenamedRecord(Qualifying(samples)[i], pattern, parse).Some? &&
      RenamedRecord(Qualifying(samples)[i], pattern, parse).value in o.tf
    ensures forall r :: r in o.tf ==>
      exists i :: 0 <= i < |Qualifying(samples)| && RenamedRecord(Qualifying(samples)[i], pattern, parse) == Some(r)
    ensures forall x :: x in o.logRLong <==> FromFolders(samples, LogR, pattern, x)
    ensures forall x :: x in o.copyNumberLong <==> FromFolders(samples, CopyNumber, pattern, x)
    ensures MatrixAgrees(samples, LogR, pattern, o.logRMatrix)
    ensures MatrixAgrees(samples, CopyNumber, pattern, o.copyNumberMatrix)
  {
    NormalizedTfFromFolders(samples, pattern, parse, TfTable(samples, parse).value);
    MatrixFromFolders(samples, LogR, pattern, o.logRLong, o.logRMatrix);
    MatrixFromFolders(samples, CopyNumber, pattern, o.copyNumberLong, o.copyNumberMatrix);
    NormalizedCnaMembers(samples, LogR, pattern, o.logRLong);
    NormalizedCnaMembers(samples, CopyNumber, pattern, o.copyNumberLong);
  }

  /**
   * The name `zipf.write(path, arcname=name)` stores for an entry: zipfile
   * marks a folder by appending '/' to its name.
   */
  function ArchiveName(it: Item): string
  {
    if it.isDir then it.name + "/" else it.name
  }

  /**
   * `create_params_zip` / `create_cna_seg_zip`: the archive names of the
   * first entry in each sample folder whose name ends with `suffix`, in
   * listing order; folders without one add nothing.
   */
  function ArchiveMembers(samples: seq<Sample>, suffix: string): seq<string>
  {
    if samples == [] then []
    else
      var s := samples[|samples| - 1];
      ArchiveMembers(samples[..|samples| - 1], suffix)
        + (if s.isDir then (match FirstWithSuffix(s.items, suffix) case Some(m) => [ArchiveName(s.items[m])] case None => []) else [])
  }

  /**
   * Either archive holds at most one member per entry of the results
   * directory. Each member's name ends with the suffix, or, for a folder
   * that carries the suffix, with the suffix and the '/' zipfile adds.
   */
  lemma {:induction false} ArchiveMembersEndWith(samples: seq<Sample>, suffix: string)
    ensures |ArchiveMembers(samples, suffix)| <= |samples|
    ensures forall m :: m in ArchiveMembers(samples, suffix) ==> EndsWith(m, suffix) || EndsWith(m, suffix + "/")
    decreases |samples|
  {
    if samples != [] {
      var s := samples[|samples| - 1];
      ArchiveMembersEndWith(samples[..|samples| - 1], suffix);
      if s.isDir && FirstWithSuffix(s.items, suffix).Some? {
        var it := s.items[FirstWithSuffix(s.items, suffix).value];
        if it.isDir {
          EndsWithAppend(it.name, suffix, "/");
        }
      }
    }
  }

  /**
   * The parameter archive holds, in listing order, exactly the entries the
   * tumour-fraction table is read from: one per qualifying folder, its first
   * `.params.txt` entry.
   */
  lemma {:induction false} ParamsArchiveMatchesTable(samples: seq<Sample>)
    ensures |ArchiveMembers(samples, ParamsSuffix)| == |Qualifying(samples)|
    ensures forall i :: 0 <= i < |Qualifying(samples)| ==>
      var q := Qualifying(samples)[i];
      FirstWithSuffix(q.items, ParamsSuffix).Some? &&
      ArchiveMembers(samples, ParamsSuffix)[i] == ArchiveName(q.items[FirstWithSuffix(q.items, ParamsSuffix).value])
    decreases |samples|
  {
    if samples != [] {
      ParamsArchiveMatchesTable(samples[..|samples| - 1]);
    }
  }

  /**
   * When the tumour-fraction table can be read, which `main` needs before
   * it writes any archive, no chosen parameter entry is a folder: the
   * parameter archive holds the plain names of the files the table is read
   * from, each ending with `.params.txt`.
   */
  lemma {:induction false} ParamsArchiveHoldsFiles<N>(samples: seq<Sample>, parse: string -> Option<N>)
    requires CollectTf(samples, parse).Ok?
    ensures |ArchiveMembers(samples, ParamsSuffix)| == |Qualifying(samples)|
    ensures forall i :: 0 <= i < |Qualifying(samples)| ==>
      var q := Qualifying(samples)[i];
      FirstWithSuffix(q.items, ParamsSuffix).Some? &&
      !q.items[FirstWithSuffix(q.items, ParamsSuffix).value].isDir &&
      ArchiveMembers(samples, ParamsSuffix)[i] == q.items[FirstWithSuffix(q.items, ParamsSuffix).value].name &&
      EndsWith(ArchiveMembers(samples, ParamsSuffix)[i], ParamsSuffix)
  {
    ParamsArchiveMatchesTable(samples);
    CollectTfShape(samples, parse, CollectTf(samples, parse).value);
  }
}
