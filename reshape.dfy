/**
 * The reshaping steps of `main`: library names are normalised by a literal
 * find-and-remove of a pattern, and a long segmentation table is pivoted to
 * a matrix with one row per distinct interval (chr, start, end) and one
 * column per distinct library. A repeated (interval, library) pair makes
 * the pivot fail.
 */
module Reshape {
  import opened Wrappers
  import opened Text
  import opened Ordering
  import opened Params
  import opened Segments
  import opened Seqs

  /** `tf_data['library'].str.replace(pattern, '', regex=False)`. */
  function NormalizeTf<N>(recs: seq<TfRecord<N>>, pattern: string): seq<TfRecord<N>>
  {
    seq(|recs|, k requires 0 <= k < |recs| => recs[k].(library := RemoveAll(recs[k].library, pattern)))
  }

  /** The same replacement on the library column of a long table. */
  function NormalizeRows(rows: seq<LongRow>, pattern: string): seq<LongRow>
  {
    seq(|rows|, k requires 0 <= k < |rows| => rows[k].(library := RemoveAll(rows[k].library, pattern)))
  }

  /**
   * Only the library column changes, row by row and in place; a name is
   * left as it is exactly when the pattern is empty or does not occur in it,
   * and otherwise loses at least one whole occurrence.
   */
  lemma {:induction false} NormalizeRowsEffect(rows: seq<LongRow>, pattern: string)
    ensures |NormalizeRows(rows, pattern)| == |rows|
    ensures forall k :: 0 <= k < |rows| ==>
      var r := NormalizeRows(rows, pattern)[k];
      r.chr == rows[k].chr && r.start == rows[k].start && r.end == rows[k].end && r.value == rows[k].value
    ensures forall k :: 0 <= k < |rows| ==>
      (NormalizeRows(rows, pattern)[k].library == rows[k].library <==> pattern == [] || !Contains(rows[k].library, pattern))
    ensures forall k :: 0 <= k < |rows| && pattern != [] && Contains(rows[k].library, pattern) ==>
      |NormalizeRows(rows, pattern)[k].library| + |pattern| <= |rows[k].library|
  {
    forall k | 0 <= k < |rows| ensures
      NormalizeRows(rows, pattern)[k].library == rows[k].library <==> pattern == [] || !Contains(rows[k].library, pattern)
    {
      RemoveAllUnchangedIff(rows[k].library, pattern);
    }
    forall k | 0 <= k < |rows| && pattern != [] && Contains(rows[k].library, pattern) ensures
      |NormalizeRows(rows, pattern)[k].library| + |pattern| <= |rows[k].library|
    {
      RemoveAllShrinks(rows[k].library, pattern);
    }
  }

  /** The same for the tumour-fraction table: only the library changes, and only where the pattern occurs. */
  lemma {:induction false} NormalizeTfEffect<N>(recs: seq<TfRecord<N>>, pattern: string)
    ensures |NormalizeTf(recs, pattern)| == |recs|
    ensures forall k :: 0 <= k < |recs| ==>
      NormalizeTf(recs, pattern)[k] == recs[k].(library := NormalizeTf(recs, pattern)[k].library)
    ensures forall k :: 0 <= k < |recs| ==>
      (NormalizeTf(recs, pattern)[k].library == recs[k].library <==> pattern == [] || !Contains(recs[k].library, pattern))
  {
    forall k | 0 <= k < |recs| ensures
      NormalizeTf(recs, pattern)[k].library == recs[k].library <==> pattern == [] || !Contains(recs[k].library, pattern)
    {
      RemoveAllUnchangedIff(recs[k].library, pattern);
    }
  }

  /** The pivot's row index: `index=["chr", "start", "end"]`. */
  datatype Interval = Interval(chr: string, start: int, end: int)

  /** A cell of the matrix: an interval and a library column. */
  datatype Key = Key(interval: Interval, library: string)

  function IntervalOf(r: LongRow): Interval
  {
    Interval(r.chr, r.start, r.end)
  }

  function KeyOf(r: LongRow): Key
  {
    Key(IntervalOf(r), r.library)
  }

  /** Intervals are ordered by chr, then start, then end. */
  predicate IntervalLe(a: Interval, b: Interval)
  {
    if a.chr != b.chr then StrLe(a.chr, b.chr)
    else if a.start != b.start then a.start < b.start
    else a.end <= b.end
  }

  /**
   * The wide table: `cells[i][j]` is the value for `intervals[i]` in library
   * `libraries[j]`, or None where the long table has no such row.
   */
  datatype Wide = Wide(intervals: seq<Interval>, libraries: seq<string>, cells: seq<seq<Option<string>>>)

  /**
   * How the pivot step fails: pandas' "Index contains duplicate entries,
   * cannot reshape", naming the repeated pair, or `reset_index`'s "cannot
   * insert <name>, already exists" when a library column is named like an
   * index level.
   */
  datatype PivotError = DuplicateEntry(key: Key) | ColumnExists(name: string)

  /** The names of the index levels `reset_index` turns back into columns. */
  predicate IndexName(name: string)
  {
    name == "chr" || name == "start" || name == "end"
  }

  /**
   * The column `reset_index` fails on: it inserts `end`, then `start`, then
   * `chr` in front of the library columns, and the first of them already
   * among the libraries raises.
   */
  function ClashingColumn(libraries: seq<string>): (c: Option<string>)
    ensures c.None? <==> forall lib :: lib in libraries ==> !IndexName(lib)
    ensures c.Some? ==> IndexName(c.value) && c.value in libraries
  {
    if "end" in libraries then Some("end")
    else if "start" in libraries then Some("start")
    else if "chr" in libraries then Some("chr")
    else None
  }

  function Keys(rows: seq<LongRow>): (r: seq<Key>)
    ensures |r| == |rows| && forall k :: 0 <= k < |rows| ==> r[k] == KeyOf(rows[k])
  {
    seq(|rows|, k requires 0 <= k < |rows| => KeyOf(rows[k]))
  }

  /**
   * The first value that repeats an earlier one, scanning left to right:
   * the uniqueness test of the pivot's index.
   */
  function FirstRepeat<T(==)>(s: seq<T>): (r: Option<T>)
    ensures r.None? <==> Distinct(s)
    ensures r.Some? ==> exists i, j :: 0 <= i < j < |s| && s[i] == r.value && s[j] == r.value
  {
    if s == [] then None
    else
      var init := s[..|s| - 1];
      var last := s[|s| - 1];
      match FirstRepeat(init)
      case Some(x) =>
        assert forall i :: 0 <= i < |init| ==> init[i] == s[i];
        Some(x)
      case None =>
        if last in init then
          var i :| 0 <= i < |init| && init[i] == last;
          assert s[i] == last;
          Some(last)
        else
          assert forall i :: 0 <= i < |init| ==> init[i] == s[i];
          None
  }

  /** The value of the long row at `key`, if there is one. */
  function Lookup(rows: seq<LongRow>, key: Key): (r: Option<string>)
    ensures r.Some? ==> exists k :: 0 <= k < |rows| && KeyOf(rows[k]) == key && rows[k].value == r.value
    ensures r.None? <==> forall k :: 0 <= k < |rows| ==> KeyOf(rows[k]) != key
  {
    if rows == [] then None
    else if KeyOf(rows[0]) == key then Some(rows[0].value)
    else
      var r := Lookup(rows[1..], key);
      assert forall k :: 1 <= k < |rows| ==> rows[k] == rows[1..][k - 1];
      r
  }

  function IntervalsOf(rows: seq<LongRow>): (r: seq<Interval>)
    ensures |r| == |rows| && forall k :: 0 <= k < |rows| ==> r[k] == IntervalOf(rows[k])
  {
    seq(|rows|, k requires 0 <= k < |rows| => IntervalOf(rows[k]))
  }

  function LibrariesOf(rows: seq<LongRow>): (r: seq<string>)
    ensures |r| == |rows| && forall k :: 0 <= k < |rows| ==> r[k] == rows[k].library
  {
    seq(|rows|, k requires 0 <= k < |rows| => rows[k].library)
  }

  /** The row labels of the matrix: the distinct intervals, ascending. */
  function IntervalAxis(rows: seq<LongRow>): seq<Interval>
  {
    SortBy(Dedup(IntervalsOf(rows)), IntervalLe)
  }

  /** The column labels of the matrix: the distinct libraries, ascending. */
  function LibraryAxis(rows: seq<LongRow>): seq<string>
  {
    SortBy(Dedup(LibrariesOf(rows)), StrLe)
  }

  /** One cell per (interval, library) pair of the axes. */
  function Grid(rows: seq<LongRow>, intervals: seq<Interval>, libraries: seq<string>): (g: seq<seq<Option<string>>>)
    ensures |g| == |intervals| && forall i :: 0 <= i < |g| ==> |g[i]| == |libraries|
    ensures forall i, j :: 0 <= i < |intervals| && 0 <= j < |libraries| ==> g[i][j] == Lookup(rows, Key(intervals[i], libraries[j]))
  {
    seq(|intervals|, i requires 0 <= i < |intervals| =>
      seq(|libraries|, j requires 0 <= j < |libraries| => Lookup(rows, Key(intervals[i], libraries[j]))))
  }

  /**
   * `long.pivot(index=["chr", "start", "end"], columns="library", values=...)`
   * followed by `reset_index()`: the distinct intervals and libraries, each
   * in ascending order, and the value of each (interval, library) pair.
   * Fails on a repeated pair, and otherwise on a library named `chr`,
   * `start` or `end`.
   */
  function Pivot(rows: seq<LongRow>): (r: Result<Wide, PivotError>)
    ensures r.Err? <==>
      ((exists i, j :: 0 <= i < j < |rows| && KeyOf(rows[i]) == KeyOf(rows[j]))
       || (exists k :: 0 <= k < |rows| && IndexName(rows[k].library)))
    ensures (r.Err? && r.error.DuplicateEntry?) <==> exists i, j :: 0 <= i < j < |rows| && KeyOf(rows[i]) == KeyOf(rows[j])
    ensures r.Err? && r.error.DuplicateEntry? ==>
      exists i, j :: 0 <= i < j < |rows| && KeyOf(rows[i]) == r.error.key && KeyOf(rows[j]) == r.error.key
    ensures r.Err? && r.error.ColumnExists? ==>
      IndexName(r.error.name) && exists k :: 0 <= k < |rows| && rows[k].library == r.error.name
  {
    match FirstRepeat(Keys(rows))
    case Some(key) => Err(DuplicateEntry(key))
    case None =>
      var libraries := LibraryAxis(rows);
      LibraryAxisMembers(rows);
      match ClashingColumn(libraries)
      case Some(name) => Err(ColumnExists(name))
      case None =>
        var intervals := IntervalAxis(rows);
        Ok(Wide(intervals, libraries, Grid(rows, intervals, libraries)))
  }

  /** A successful pivot has a repetition-free index and is built from the axes. */
  lemma {:induction false} PivotOk(rows: seq<LongRow>, w: Wide)
    requires Pivot(rows) == Ok(w)
    ensures Distinct(Keys(rows))
    ensures w == Wide(IntervalAxis(rows), LibraryAxis(rows), Grid(rows, IntervalAxis(rows), LibraryAxis(rows)))
  {
  }

  lemma {:induction false} IntervalLeTransitive(a: Interval, b: Interval, c: Interval)
    requires IntervalLe(a, b) && IntervalLe(b, c)
    ensures IntervalLe(a, c)
  {
    StrLeReflexive(a.chr);
    StrLeReflexive(b.chr);
    StrLeTransitive(a.chr, b.chr, c.chr);
    if a.chr == c.chr {
      StrLeAntisymmetric(a.chr, b.chr);
    }
  }

  lemma {:induction false} IntervalOrder()
    ensures TotalPreorder(IntervalLe)
  {
    forall a: Interval, b: Interval ensures IntervalLe(a, b) || IntervalLe(b, a) {
      StrLeTotal(a.chr, b.chr);
    }
    forall a: Interval, b: Interval, c: Interval | IntervalLe(a, b) && IntervalLe(b, c) ensures IntervalLe(a, c) {
      IntervalLeTransitive(a, b, c);
    }
  }

  lemma {:induction false} IntervalAxisMembers(rows: seq<LongRow>)
    ensures forall iv :: iv in IntervalAxis(rows) <==> exists k :: 0 <= k < |rows| && IntervalOf(rows[k]) == iv
  {
    var ivs := Dedup(IntervalsOf(rows));
    forall iv ensures iv in IntervalAxis(rows) <==> exists k :: 0 <= k < |rows| && IntervalOf(rows[k]) == iv {
      assert iv in IntervalAxis(rows) <==> iv in multiset(ivs);
      if iv in IntervalsOf(rows) {
        var k :| 0 <= k < |rows| && IntervalsOf(rows)[k] == iv;
      }
    }
  }

  lemma {:induction false} LibraryAxisMembers(rows: seq<LongRow>)
    ensures forall lib :: lib in LibraryAxis(rows) <==> exists k :: 0 <= k < |rows| && rows[k].library == lib
  {
    var libs := Dedup(LibrariesOf(rows));
    forall lib ensures lib in LibraryAxis(rows) <==> exists k :: 0 <= k < |rows| && rows[k].library == lib {
      assert lib in LibraryAxis(rows) <==> lib in multiset(libs);
      if lib in LibrariesOf(rows) {
        var k :| 0 <= k < |rows| && LibrariesOf(rows)[k] == lib;
      }
    }
  }

  /**
   * The matrix's axes: its rows are the distinct intervals of the long
   * table and its columns the distinct libraries, each listed once, in
   * ascending order, and every row has one cell per library.
   */
  lemma {:induction false} PivotShape(rows: seq<LongRow>, w: Wide)
    requires Pivot(rows) == Ok(w)
    ensures |w.cells| == |w.intervals| && forall i :: 0 <= i < |w.cells| ==> |w.cells[i]| == |w.libraries|
    ensures Distinct(w.intervals) && SortedBy(w.intervals, IntervalLe)
    ensures forall iv :: iv in w.intervals <==> exists k :: 0 <= k < |rows| && IntervalOf(rows[k]) == iv
    ensures Distinct(w.libraries) && SortedBy(w.libraries, StrLe)
    ensures forall lib :: lib in w.libraries <==> exists k :: 0 <= k < |rows| && rows[k].library == lib
    ensures forall j :: 0 <= j < |w.libraries| ==> !IndexName(w.libraries[j])
  {
    PivotOk(rows, w);
    var ivs := Dedup(IntervalsOf(rows));
    var libs := Dedup(LibrariesOf(rows));
    IntervalOrder();
    StrOrder();
    SortBySorted(ivs, IntervalLe);
    SortBySorted(libs, StrLe);
    DistinctPermutation(ivs, w.intervals);
    DistinctPermutation(libs, w.libraries);
    IntervalAxisMembers(rows);
    LibraryAxisMembers(rows);
  }

  /** The matrix shows `v` at the row of `key`'s interval and the column of its library. */
  predicate Shows(w: Wide, key: Key, v: Option<string>)
  {
    exists i, j :: 0 <= i < |w.intervals| && 0 <= j < |w.libraries| && i < |w.cells| && j < |w.cells[i]| &&
      w.intervals[i] == key.interval && w.libraries[j] == key.library && w.cells[i][j] == v
  }

  /** Long to wide: every long row is found in the matrix, at its interval's row and its library's column. */
  lemma {:induction false} PivotLongToWide(rows: seq<LongRow>, w: Wide)
    requires Pivot(rows) == Ok(w)
    ensures forall k :: 0 <= k < |rows| ==> Shows(w, KeyOf(rows[k]), Some(rows[k].value))
  {
    forall k | 0 <= k < |rows| ensures Shows(w, KeyOf(rows[k]), Some(rows[k].value)) {
      var i, j := RowCell(rows, w, k);
    }
  }

  /** Where long row `k` sits in the matrix. */
  lemma {:induction false} RowCell(rows: seq<LongRow>, w: Wide, k: nat) returns (i: nat, j: nat)
    requires Pivot(rows) == Ok(w) && k < |rows|
    ensures i < |w.intervals| && j < |w.libraries| && i < |w.cells| && j < |w.cells[i]|
    ensures w.intervals[i] == IntervalOf(rows[k]) && w.libraries[j] == rows[k].library && w.cells[i][j] == Some(rows[k].value)
  {
    PivotOk(rows, w);
    assert IntervalOf(rows[k]) in w.intervals by {
      IntervalAxisMembers(rows);
    }
    assert rows[k].library in w.libraries by {
      LibraryAxisMembers(rows);
    }
    i :| 0 <= i < |w.intervals| && w.intervals[i] == IntervalOf(rows[k]);
    j :| 0 <= j < |w.libraries| && w.libraries[j] == rows[k].library;
    LookupUnique(rows, k);
  }

  /** In a table without repeated pairs, looking up a row's pair finds that row's value. */
  lemma {:induction false} LookupUnique(rows: seq<LongRow>, k: nat)
    requires k < |rows| && Distinct(Keys(rows))
    ensures Lookup(rows, KeyOf(rows[k])) == Some(rows[k].value)
  {
    var cell := Lookup(rows, KeyOf(rows[k]));
    var m :| 0 <= m < |rows| && KeyOf(rows[m]) == KeyOf(rows[k]) && rows[m].value == cell.value;
    assert Keys(rows)[m] == Keys(rows)[k];
  }

  /**
   * Wide to long: a filled cell holds the value of the long row at its
   * interval and library, and an empty cell means the long table has no row
   * there.
   */
  lemma {:induction false} PivotWideToLong(rows: seq<LongRow>, w: Wide)
    requires Pivot(rows) == Ok(w)
    ensures forall i, j :: 0 <= i < |w.intervals| && 0 <= j < |w.libraries| && w.cells[i][j].Some? ==>
      LongRow(w.libraries[j], w.intervals[i].chr, w.intervals[i].start, w.intervals[i].end, w.cells[i][j].value) in rows
    ensures forall i, j :: 0 <= i < |w.intervals| && 0 <= j < |w.libraries| && w.cells[i][j].None? ==>
      forall k :: 0 <= k < |rows| ==> KeyOf(rows[k]) != Key(w.intervals[i], w.libraries[j])
  {
    forall i, j | 0 <= i < |w.intervals| && 0 <= j < |w.libraries| && w.cells[i][j].Some? ensures
      LongRow(w.libraries[j], w.intervals[i].chr, w.intervals[i].start, w.intervals[i].end, w.cells[i][j].value) in rows
    {
      var k :| 0 <= k < |rows| && KeyOf(rows[k]) == Key(w.intervals[i], w.libraries[j]) && rows[k].value == w.cells[i][j].value;
      assert rows[k] == LongRow(w.libraries[j], w.intervals[i].chr, w.intervals[i].start, w.intervals[i].end, w.cells[i][j].value);
    }
  }

  /**
   * Two libraries that normalisation merges break the pivot when they share
   * an interval: their rows become a repeated (interval, library) pair.
   */
  lemma {:induction false} CollisionBreaksPivot(rows: seq<LongRow>, pattern: string, a: nat, b: nat)
    requires a < b < |rows| && IntervalOf(rows[a]) == IntervalOf(rows[b])
    requires RemoveAll(rows[a].library, pattern) == RemoveAll(rows[b].library, pattern)
    ensures Pivot(NormalizeRows(rows, pattern)).Err?
    ensures Pivot(NormalizeRows(rows, pattern)).error.DuplicateEntry?
  {
    var n := NormalizeRows(rows, pattern);
    assert KeyOf(n[a]) == KeyOf(n[b]);
  }
}
