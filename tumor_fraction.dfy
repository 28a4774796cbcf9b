/**
 * `extract_tf_data`: one parameter record per sample folder that holds a
 * `.params.txt` file, sorted by library.
 */
module TumorFraction {
  import opened Wrappers
  import opened Text
  import opened Ordering
  import opened Listing
  import opened Params

  const ParamsSuffix: string := ".params.txt"

  /**
   * What one entry of the results directory contributes: nothing (not a
   * folder, or no parameter file in it), the record read from the first
   * parameter file in listing order, or the error that aborts the run.
   */
  function SampleRecord<N>(s: Sample, parse: string -> Option<N>): Result<Option<TfRecord<N>>, ParamsError>
  {
    if !s.isDir then Ok(None)
    else match FirstWithSuffix(s.items, ParamsSuffix)
      case None => Ok(None)
      case Some(i) =>
        if s.items[i].isDir then Err(Unreadable(s.items[i].name))
        else match ParseParams(s.name, s.items[i].lines, parse)
          case Err(e) => Err(e)
          case Ok(r) => Ok(Some(r))
  }

  /** The records in listing order (`data_list` before sorting). */
  function CollectTf<N>(samples: seq<Sample>, parse: string -> Option<N>): Result<seq<TfRecord<N>>, ParamsError>
  {
    if samples == [] then Ok([])
    else match CollectTf(samples[..|samples| - 1], parse)
      case Err(e) => Err(e)
      case Ok(recs) =>
        match SampleRecord(samples[|samples| - 1], parse)
        case Err(e) => Err(e)
        case Ok(None) => Ok(recs)
        case Ok(Some(r)) => Ok(recs + [r])
  }

  /** `sort_values('library')` compares records by library. */
  predicate LibraryLe<N>(a: TfRecord<N>, b: TfRecord<N>)
  {
    StrLe(a.library, b.library)
  }

  /** The parameter table `extract_tf_data` returns. */
  function TfTable<N>(samples: seq<Sample>, parse: string -> Option<N>): Result<seq<TfRecord<N>>, ParamsError>
  {
    match CollectTf(samples, parse)
    case Err(e) => Err(e)
    case Ok(recs) => Ok(SortBy(recs, LibraryLe))
  }

  lemma {:induction false} CollectTfErrPersists<N>(samples: seq<Sample>, k: nat, parse: string -> Option<N>)
    requires k <= |samples| && CollectTf(samples[..k], parse).Err?
    ensures CollectTf(samples, parse) == CollectTf(samples[..k], parse)
    decreases |samples| - k
  {
    if k < |samples| {
      assert samples[..k + 1][..k] == samples[..k];
      CollectTfErrPersists(samples, k + 1, parse);
    } else {
      assert samples[..k] == samples;
    }
  }

  /** The loops of `extract_tf_data` over the results directory and each sample folder. */
  method ExtractTfData<N>(samples: seq<Sample>, parse: string -> Option<N>)
    returns (res: Result<seq<TfRecord<N>>, ParamsError>)
    ensures res == TfTable(samples, parse)
  {
    var dataList: seq<TfRecord<N>> := [];
    for k := 0 to |samples|
      invariant CollectTf(samples[..k], parse) == Ok(dataList)
    {
      assert samples[..k + 1][..k] == samples[..k];
      var sample := samples[k];
      if sample.isDir {
        var items := sample.items;
        var j := 0;
        while j < |items|
          invariant 0 <= j <= |items|
          invariant forall m :: 0 <= m < j ==> !EndsWith(items[m].name, ParamsSuffix)
        {
          if EndsWith(items[j].name, ParamsSuffix) {
            break;
          }
          j := j + 1;
        }
        if j == |items| {
          // no parameter file: the sample is reported and skipped
          continue;
        }
        assert FirstWithSuffix(items, ParamsSuffix) == Some(j);
        if items[j].isDir {
          CollectTfErrPersists(samples, k + 1, parse);
          return Err(Unreadable(items[j].name));
        }
        var rec := ReadParams(sample.name, items[j].lines, parse);
        if rec.Err? {
          CollectTfErrPersists(samples, k + 1, parse);
          return Err(rec.error);
        }
        dataList := dataList + [rec.value];
      }
    }
    assert samples[..|samples|] == samples;
    res := Ok(SortBy(dataList, LibraryLe));
  }

  /** The entries that contribute a record: folders holding a `.params.txt` file. */
  function Qualifying(samples: seq<Sample>): seq<Sample>
  {
    if samples == [] then []
    else
      var s := samples[|samples| - 1];
      Qualifying(samples[..|samples| - 1])
        + (if s.isDir && FirstWithSuffix(s.items, ParamsSuffix).Some? then [s] else [])
  }

  /**
   * Collection in listing order: exactly one record per qualifying folder,
   * whose library is the folder's name and which is read from that folder's
   * first parameter file.
   */
  lemma {:induction false} CollectTfShape<N>(samples: seq<Sample>, parse: string -> Option<N>, recs: seq<TfRecord<N>>)
    requires CollectTf(samples, parse) == Ok(recs)
    ensures |recs| == |Qualifying(samples)|
    ensures forall i :: 0 <= i < |recs| ==>
      recs[i].library == Qualifying(samples)[i].name && SampleRecord(Qualifying(samples)[i], parse) == Ok(Some(recs[i]))
    decreases |samples|
  {
    if samples != [] {
      var init := samples[..|samples| - 1];
      var s := samples[|samples| - 1];
      var prev := CollectTf(init, parse).value;
      CollectTfShape(init, parse, prev);
      if SampleRecord(s, parse) == Ok(None) {
        assert !(s.isDir && FirstWithSuffix(s.items, ParamsSuffix).Some?);
        assert Qualifying(samples) == Qualifying(init);
      } else {
        var r := SampleRecord(s, parse).value.value;
        LastOccurrenceWins(s.name, s.items[FirstWithSuffix(s.items, ParamsSuffix).value].lines, parse, r);
        assert Qualifying(samples) == Qualifying(init) + [s];
      }
    }
  }

  /** The run aborts exactly when some folder's chosen parameter file cannot be read or parsed. */
  lemma {:induction false} CollectTfFailsIff<N>(samples: seq<Sample>, parse: string -> Option<N>)
    ensures CollectTf(samples, parse).Err? <==> exists k :: 0 <= k < |samples| && SampleRecord(samples[k], parse).Err?
    decreases |samples|
  {
    if samples != [] {
      var last := |samples| - 1;
      var init := samples[..last];
      CollectTfFailsIff(init, parse);
      if CollectTf(init, parse).Err? {
        var k :| 0 <= k < |init| && SampleRecord(init[k], parse).Err?;
        assert samples[k] == init[k];
      } else if SampleRecord(samples[last], parse).Ok? {
        forall k | 0 <= k < |samples| ensures SampleRecord(samples[k], parse).Ok? {
          if k < last {
            assert samples[k] == init[k];
          }
        }
      }
    }
  }

  lemma {:induction false} LibraryOrder<N(!new)>()
    ensures TotalPreorder<TfRecord<N>>(LibraryLe)
  {
    forall a: TfRecord<N>, b: TfRecord<N> ensures LibraryLe(a, b) || LibraryLe(b, a) {
      StrLeTotal(a.library, b.library);
    }
    forall a: TfRecord<N>, b: TfRecord<N>, c: TfRecord<N> | LibraryLe(a, b) && LibraryLe(b, c)
      ensures LibraryLe(a, c)
    {
      StrLeTransitive(a.library, b.library, c.library);
    }
  }

  /** The table is sorted ascending by library and holds exactly the collected records. */
  lemma {:induction false} TfTableIsSortedCollection<N(!new)>(samples: seq<Sample>, parse: string -> Option<N>, t: seq<TfRecord<N>>)
    requires TfTable(samples, parse) == Ok(t)
    ensures CollectTf(samples, parse).Ok?
    ensures SortedBy(t, LibraryLe)
    ensures multiset(t) == multiset(CollectTf(samples, parse).value)
  {
    LibraryOrder<N>();
    SortBySorted(CollectTf(samples, parse).value, LibraryLe);
  }

  /**
   * Every record of the parameter table is the record of one qualifying
   * folder, keyed by that folder's name; there are as many records as
   * qualifying folders.
   */
  lemma {:induction false} TfTableRecordsFromFolders<N(!new)>(samples: seq<Sample>, parse: string -> Option<N>, t: seq<TfRecord<N>>)
    requires TfTable(samples, parse) == Ok(t)
    ensures |t| == |Qualifying(samples)|
    ensures forall r :: r in t ==>
      (exists i :: 0 <= i < |Qualifying(samples)| && r.library == Qualifying(samples)[i].name
        && SampleRecord(Qualifying(samples)[i], parse) == Ok(Some(r)))
  {
    TfTableIsSortedCollection(samples, parse, t);
    var recs := CollectTf(samples, parse).value;
    var q := Qualifying(samples);
    CollectTfShape(samples, parse, recs);
    assert |t| == |multiset(t)| == |multiset(recs)| == |recs|;
    forall r | r in t
      ensures exists i :: 0 <= i < |q| && r.library == q[i].name && SampleRecord(q[i], parse) == Ok(Some(r))
    {
      assert r in multiset(recs);
      var i :| 0 <= i < |recs| && recs[i] == r;
    }
  }

  /** Every qualifying folder has its record in the table. */
  lemma {:induction false} TfTableCoversFolders<N(!new)>(samples: seq<Sample>, parse: string -> Option<N>, t: seq<TfRecord<N>>)
    requires TfTable(samples, parse) == Ok(t)
    ensures forall i :: 0 <= i < |Qualifying(samples)| ==>
      (exists r :: r in t && r.library == Qualifying(samples)[i].name)
  {
    TfTableIsSortedCollection(samples, parse, t);
    var recs := CollectTf(samples, parse).value;
    var q := Qualifying(samples);
    CollectTfShape(samples, parse, recs);
    forall i | 0 <= i < |q| ensures exists r :: r in t && r.library == q[i].name {
      assert recs[i] in multiset(t);
    }
  }

  /**
   * Folder names in a directory are distinct, so the order of the table does
   * not depend on which sorting algorithm pandas uses: every arrangement of
   * the records sorted by library is this one.
   */
  lemma {:induction false} TfTableOrderUnique<N(!new)>(samples: seq<Sample>, parse: string -> Option<N>, t: seq<TfRecord<N>>, u: seq<TfRecord<N>>)
    requires TfTable(samples, parse) == Ok(t)
    requires forall i, j :: 0 <= i < j < |samples| ==> samples[i].name != samples[j].name
    requires SortedBy(u, LibraryLe) && multiset(u) == multiset(t)
    ensures u == t
  {
    TfTableIsSortedCollection(samples, parse, t);
    var recs := CollectTf(samples, parse).value;
    assert multiset(t) == multiset(recs);
    assert forall i, j :: 0 <= i < j < |recs| ==> recs[i].library != recs[j].library by {
      CollectTfShape(samples, parse, recs);
      QualifyingNamesDistinct(samples);
    }
    forall x, y | x in t && y in t && Tied(LibraryLe, x, y) ensures x == y {
      assert x in multiset(recs) && y in multiset(recs);
      var i :| 0 <= i < |recs| && recs[i] == x;
      var j :| 0 <= j < |recs| && recs[j] == y;
      StrLeAntisymmetric(x.library, y.library);
    }
    SortedPermutationUnique(t, u, LibraryLe);
  }

  lemma {:induction false} QualifyingNamesDistinct(samples: seq<Sample>)
    requires forall i, j :: 0 <= i < j < |samples| ==> samples[i].name != samples[j].name
    ensures forall q :: q in Qualifying(samples) ==> q in samples
    ensures forall i, j :: 0 <= i < j < |Qualifying(samples)| ==> Qualifying(samples)[i].name != Qualifying(samples)[j].name
    decreases |samples|
  {
    if samples != [] {
      var last := |samples| - 1;
      var init := samples[..last];
      var s := samples[last];
      QualifyingNamesDistinct(init);
      var qi := Qualifying(init);
      assert forall q :: q in init ==> q in samples;
      if s.isDir && FirstWithSuffix(s.items, ParamsSuffix).Some? {
        var q := qi + [s];
        assert Qualifying(samples) == q;
        forall i, j | 0 <= i < j < |q| ensures q[i].name != q[j].name {
          if j == |qi| {
            assert q[i] in init;
            var k :| 0 <= k < |init| && init[k] == q[i];
            assert samples[k] == q[i];
          }
        }
      }
    }
  }
}
