/**
 * `create_sample_yaml.py`: the BAM paths found under a folder are sorted by
 * their base name and written to `samples.yaml` as a `samples:` line
 * followed by one ` <basename>: <path>` line per path.
 */
module Manifest {
  import opened Text
  import opened Ordering

  /** The sort key: paths compare by their base names. */
  predicate BasenameLe(a: string, b: string)
  {
    StrLe(Basename(a), Basename(b))
  }

  /** One `write` call: the `samples:` header or the entry for one path. */
  datatype Line = SamplesLine | Entry(path: string)

  /** The text a line writes: an entry maps the path's base name to the path. */
  function Render(l: Line): string
  {
    match l
    case SamplesLine => "samples:\n"
    case Entry(path) => " " + Basename(path) + ": " + path + "\n"
  }

  /** The entries for `paths`, in order. */
  function Entries(paths: seq<string>): (r: seq<Line>)
    ensures |r| == |paths|
    ensures forall i :: 0 <= i < |paths| ==> r[i] == Entry(paths[i])
  {
    seq(|paths|, i requires 0 <= i < |paths| => Entry(paths[i]))
  }

  /** The order the paths are written in: `bam_files.sort(key=os.path.basename)`. */
  function ManifestOrder(found: seq<string>): seq<string>
  {
    SortBy(found, BasenameLe)
  }

  /** The lines written for paths already in their written order. */
  function Writes(order: seq<string>): seq<Line>
  {
    [SamplesLine] + Entries(order)
  }

  /** The lines written to `samples.yaml`. */
  function ManifestWrites(found: seq<string>): seq<Line>
  {
    Writes(ManifestOrder(found))
  }

  /**
   * The script: copy the discovered paths into a list, sort it by base
   * name, then write the header and one line per path.
   */
  method WriteManifest(found: seq<string>) returns (writes: seq<Line>)
    ensures writes == ManifestWrites(found)
  {
    var bamFiles: seq<string> := [];
    for i := 0 to |found|
      invariant bamFiles == found[..i]
    {
      bamFiles := bamFiles + [found[i]];
    }
    assert found[..|found|] == found;
    bamFiles := SortBy(bamFiles, BasenameLe);
    writes := WriteLines(bamFiles);
  }

  /** The block that writes the file: the header, then one line per path in the given order. */
  method WriteLines(order: seq<string>) returns (writes: seq<Line>)
    ensures writes == Writes(order)
  {
    writes := [SamplesLine];
    for i := 0 to |order|
      invariant |writes| == i + 1 && writes[0] == SamplesLine
      invariant forall k :: 1 <= k <= i ==> writes[k] == Entry(order[k - 1])
    {
      writes := writes + [Entry(order[i])];
    }
    assert forall k :: 1 <= k <= |order| ==> Writes(order)[k] == Entries(order)[k - 1];
  }

  lemma {:induction false} BasenameOrder()
    ensures TotalPreorder(BasenameLe)
  {
    forall a: string, b: string ensures BasenameLe(a, b) || BasenameLe(b, a) {
      StrLeTotal(Basename(a), Basename(b));
    }
    forall a: string, b: string, c: string | BasenameLe(a, b) && BasenameLe(b, c) ensures BasenameLe(a, c) {
      StrLeTransitive(Basename(a), Basename(b), Basename(c));
    }
  }

  /**
   * The written order is the discovered paths, each exactly as often as
   * found, in non-decreasing base-name order; paths sharing a base name
   * keep their discovery order.
   */
  lemma {:induction false} ManifestOrderFacts(found: seq<string>)
    ensures multiset(ManifestOrder(found)) == multiset(found)
    ensures SortedBy(ManifestOrder(found), BasenameLe)
    ensures forall y :: Peers(ManifestOrder(found), y, BasenameLe) == Peers(found, y, BasenameLe)
  {
    BasenameOrder();
    SortBySorted(found, BasenameLe);
    forall y ensures Peers(ManifestOrder(found), y, BasenameLe) == Peers(found, y, BasenameLe) {
      SortByStable(found, y, BasenameLe);
    }
  }

  /**
   * The file starts with the line `samples:` and has one further line per
   * discovered path, no more and no fewer: the i-th of them is keyed by the
   * base name of the i-th path of the written order and maps it to that path.
   */
  lemma {:induction false} ManifestLines(found: seq<string>)
    ensures |ManifestWrites(found)| == |found| + 1
    ensures ManifestWrites(found)[0] == SamplesLine
    ensures forall i :: 0 <= i < |found| ==>
      ManifestWrites(found)[i + 1] == Entry(ManifestOrder(found)[i])
  {
    WritesLayout(ManifestOrder(found));
  }

  lemma {:induction false} WritesLayout(order: seq<string>)
    ensures |Writes(order)| == |order| + 1
    ensures Writes(order)[0] == SamplesLine
    ensures forall i :: 0 <= i < |order| ==> Writes(order)[i + 1] == Entry(order[i])
  {
    assert forall i :: 0 <= i < |order| ==> Writes(order)[i + 1] == Entries(order)[i];
  }

  /**
   * Every line after the header is an entry, and the entries' keys (the
   * base names of their paths) are in non-decreasing order.
   */
  lemma {:induction false} ManifestKeysSorted(found: seq<string>)
    ensures forall i :: 1 <= i < |ManifestWrites(found)| ==> ManifestWrites(found)[i].Entry?
    ensures forall i, j :: 1 <= i < j < |ManifestWrites(found)| ==>
      StrLe(Basename(ManifestWrites(found)[i].path), Basename(ManifestWrites(found)[j].path))
  {
    ManifestLines(found);
    ManifestOrderFacts(found);
  }
}
