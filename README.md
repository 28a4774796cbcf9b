# ichorCNA results summary and sample manifest, in Dafny

This project models two scripts from a copy-number pipeline built on ichorCNA.
The first is the results aggregator, `scripts/snakemake/ichorCNA_results_summary.py`.
The second is the sample-manifest writer, `scripts/snakemake/config/create_sample_yaml.py`.

The aggregator works over a results directory with one folder per sample. It does the following:

- **Tumour-fraction table** (`extract_tf_data`).
  - In each sample folder it reads the first `.params.txt` file in listing order.
  - It parses that file line by line into a record of six columns. Five labels are tested by substring in a fixed priority order. The value is the text between the first colon and the second one (or the end of the line), trimmed: `split(":")[1].strip()`. "NA" means missing for the numeric fields; Gender keeps the text as it is. A later line overrides an earlier one.
  - It sorts the records by library.
- **Long segmentation tables** (`extract_cna_data`).
  - Every `.cna.seg` file whose header has the column `<library>.<choice>` contributes one row `[library, chr, start, end, value]` per data row.
  - The rows are sorted by (library, chr, start, end).
  - This is done once for `logR` and once for `logR_Copy_Number`.
- **Library-name normalisation.** A pattern is deleted from every library name with a literal `str.replace(pattern, '')`.
- **Matrices.** Each long table is pivoted into a matrix with one row per distinct interval and one column per distinct library. A repeated (interval, library) pair makes the pivot fail. So does a library named `chr`, `start` or `end`: `reset_index()` cannot insert the index level of that name as a column beside it.
- **Archives.** Optionally, two archives are written, holding the first parameter file and the first segmentation file of each folder.

The manifest writer sorts the discovered BAM paths by base name. It then writes `samples:` followed by one ` <basename>: <path>` line per path.

## How the model is built

The model has one module per concern:

| module | file | concerns |
|---|---|---|
| `Wrappers` | `wrappers.dfy` | `Option` and `Result` |
| `Seqs` | `seqs.dfy` | prefix facts, distinctness, de-duplication |
| `Text` | `text.dfy` | `str.strip`, `str.split`, `in`, `str.endswith`, `str.replace(p, '')` and `os.path.basename`, as Python defines them |
| `Ordering` | `ordering.dfy` | Python's string order and one stable insertion sort `SortBy`, parameterised by a comparison |
| `Listing` | `listing.dfy` | the results directory as a value; the first-match rule |
| `Params` | `params.dfy` | the parameter-file line parser |
| `TumorFraction` | `tumor_fraction.dfy` | `extract_tf_data` |
| `Segments` | `segments.dfy` | `extract_cna_data` |
| `Reshape` | `reshape.dfy` | normalisation and the pivot |
| `Summary` | `summary.dfy` | steps 1 to 4 and 6 of `main` composed |
| `Manifest` | `manifest.dfy` | `create_sample_yaml.py` |

**The directory.** A directory listing is a sequence in listing order, and an entry knows whether it is a folder. A file is given twice:
- as its text lines, which is how a parameter file is read;
- as the table `pd.read_csv(..., sep="\t")` makes of it, which is how a segmentation file is read. That table is a header plus rows. Each row has typed `chr`, `start` and `end` and the other cells by column name.

**Numbers.** `float(value)` is a parameter `parse: string -> Option<N>`. It answers None where Python raises. Segment values are kept as their text.

**Loops.** The loops of the scripts are methods with loop invariants: `ReadParams`, `ExtractTfData`, `ReadFolder`, `ExtractCnaData`, `WriteManifest` and `WriteLines`. Each ensures that its result equals a specification function that folds over the listing from its end. The properties are proved about those functions. The whole-table steps in `main` are functions.

**Sorting.** The model has one stable sort, `Ordering.SortBy`. It proves the sort is:
- sorted;
- a permutation of its input;
- stable.

It also proves that a sorted permutation is unique when no two elements tie. The three sorts in the scripts use it as follows:
- **`list.sort(key=os.path.basename)` in the manifest writer.** This sort is stable, as the model's is.
- **`sort_values(by=['library', 'chr', 'start', 'end'])` (line 133).** pandas sorts on several keys with a lexicographic indexer, which is stable, so tied rows keep their collection order in both.
- **`sort_values('library')` (line 90).** This sorts on one key with quicksort, which is not stable. It does not matter here. Folder names in one directory are distinct, so no two records tie, and `TumorFraction.TfTableOrderUnique` proves that every sorted arrangement of the records is the same table.

## Points where the code does more or less than it appears to

The model follows the code in each case:

- **Gender "NA".** "NA" is mapped to a missing value only in the four numeric branches (lines 75-86). The Gender branch (line 74) stores the text as it is, so Gender keeps `NA`.
- **Labels.** A label is tested with `in` (lines 73-84), so it matches anywhere in the stripped line, not only at its start.
- **Library names.** `file_name.replace(".cna.seg", "")` (line 114) deletes every occurrence of `.cna.seg`, not just the trailing one.
- **File choice.** Each folder contributes its first `.params.txt` file in listing order (lines 60-63), however many it holds (`Listing.FirstWithSuffix`).
- **Archives.** The docstrings of `create_params_zip` and `create_cna_seg_zip` (lines 140 and 162) speak of "all" such files. Their loops `break` after the first match in each folder (lines 155 and 177), so each archive holds at most one member per folder (`Summary.ArchiveMembers`).
- **Pivot collisions.** (library, chr, start, end) need not be unique in a long table. It repeats in three cases:
  - normalisation merges two library names;
  - two contributing `.cna.seg` files give the same library name. Examples are one file name in two sample folders, or `x.cna.seg` next to `x.cna.seg.cna.seg`;
  - one file repeats an interval.

  When such rows share an interval, pandas' pivot raises, and the model returns `DuplicateEntry` (`Reshape.Pivot`, `Reshape.CollisionBreaksPivot`).
- **Library names that clash with the index.** `reset_index()` (lines 222 and 227) inserts `end`, `start` and `chr` as columns in front of the library columns, and raises when a library column already has that name. A file `end.cna.seg` with a column `end.logR` is one such input. The model returns `ColumnExists` (`Reshape.Pivot`).

## Model

| member | source | states |
|---|---|---|
| Listing.FirstWithSuffix | scripts/snakemake/ichorCNA_results_summary.py:60-63 | the chosen file is the first in listing order whose name ends with the suffix; none is chosen exactly when no name ends with it |
| Text.StripLeft | scripts/snakemake/ichorCNA_results_summary.py:72 | the result is a suffix of the input; what was dropped is all whitespace; the result does not start with whitespace |
| Text.StripRight | scripts/snakemake/ichorCNA_results_summary.py:72 | the result is a prefix of the input; what was dropped is all whitespace; the result does not end with whitespace |
| Text.StripRecoversCore | scripts/snakemake/ichorCNA_results_summary.py:72 | stripping whitespace-padded text with no whitespace at its ends gives back exactly that text, so the strip is unique |
| Text.StripIdempotent | scripts/snakemake/ichorCNA_results_summary.py:72-74 | stripping a stripped value changes nothing |
| Text.Split | scripts/snakemake/ichorCNA_results_summary.py:74 | there is always a first field; a second field exists exactly when the separator occurs; no field contains the separator |
| Text.JoinSplit | scripts/snakemake/ichorCNA_results_summary.py:74 | joining the fields with the separator gives back the original text |
| Text.SecondFieldBetweenSeparators | scripts/snakemake/ichorCNA_results_summary.py:74 | field 1 is the text between the first separator and the next one, or the end |
| Text.RemoveAllUnchangedIff | scripts/snakemake/ichorCNA_results_summary.py:208 | `replace(pattern, '')` leaves a name unchanged exactly when the pattern is empty or does not occur in the name |
| Text.RemoveAllShrinks | scripts/snakemake/ichorCNA_results_summary.py:208 | when the pattern occurs, at least one whole occurrence is removed |
| Text.RemoveAllAtFirst | scripts/snakemake/ichorCNA_results_summary.py:208 | `replace(pattern, '')` cuts the pattern out at its first occurrence and goes on scanning after it; with `RemoveAllAbsent`, this removes every non-overlapping occurrence, found left to right |
| Text.Basename | scripts/snakemake/config/create_sample_yaml.py:22 | the base name contains no '/' |
| Text.BasenameIsLastComponent | scripts/snakemake/config/create_sample_yaml.py:30 | the base name is the end of the path: all of it, or what follows a '/' |
| Ordering.StrLeTotal | scripts/snakemake/ichorCNA_results_summary.py:90 | Python's string order compares any two strings |
| Ordering.StrLeTransitive | scripts/snakemake/ichorCNA_results_summary.py:90 | Python's string order is transitive |
| Ordering.StrLeAntisymmetric | scripts/snakemake/ichorCNA_results_summary.py:90 | two strings that sort no later than each other are equal |
| Ordering.SortBy | scripts/snakemake/ichorCNA_results_summary.py:90 | the sort returns a permutation of its input: every element as often as before |
| Ordering.SortBySorted | scripts/snakemake/ichorCNA_results_summary.py:133 | under a total preorder the sorted sequence is in non-decreasing order |
| Ordering.SortByStable | scripts/snakemake/config/create_sample_yaml.py:22 | elements that tie keep their relative order |
| Ordering.SortedPermutationUnique | scripts/snakemake/ichorCNA_results_summary.py:90 | two sorted permutations of the same elements are equal when no two distinct elements tie |
| Params.Classify | scripts/snakemake/ichorCNA_results_summary.py:73-86 | a line sets the field of the first label it contains, in the order Gender, Tumor Fraction, Ploidy, ChrY coverage fraction, ChrX median log ratio; it contains none of the earlier labels; it sets nothing exactly when it contains no label |
| Params.ClassifiedHasColon | scripts/snakemake/ichorCNA_results_summary.py:73-85 | a line that sets a field has a colon, so `split(":")[1]` cannot fail |
| Params.ValueTextBetweenColons | scripts/snakemake/ichorCNA_results_summary.py:74-85 | the value is the text between the first colon and the second one (or the end), trimmed; text after a second colon is dropped |
| Params.ReadParams | scripts/snakemake/ichorCNA_results_summary.py:69-86 | the line loop returns the record the lines build, or the error of the first failing line |
| Params.ApplyFieldEffect | scripts/snakemake/ichorCNA_results_summary.py:73-86 | a field update changes only that field: Gender takes the text as is, "NA" included; a numeric field becomes missing on "NA" and the parsed number otherwise |
| Params.ApplyLineEffect | scripts/snakemake/ichorCNA_results_summary.py:71-86 | a line changes only the field it names; a line with no label changes nothing |
| Params.LastOccurrenceWins | scripts/snakemake/ichorCNA_results_summary.py:69-86 | in a parsed record the library is the folder name; each field comes from the last line that sets it; a field no line sets is missing |
| Params.ParseParamsFailsIff | scripts/snakemake/ichorCNA_results_summary.py:75-86 | parsing fails exactly when some line gives a numeric field a value that is neither "NA" nor a number |
| Params.ParseParamsStopsAtFirstBadLine | scripts/snakemake/ichorCNA_results_summary.py:70-86 | a failed parse is decided by the first bad line; later lines do not matter |
| TumorFraction.ExtractTfData | scripts/snakemake/ichorCNA_results_summary.py:53-90 | the directory loop returns the sorted table of collected records, or the first error |
| TumorFraction.CollectTfShape | scripts/snakemake/ichorCNA_results_summary.py:55-88 | one record per folder holding a `.params.txt` file, in listing order, named by the folder, read from its first such file; non-folders and folders without one contribute nothing |
| TumorFraction.CollectTfFailsIff | scripts/snakemake/ichorCNA_results_summary.py:58-86 | the run fails exactly when some folder's chosen parameter file cannot be read or parsed |
| TumorFraction.TfTableIsSortedCollection | scripts/snakemake/ichorCNA_results_summary.py:88-90 | the table is sorted ascending by library and is a permutation of the collected records |
| TumorFraction.TfTableRecordsFromFolders | scripts/snakemake/ichorCNA_results_summary.py:55-90 | the table has as many records as qualifying folders, and every record is the record of one of them |
| TumorFraction.TfTableCoversFolders | scripts/snakemake/ichorCNA_results_summary.py:55-90 | every qualifying folder has a record in the table |
| TumorFraction.TfTableOrderUnique | scripts/snakemake/ichorCNA_results_summary.py:90 | with distinct folder names, any arrangement of the records sorted by library is this table |
| TumorFraction.QualifyingNamesDistinct | scripts/snakemake/ichorCNA_results_summary.py:55-69 | distinct folder names give distinct library names in the table |
| Segments.TagRows | scripts/snakemake/ichorCNA_results_summary.py:122-128 | each data row becomes exactly `[library, chr, start, end, cell of the value column]`, one per row, in order |
| Segments.FileRows | scripts/snakemake/ichorCNA_results_summary.py:113-128 | a file fails exactly when it is a contributing `.cna.seg` file lacking chr, start or end; a file that does not contribute adds no rows |
| Segments.ReadFolder | scripts/snakemake/ichorCNA_results_summary.py:112-128 | the loop over one folder returns that folder's rows, file by file, or the first error |
| Segments.ExtractCnaData | scripts/snakemake/ichorCNA_results_summary.py:106-135 | the directory loop returns the sorted long table, or the first error |
| Segments.KeyLeTransitive | scripts/snakemake/ichorCNA_results_summary.py:133 | the four-part order (library, chr, start, end) is transitive |
| Segments.CnaTableIsSortedCollection | scripts/snakemake/ichorCNA_results_summary.py:130-133 | the long table is sorted by (library, chr, start, end) and is a permutation of the collected rows |
| Segments.FileRowsMembers | scripts/snakemake/ichorCNA_results_summary.py:117-128 | a file's rows are exactly the tagged data rows of that file when it contributes, and none otherwise |
| Segments.FolderRowsMembers | scripts/snakemake/ichorCNA_results_summary.py:112-128 | every contributing file of the folder is read, with no first-match break; a row is in the folder's rows exactly when it comes from one of them |
| Segments.CollectCnaMembers | scripts/snakemake/ichorCNA_results_summary.py:108-128 | a row is collected exactly when it is the tagged data row of a contributing file in a sample folder |
| Segments.FolderRowsFailsIff | scripts/snakemake/ichorCNA_results_summary.py:112-123 | a folder fails exactly when one of its contributing files lacks an interval column |
| Segments.CollectCnaFailsIff | scripts/snakemake/ichorCNA_results_summary.py:108-123 | extraction fails exactly when a contributing file in some sample folder lacks an interval column |
| Reshape.NormalizeRowsEffect | scripts/snakemake/ichorCNA_results_summary.py:212-217 | only the library column changes; a name changes exactly when the pattern is non-empty and occurs in it, and then loses at least one occurrence |
| Reshape.NormalizeTfEffect | scripts/snakemake/ichorCNA_results_summary.py:208 | only the library of each record changes, exactly where the pattern occurs |
| Reshape.FirstRepeat | scripts/snakemake/ichorCNA_results_summary.py:220-227 | no repeat is found exactly when the keys are distinct; a reported key occurs twice |
| Reshape.Lookup | scripts/snakemake/ichorCNA_results_summary.py:220-222 | a found value belongs to a row with that key; nothing is found exactly when no row has the key |
| Reshape.Pivot | scripts/snakemake/ichorCNA_results_summary.py:220-228 | the step fails exactly when two long rows share (chr, start, end, library) or some library is named `chr`, `start` or `end`; it reports `DuplicateEntry` exactly in the first case, naming such a pair, and otherwise `ColumnExists`, naming a clashing library |
| Reshape.PivotShape | scripts/snakemake/ichorCNA_results_summary.py:220-222 | the matrix rows are the distinct intervals of the long table and its columns the distinct libraries, each once, ascending; every row has one cell per library; no library column is named like an index level |
| Reshape.PivotLongToWide | scripts/snakemake/ichorCNA_results_summary.py:220-222 | every long row's value appears at its interval's row and its library's column |
| Reshape.LookupUnique | scripts/snakemake/ichorCNA_results_summary.py:220-222 | without repeated pairs, a row's own pair looks up that row's value |
| Reshape.PivotWideToLong | scripts/snakemake/ichorCNA_results_summary.py:220-222 | a filled cell is the value of a long row at that interval and library; an empty cell means no long row has that pair |
| Reshape.CollisionBreaksPivot | scripts/snakemake/ichorCNA_results_summary.py:212-227 | two libraries that normalisation merges and that share an interval make the pivot fail with `DuplicateEntry` |
| Summary.NormalizedCnaMembers | scripts/snakemake/ichorCNA_results_summary.py:211-217 | a normalised long table holds exactly the data rows of the contributing files, tagged with the normalised library |
| Summary.MatrixFromFolders | scripts/snakemake/ichorCNA_results_summary.py:211-228 | every filled matrix cell comes from a data row of a contributing file, and every such row fills its cell |
| Summary.NormalizedTfFromFolders | scripts/snakemake/ichorCNA_results_summary.py:207-208 | the renamed table has as many records as qualifying folders; every folder's parsed record, renamed, is in it; every record in it is the renamed parsed record of some folder |
| Summary.SummarizeOutputs | scripts/snakemake/ichorCNA_results_summary.py:206-228 | a successful run writes the tumour-fraction table renamed record by record, with one record per qualifying folder in both directions; long tables equal as sets to the folders' data rows; and matrices agreeing with those rows: every filled cell comes from one, and every one fills its cell |
| Summary.ArchiveMembersEndWith | scripts/snakemake/ichorCNA_results_summary.py:138-179 | each archive holds at most one member per directory entry; every member ends with the suffix, or, for a folder carrying the suffix, with the suffix followed by the '/' zipfile adds |
| Summary.ParamsArchiveMatchesTable | scripts/snakemake/ichorCNA_results_summary.py:138-157 | the parameter archive holds, in listing order, the archive name of the first `.params.txt` entry of each qualifying folder: the entries the table is read from |
| Summary.ParamsArchiveHoldsFiles | scripts/snakemake/ichorCNA_results_summary.py:146-155 | when the tumour-fraction table can be read, as it must be before any archive is written, each parameter-archive member is the plain name of a file, not a folder, ending with `.params.txt` |
| Manifest.WriteManifest | scripts/snakemake/config/create_sample_yaml.py:16-30 | the script writes the header and then the entries of the paths sorted by base name |
| Manifest.WriteLines | scripts/snakemake/config/create_sample_yaml.py:27-31 | the write loop emits the header and then one entry per path, in the given order |
| Manifest.WritesLayout | scripts/snakemake/config/create_sample_yaml.py:28-30 | the output is the header line followed by exactly one entry per path, the i-th for the i-th path |
| Manifest.ManifestOrderFacts | scripts/snakemake/config/create_sample_yaml.py:16-22 | the written order is a permutation of the discovered paths, with no de-duplication; it is in non-decreasing base-name order; paths with equal base names keep discovery order |
| Manifest.ManifestLines | scripts/snakemake/config/create_sample_yaml.py:27-30 | the file starts with `samples:` and then has one entry per discovered path, the i-th for the i-th path of the written order |
| Manifest.ManifestKeysSorted | scripts/snakemake/config/create_sample_yaml.py:22-30 | every line after the header is an entry, and the entries' keys are in non-decreasing order |

## Left out

- **Filesystem.** `os.listdir`, `os.path.isdir`/`isfile`, the recursive `glob('**/*.bam')` and `.absolute()` are not modelled. Directory contents and discovered paths are inputs, in listing order.
  - Symbolic links are not modelled.
  - A name ending `.params.txt` that is a folder is the only `open` failure modelled (`Unreadable`).
- **CSV.** `pd.read_csv` is not modelled; a segmentation file is given as its parsed header and rows.
  - `chr` is read as text, so chromosomes sort as strings. pandas reads an all-numeric `chr` column as integers.
  - A cell missing from a row reads as empty text (`Listing.CellText`). `read_csv` reads both a missing and an empty cell as NaN, and `to_csv` then writes NaN as an empty field.
  - Duplicate column names, which pandas renames, are not modelled.
- **Output formatting.** `to_csv` and the exact bytes of the output files are not modelled.
- **Floating point.** `float(...)` and NaN are not modelled. Parsing is an abstract partial function, and values are never compared numerically.
- **ZIP archives.** Writing the archives is not modelled. Only the member names are (`Summary.ArchiveMembers`), including the '/' zipfile appends to a folder's name.
- **Plumbing.** `argparse`, the required-argument check and `os.makedirs` are not modelled.
- **Diagnostics.** The `print` diagnostics for folders without a matching file are left out.
- Summary.SummarizeOutputs: the tumour-fraction and long tables are not re-sorted after normalisation, as in the code. The model states their contents but not their order after renaming.
- Reshape.Pivot: the matrix axes are ascending, as pandas' `unstack` orders them. `reset_index` is modelled only by its failure on a library named `chr`, `start` or `end`. The columns it inserts and `columns.name = None` are formatting and are not modelled.
- Manifest.Render: the text of each line is defined but nothing is proved about it. In particular, duplicate base names yield duplicate YAML keys, and the model does not state how a YAML reader would treat them.
- **Output path.** The file name `samples.yaml` and the output directory are not modelled.
