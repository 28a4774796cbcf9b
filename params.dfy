/**
 * Reading one `.params.txt` file (the inner loop of `extract_tf_data`): each
 * line is stripped, tested against five labels in a fixed priority order, and
 * the first label it contains decides the one field the line sets.
 */
module Params {
  import opened Wrappers
  import opened Text

  datatype Field = Gender | TumorFraction | Ploidy | ChrYCoverage | ChrXMedian

  /** The text that marks a line as setting the field. */
  function Label(f: Field): string
  {
    match f
    case Gender => "Gender:"
    case TumorFraction => "Tumor Fraction:"
    case Ploidy => "Ploidy:"
    case ChrYCoverage => "ChrY coverage fraction:"
    case ChrXMedian => "ChrX median log ratio:"
  }

  /** The order in which the labels are tested. */
  const Priority: seq<Field> := [Gender, TumorFraction, Ploidy, ChrYCoverage, ChrXMedian]

  function Rank(f: Field): (k: nat)
    ensures k < |Priority| && Priority[k] == f
  {
    match f
    case Gender => 0
    case TumorFraction => 1
    case Ploidy => 2
    case ChrYCoverage => 3
    case ChrXMedian => 4
  }

  /** The sample parameter record, in the six columns of the output table. */
  datatype TfRecord<N> = TfRecord(
    library: string,
    tumorFraction: Option<N>,
    ploidy: Option<N>,
    gender: Option<string>,
    chrYCoverage: Option<N>,
    chrXMedian: Option<N>)

  datatype ParamsError =
    | NotANumber(field: Field, text: string)  // `float(value)` raised
    | Unreadable(file: string)                 // `open` on a directory raised

  /** A record where every field but the library is missing. */
  function Blank<N>(library: string): TfRecord<N>
  {
    TfRecord(library, None, None, None, None, None)
  }

  /** The numeric field `f` of `r` (Gender is not numeric). */
  function Numeric<N>(r: TfRecord<N>, f: Field): Option<N>
    requires f != Gender
  {
    match f
    case TumorFraction => r.tumorFraction
    case Ploidy => r.ploidy
    case ChrYCoverage => r.chrYCoverage
    case ChrXMedian => r.chrXMedian
  }

  function SetNumeric<N>(r: TfRecord<N>, f: Field, v: Option<N>): (r': TfRecord<N>)
    requires f != Gender
    ensures Numeric(r', f) == v && r'.library == r.library && r'.gender == r.gender
    ensures forall g :: g != Gender && g != f ==> Numeric(r', g) == Numeric(r, g)
  {
    match f
    case TumorFraction => r.(tumorFraction := v)
    case Ploidy => r.(ploidy := v)
    case ChrYCoverage => r.(chrYCoverage := v)
    case ChrXMedian => r.(chrXMedian := v)
  }

  /**
   * The field a stripped line sets: the first label, in priority order, that
   * the line contains; none when it contains no label.
   */
  function Classify(line: string): (r: Option<Field>)
    ensures r.Some? ==> Contains(line, Label(r.value))
    ensures r.Some? ==> forall k :: 0 <= k < Rank(r.value) ==> !Contains(line, Label(Priority[k]))
    ensures r.None? <==> forall f :: !Contains(line, Label(f))
  {
    if Contains(line, Label(Gender)) then Some(Gender)
    else if Contains(line, Label(TumorFraction)) then Some(TumorFraction)
    else if Contains(line, Label(Ploidy)) then Some(Ploidy)
    else if Contains(line, Label(ChrYCoverage)) then Some(ChrYCoverage)
    else if Contains(line, Label(ChrXMedian)) then Some(ChrXMedian)
    else None
  }

  lemma {:induction false} ContainsChar(s: string, sub: string, c: char)
    requires Contains(s, sub) && c in sub
    ensures c in s
    decreases |s|
  {
    if StartsWith(s, sub) {
      var i :| 0 <= i < |sub| && sub[i] == c;
      assert s[i] == c;
    } else {
      ContainsChar(s[1..], sub, c);
    }
  }

  /** A line that sets some field has a colon, so its second colon-field exists. */
  lemma {:induction false} ClassifiedHasColon(line: string)
    requires Classify(line).Some?
    ensures ':' in line
  {
    var f := Classify(line).value;
    assert Label(f)[|Label(f)| - 1] == ':';
    ContainsChar(line, Label(f), ':');
  }

  /** `line.split(":")[1].strip()`: the value text of a classified line. */
  function ValueText(line: string): string
    requires ':' in line
  {
    Strip(Split(line, ':')[1])
  }

  /**
   * The value text is the text between the line's first colon and its
   * second one (or the end of the line), trimmed: whatever follows a second
   * colon is dropped.
   */
  lemma {:induction false} ValueTextBetweenColons(a: string, b: string, rest: string)
    requires ':' !in a && ':' !in b
    requires rest == [] || rest[0] == ':'
    ensures ':' in a + [':'] + b + rest && ValueText(a + [':'] + b + rest) == Strip(b)
  {
    assert (a + [':'] + b + rest)[|a|] == ':';
    SecondFieldBetweenSeparators(a, b, rest, ':');
  }

  /** The field a raw line of the file sets, if any. */
  function LineField(raw: string): Option<Field>
  {
    Classify(Strip(raw))
  }

  /** The value text a raw line gives the field it sets. */
  function LineValue(raw: string): string
    requires LineField(raw).Some?
  {
    ClassifiedHasColon(Strip(raw));
    ValueText(Strip(raw))
  }

  /** The update a line that sets field `f` to value text `v` makes: the `if`/`elif` chain's bodies. */
  function ApplyField<N>(r: TfRecord<N>, f: Field, v: string, parse: string -> Option<N>): Result<TfRecord<N>, ParamsError>
  {
    if f == Gender then Ok(r.(gender := Some(v)))
    else if v == "NA" then Ok(SetNumeric(r, f, None))
    else match parse(v)
      case None => Err(NotANumber(f, v))
      case Some(x) => Ok(SetNumeric(r, f, Some(x)))
  }

  /** The update one raw line of the file makes to the record. */
  function ApplyLine<N>(r: TfRecord<N>, raw: string, parse: string -> Option<N>): Result<TfRecord<N>, ParamsError>
  {
    match LineField(raw)
    case None => Ok(r)
    case Some(f) => ApplyField(r, f, LineValue(raw), parse)
  }

  /** The record the file's lines build, starting from `{"library": library}`; the first failing line aborts. */
  function ParseParams<N>(library: string, lines: seq<string>, parse: string -> Option<N>): Result<TfRecord<N>, ParamsError>
  {
    if lines == [] then Ok(Blank(library))
    else match ParseParams(library, lines[..|lines| - 1], parse)
      case Err(e) => Err(e)
      case Ok(r) => ApplyLine(r, lines[|lines| - 1], parse)
  }

  lemma {:induction false} ParseParamsErrPersists<N>(library: string, lines: seq<string>, k: nat, parse: string -> Option<N>)
    requires k <= |lines| && ParseParams(library, lines[..k], parse).Err?
    ensures ParseParams(library, lines, parse) == ParseParams(library, lines[..k], parse)
    decreases |lines| - k
  {
    if k < |lines| {
      assert lines[..k + 1][..k] == lines[..k];
      ParseParamsErrPersists(library, lines, k + 1, parse);
    } else {
      assert lines[..k] == lines;
    }
  }

  /**
   * The loop of `extract_tf_data` over one file's lines, updating the record
   * line by line.
   */
  method ReadParams<N>(library: string, lines: seq<string>, parse: string -> Option<N>)
    returns (res: Result<TfRecord<N>, ParamsError>)
    ensures res == ParseParams(library, lines, parse)
  {
    var data := Blank(library);
    for i := 0 to |lines|
      invariant ParseParams(library, lines[..i], parse) == Ok(data)
    {
      assert lines[..i + 1][..i] == lines[..i];
      var step := ApplyLine(data, lines[i], parse);
      if step.Err? {
        ParseParamsErrPersists(library, lines, i + 1, parse);
        return step;
      }
      data := step.value;
    }
    assert lines[..|lines|] == lines;
    return Ok(data);
  }

  /** The value text of the last line that sets `f`, if any line does. */
  function LastValue(lines: seq<string>, f: Field): Option<string>
  {
    if lines == [] then None
    else if LineField(lines[|lines| - 1]) == Some(f) then Some(LineValue(lines[|lines| - 1]))
    else LastValue(lines[..|lines| - 1], f)
  }

  /** What a numeric field holds given the last value text for it. */
  function Interpret<N>(text: Option<string>, parse: string -> Option<N>): Option<N>
  {
    match text
    case None => None
    case Some(v) => if v == "NA" then None else parse(v)
  }

  /** What a successful field update changes: only that field. */
  lemma {:induction false} ApplyFieldEffect<N>(r: TfRecord<N>, f: Field, v: string, parse: string -> Option<N>, r': TfRecord<N>)
    requires ApplyField(r, f, v, parse) == Ok(r')
    ensures r'.library == r.library
    ensures r'.gender == if f == Gender then Some(v) else r.gender
    ensures forall g :: g != Gender ==>
      Numeric(r', g) == (if g == f then Interpret(Some(v), parse) else Numeric(r, g))
  {
    if f != Gender {
      if v == "NA" {
        assert r' == SetNumeric(r, f, None);
      } else {
        assert r' == SetNumeric(r, f, parse(v));
      }
    }
  }

  /** What a successful line update changes: only the field the line names. */
  lemma {:induction false} ApplyLineEffect<N>(r: TfRecord<N>, raw: string, parse: string -> Option<N>, r': TfRecord<N>)
    requires ApplyLine(r, raw, parse) == Ok(r')
    ensures r'.library == r.library
    ensures r'.gender == if LineField(raw) == Some(Gender) then Some(LineValue(raw)) else r.gender
    ensures forall f :: f != Gender ==>
      Numeric(r', f) == (if LineField(raw) == Some(f) then Interpret(Some(LineValue(raw)), parse) else Numeric(r, f))
  {
    match LineField(raw)
    case None =>
    case Some(g) => ApplyFieldEffect(r, g, LineValue(raw), parse, r');
  }

  /**
   * Last occurrence wins: each field of a parsed record is decided by the
   * last line that sets it. The library is the one given; Gender keeps its
   * text as is, "NA" included; a numeric field is missing when no line sets
   * it or the last one says "NA", and otherwise is that text parsed.
   */
  lemma {:induction false} LastOccurrenceWins<N>(library: string, lines: seq<string>, parse: string -> Option<N>, r: TfRecord<N>)
    requires ParseParams(library, lines, parse) == Ok(r)
    ensures r.library == library
    ensures r.gender == LastValue(lines, Gender)
    ensures forall f :: f != Gender ==> Numeric(r, f) == Interpret(LastValue(lines, f), parse)
    decreases |lines|
  {
    if lines != [] {
      var init := lines[..|lines| - 1];
      var prev := ParseParams(library, init, parse).value;
      LastOccurrenceWins(library, init, parse, prev);
      ApplyLineEffect(prev, lines[|lines| - 1], parse, r);
    }
  }

  /** A line on which `float` fails: a numeric field whose value is neither "NA" nor a number. */
  predicate BadLine<N>(raw: string, parse: string -> Option<N>)
  {
    match LineField(raw)
    case None => false
    case Some(f) => f != Gender && LineValue(raw) != "NA" && parse(LineValue(raw)).None?
  }

  lemma {:induction false} ApplyLineFails<N>(r: TfRecord<N>, raw: string, parse: string -> Option<N>)
    ensures ApplyLine(r, raw, parse).Err? <==> BadLine(raw, parse)
  {
  }

  lemma {:induction false} ParseParamsStep<N>(library: string, lines: seq<string>, parse: string -> Option<N>)
    requires lines != []
    ensures ParseParams(library, lines, parse).Err? <==>
      (ParseParams(library, lines[..|lines| - 1], parse).Err? || BadLine(lines[|lines| - 1], parse))
  {
    var init := lines[..|lines| - 1];
    if ParseParams(library, init, parse).Ok? {
      ApplyLineFails(ParseParams(library, init, parse).value, lines[|lines| - 1], parse);
    }
  }

  /** Some line of `lines` is bad. */
  predicate SomeBadLine<N>(lines: seq<string>, parse: string -> Option<N>)
  {
    lines != [] && (SomeBadLine(lines[..|lines| - 1], parse) || BadLine(lines[|lines| - 1], parse))
  }

  lemma {:induction false} SomeBadLineAt<N>(lines: seq<string>, parse: string -> Option<N>)
    ensures SomeBadLine(lines, parse) <==> exists i :: 0 <= i < |lines| && BadLine(lines[i], parse)
    decreases |lines|
  {
    if lines != [] {
      var init := lines[..|lines| - 1];
      SomeBadLineAt(init, parse);
      if SomeBadLine(init, parse) {
        var i :| 0 <= i < |init| && BadLine(init[i], parse);
        assert lines[i] == init[i];
      } else if !BadLine(lines[|lines| - 1], parse) {
        forall i | 0 <= i < |lines| ensures !BadLine(lines[i], parse) {
          if i < |init| {
            assert lines[i] == init[i];
            assert !BadLine(init[i], parse);
          } else {
            assert i == |init|;
          }
        }
      }
    }
  }

  lemma {:induction false} ParseParamsFailsAt<N>(library: string, lines: seq<string>, parse: string -> Option<N>)
    ensures ParseParams(library, lines, parse).Err? <==> SomeBadLine(lines, parse)
    decreases |lines|
  {
    if lines != [] {
      ParseParamsFailsAt(library, lines[..|lines| - 1], parse);
      ParseParamsStep(library, lines, parse);
    }
  }

  /** Parsing fails exactly when some line is bad. */
  lemma {:induction false} ParseParamsFailsIff<N>(library: string, lines: seq<string>, parse: string -> Option<N>)
    ensures ParseParams(library, lines, parse).Err? <==> exists i :: 0 <= i < |lines| && BadLine(lines[i], parse)
  {
    ParseParamsFailsAt(library, lines, parse);
    SomeBadLineAt(lines, parse);
  }

  /** A failed parse reports the error of the first bad line: the lines after it are never read. */
  lemma {:induction false} ParseParamsStopsAtFirstBadLine<N>(library: string, lines: seq<string>, parse: string -> Option<N>, i: nat)
    requires i < |lines| && BadLine(lines[i], parse)
    requires forall k :: 0 <= k < i ==> !BadLine(lines[k], parse)
    ensures ParseParams(library, lines, parse).Err?
    ensures ParseParams(library, lines, parse) == ParseParams(library, lines[..i + 1], parse)
  {
    var upto := lines[..i + 1];
    assert SomeBadLine(upto, parse) by {
      assert upto[|upto| - 1] == lines[i];
    }
    ParseParamsFailsAt(library, upto, parse);
    ParseParamsErrPersists(library, lines, i + 1, parse);
  }
}
