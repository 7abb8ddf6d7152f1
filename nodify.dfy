/**
 * The `Restruct` class of `modules/nodify.py`: it resolves the delimiter on
 * the header line, turns every following line into a record while keeping
 * the widest value seen in each of the five slots, and renders the records as
 * centered, delimited rows.
 *
 * The input is the sequence of lines `readline()` would return, each with its
 * line break; reading past the end gives "" as `readline()` does.  The
 * rendered output is the sequence of rows that would be written.
 */
module Nodify {
  import opened Results
  import opened Text
  import opened Nodes

  /**
   * The delimiters tried, in order, when the configured one splits the header
   * into too few pieces.  The source writes `"." "\t"`, which Python joins
   * into the single two-character candidate ".\t".
   */
  const Candidates: seq<string> := [",", "|", ".\t", "_"]

  /** The fewest pieces a header must split into for a delimiter to be kept. */
  const MinHeaderPieces := 3

  /**
   * How a run stops early: an empty configured delimiter (Python's
   * `ValueError: empty separator`), no delimiter that splits the header
   * (the `SystemExit` of `determine_delimiter`), or a line whose `load` fails.
   */
  datatype RunError = EmptySeparator | NoDelimiter | BadLine(error: LoadError)

  /** The state a completed run leaves: the active delimiter, the records in input order, the width of each slot. */
  datatype Pass = Pass(delimiter: string, records: seq<Node>, colLen: seq<nat>)

  function Max(a: nat, b: nat): nat
  {
    if a < b then b else a
  }

  lemma CandidatesNonEmpty()
    ensures forall k :: 0 <= k < |Candidates| ==> |Candidates[k]| > 0
  {
  }

  /** `d` splits the header into at least three pieces. */
  predicate Fits(header: string, d: string)
    requires |d| > 0
  {
    |Split(header, d)| >= MinHeaderPieces
  }

  /** The first delimiter of `cands` that fits the header, if any. */
  function FirstFit(header: string, cands: seq<string>): (r: Option<string>)
    requires forall k :: 0 <= k < |cands| ==> |cands[k]| > 0
    ensures r.None? <==> forall k :: 0 <= k < |cands| ==> !Fits(header, cands[k])
    ensures r.Some? ==>
      exists k :: 0 <= k < |cands| && r.value == cands[k] && Fits(header, cands[k])
        && forall j :: 0 <= j < k ==> !Fits(header, cands[j])
    decreases |cands|
  {
    if cands == [] then None
    else if Fits(header, cands[0]) then Some(cands[0])
    else
      var r := FirstFit(header, cands[1..]);
      assert forall k :: 1 <= k < |cands| ==> cands[k] == cands[1..][k - 1];
      if r.Some? then
        var k :| 0 <= k < |cands[1..]| && r.value == cands[1..][k] && Fits(header, cands[1..][k])
          && forall j :: 0 <= j < k ==> !Fits(header, cands[1..][j]);
        assert r.value == cands[k + 1] && forall j :: 0 <= j < k + 1 ==> !Fits(header, cands[j]);
        r
      else r
  }

  /**
   * The delimiter a run uses for the header line `header`: the configured one
   * when it splits the header into at least three pieces, otherwise the first
   * fitting candidate.
   */
  function Resolve(header: string, configured: string): (r: Result<string, RunError>)
    ensures r == Err(EmptySeparator) <==> configured == ""
    ensures configured != "" && Fits(header, configured) ==> r == Ok(configured)
    ensures configured != "" && !Fits(header, configured) ==>
      r == (match FirstFit(header, Candidates) case None => Err(NoDelimiter) case Some(d) => Ok(d))
    ensures r.Ok? ==> |r.value| > 0 && Fits(header, r.value)
    ensures r.Ok? && r.value != configured ==> r.value in Candidates
    ensures r == Err(NoDelimiter) <==>
      configured != "" && !Fits(header, configured)
      && forall k :: 0 <= k < |Candidates| ==> !Fits(header, Candidates[k])
  {
    CandidatesNonEmpty();
    if configured == "" then Err(EmptySeparator)
    else if Fits(header, configured) then Ok(configured)
    else
      match FirstFit(header, Candidates)
      case None => Err(NoDelimiter)
      case Some(d) => Ok(d)
  }

  /** What `readline()` returns for the `i`-th line: "" once the input is exhausted. */
  function Line(lines: seq<string>, i: nat): string
  {
    if i < |lines| then lines[i] else ""
  }

  /** The lines read from index `i` on until `readline()` gives "". */
  function ContentFrom(lines: seq<string>, i: nat): seq<string>
    decreases |lines| - i
  {
    if Line(lines, i) == "" then [] else [lines[i]] + ContentFrom(lines, i + 1)
  }

  /** `ContentFrom` is the longest run of non-empty lines starting at index `i`. */
  lemma {:induction false} ContentFromSpec(lines: seq<string>, i: nat)
    ensures var r := ContentFrom(lines, i);
      && (i + |r| <= |lines| || r == [])
      && (forall k :: 0 <= k < |r| ==> r[k] == lines[i + k] && r[k] != "")
      && Line(lines, i + |r|) == ""
    decreases |lines| - i
  {
    if Line(lines, i) != "" {
      ContentFromSpec(lines, i + 1);
      var r := ContentFrom(lines, i);
      assert forall k :: 1 <= k < |r| ==> r[k] == ContentFrom(lines, i + 1)[k - 1];
    }
  }

  /**
   * The lines that become records.  The test at nodify.py:173 compares a
   * bool with "" and so always holds: the first line is always consumed as
   * the header and content starts at the second line.
   */
  function ContentLines(lines: seq<string>): seq<string>
  {
    ContentFrom(lines, 1)
  }

  /** One content line, split by the active delimiter, stripped and loaded. */
  function ParseLine(line: string, d: string): Result<Node, LoadError>
    requires |d| > 0
  {
    Classify(StripAll(Split(line, d)))
  }

  /** Loading the content lines in order; the first line that fails stops the run. */
  function LoadAll(content: seq<string>, d: string): Result<seq<Node>, LoadError>
    requires |d| > 0
    decreases |content|
  {
    if content == [] then Ok([])
    else
      match LoadAll(content[..|content| - 1], d)
      case Err(e) => Err(e)
      case Ok(rs) =>
        match ParseLine(content[|content| - 1], d)
        case Err(e) => Err(e)
        case Ok(n) => Ok(rs + [n])
  }

  /** A successful load has one record per line, each the line's own parse. */
  lemma {:induction false} LoadAllOk(content: seq<string>, d: string)
    requires |d| > 0
    requires LoadAll(content, d).Ok?
    ensures var rs := LoadAll(content, d).value;
      && |rs| == |content|
      && forall k :: 0 <= k < |content| ==> ParseLine(content[k], d) == Ok(rs[k])
    decreases |content|
  {
    if content != [] {
      var front, last := content[..|content| - 1], content[|content| - 1];
      LoadAllOk(front, d);
      var fr := LoadAll(front, d).value;
      var rs := fr + [ParseLine(last, d).value];
      assert LoadAll(content, d) == Ok(rs);
      forall k | 0 <= k < |front|
        ensures ParseLine(content[k], d) == Ok(rs[k])
      {
        assert content[k] == front[k] && rs[k] == fr[k];
      }
    }
  }

  /** Line `k` is the first of `content` that does not parse, and it fails with `e`. */
  predicate FirstFailure(content: seq<string>, d: string, k: int, e: LoadError)
    requires |d| > 0
  {
    && 0 <= k < |content|
    && ParseLine(content[k], d) == Err(e)
    && forall j :: 0 <= j < k ==> ParseLine(content[j], d).Ok?
  }

  /** A failed load reports the error of the first line that does not parse. */
  lemma LoadAllErr(content: seq<string>, d: string)
    requires |d| > 0
    requires LoadAll(content, d).Err?
    ensures exists k :: FirstFailure(content, d, k, LoadAll(content, d).error)
  {
    var k := FailingLine(content, d);
  }

  lemma {:induction false} FailingLine(content: seq<string>, d: string) returns (k: nat)
    requires |d| > 0
    requires LoadAll(content, d).Err?
    ensures FirstFailure(content, d, k, LoadAll(content, d).error)
    decreases |content|
  {
    var front := content[..|content| - 1];
    if LoadAll(front, d).Err? {
      k := FailingLine(front, d);
      FailureInFront(content, d, k, LoadAll(front, d).error);
    } else {
      LoadAllOk(front, d);
      assert forall j :: 0 <= j < |front| ==> front[j] == content[j];
      k := |content| - 1;
      FailureAtEnd(content, d, LoadAll(front, d).value);
    }
  }

  lemma FailureInFront(content: seq<string>, d: string, k: nat, e: LoadError)
    requires |d| > 0 && content != []
    requires LoadAll(content[..|content| - 1], d) == Err(e)
    requires FirstFailure(content[..|content| - 1], d, k, e)
    ensures LoadAll(content, d) == Err(e) && FirstFailure(content, d, k, e)
  {
    var front := content[..|content| - 1];
    assert forall j :: 0 <= j < |front| ==> front[j] == content[j];
  }

  lemma FailureAtEnd(content: seq<string>, d: string, rs: seq<Node>)
    requires |d| > 0 && content != []
    requires LoadAll(content[..|content| - 1], d) == Ok(rs)
    requires forall j :: 0 <= j < |content| - 1 ==> ParseLine(content[j], d).Ok?
    requires ParseLine(content[|content| - 1], d).Err?
    ensures LoadAll(content, d).Err? && FirstFailure(content, d, |content| - 1, LoadAll(content, d).error)
  {
    var front := content[..|content| - 1];
    assert forall j :: 0 <= j < |front| ==> front[j] == content[j];
  }

  /** Five zeros: `col_len` before any record. */
  const Zeros: seq<nat> := [0, 0, 0, 0, 0]

  /** Each slot's width raised to the length of the row's value in that slot. */
  function Bump(w: seq<nat>, row: seq<string>): (r: seq<nat>)
    requires |w| == SlotCount && |row| == SlotCount
  {
    seq(SlotCount, i requires 0 <= i < SlotCount => Max(w[i], |row[i]|))
  }

  /** The widths after loading `rs`, starting from `w`. */
  function WidthsFrom(w: seq<nat>, rs: seq<Node>): (r: seq<nat>)
    requires |w| == SlotCount
    ensures |r| == SlotCount
    ensures forall i :: 0 <= i < SlotCount ==> w[i] <= r[i]
    decreases |rs|
  {
    if rs == [] then w
    else Bump(WidthsFrom(w, rs[..|rs| - 1]), DisplayRow(rs[|rs| - 1]))
  }

  /**
   * The widths after loading one line, whether it loads or not: a loaded
   * record widens the slots it fills, an index error widens nothing, and a
   * column with an unknown type has widened only its name slot.
   */
  function LineWidths(w: seq<nat>, line: string, d: string): (r: seq<nat>)
    requires |w| == SlotCount && |d| > 0
    ensures |r| == SlotCount
    ensures forall i :: 0 <= i < SlotCount ==> w[i] <= r[i]
  {
    var vals := StripAll(Split(line, d));
    match Classify(vals)
    case Ok(n) => Bump(w, DisplayRow(n))
    case Err(IndexOutOfRange) => w
    case Err(UnknownDataType) => w[ColNameIndex := Max(w[ColNameIndex], |vals[ColNameIndex]|)]
  }

  /**
   * A line that loads widens the slots as `WidthsFrom` does for its record;
   * a line that fails leaves every slot but the column-name slot as it was,
   * and that one at its old width or at the length of the line's name value.
   */
  lemma LineWidthsSpec(w: seq<nat>, line: string, d: string)
    requires |w| == SlotCount && |d| > 0
    ensures var r, vals := LineWidths(w, line, d), StripAll(Split(line, d));
      && (ParseLine(line, d).Ok? ==> r == WidthsFrom(w, [ParseLine(line, d).value]))
      && (ParseLine(line, d).Err? ==>
            && (forall i :: 0 <= i < SlotCount && i != ColNameIndex ==> r[i] == w[i])
            && (r[ColNameIndex] == w[ColNameIndex] || (|vals| > ColNameIndex && r[ColNameIndex] == |vals[ColNameIndex]|)))
      && (ParseLine(line, d) == Err(IndexOutOfRange) ==> r == w)
  {
    if ParseLine(line, d).Ok? {
      assert [ParseLine(line, d).value][..0] == [];
    }
  }

  /**
   * The state a load leaves when line `k` is the first that fails, with `e`:
   * the records of the lines before it appended to `objs0`, and the widths
   * those records give from `w0`, widened further as the failing line did.
   */
  predicate StoppedAt(content: seq<string>, d: string, k: int, e: LoadError,
                      objs0: seq<Node>, w0: seq<nat>, objs: seq<Node>, w: seq<nat>)
    requires |d| > 0 && |w0| == SlotCount
  {
    && FirstFailure(content, d, k, e)
    && LoadAll(content[..k], d).Ok?
    && objs == objs0 + LoadAll(content[..k], d).value
    && w == LineWidths(WidthsFrom(w0, LoadAll(content[..k], d).value), content[k], d)
  }

  function Widths(rs: seq<Node>): (r: seq<nat>)
    ensures |r| == SlotCount
  {
    WidthsFrom(Zeros, rs)
  }

  /**
   * A whole restructuring pass over `lines` with the configured delimiter:
   * the delimiter it settles on, the records of the content lines, and the
   * slot widths; or why it stopped.
   */
  function Restructure(lines: seq<string>, configured: string): Result<Pass, RunError>
  {
    match Resolve(Line(lines, 0), configured)
    case Err(e) => Err(e)
    case Ok(d) =>
      match LoadAll(ContentLines(lines), d)
      case Err(e) => Err(BadLine(e))
      case Ok(rs) => Ok(Pass(d, rs, Widths(rs)))
  }

  /** The five cells of a record's row, each centered to its slot's width. */
  function Cells(n: Node, w: seq<nat>): (r: seq<string>)
    requires |w| == SlotCount
    ensures |r| == SlotCount
  {
    seq(SlotCount, i requires 0 <= i < SlotCount => Center(DisplayRow(n)[i], w[i]))
  }

  /** The row written for one record: cells separated by the delimiter, then a line break. */
  function Row(n: Node, w: seq<nat>, d: string): string
    requires |w| == SlotCount
  {
    Join(Cells(n, w), d) + "\n"
  }

  function Render(rs: seq<Node>, w: seq<nat>, d: string): seq<string>
    requires |w| == SlotCount
  {
    seq(|rs|, k requires 0 <= k < |rs| => Row(rs[k], w, d))
  }

  lemma {:induction false} LoadAllKeepsError(xs: seq<string>, ys: seq<string>, d: string)
    requires |d| > 0
    requires LoadAll(xs, d).Err?
    ensures LoadAll(xs + ys, d) == LoadAll(xs, d)
    decreases |ys|
  {
    if ys == [] {
      assert xs + ys == xs;
    } else {
      var ys' := ys[..|ys| - 1];
      assert (xs + ys)[..|xs + ys| - 1] == xs + ys';
      LoadAllKeepsError(xs, ys', d);
    }
  }

  /** One loop step: a line that loads extends the records, one that fails decides the whole load. */
  lemma LoadStep(content: seq<string>, done: seq<string>, rest: seq<string>, line: string, recs: seq<Node>, d: string)
    requires |d| > 0
    requires content == done + ([line] + rest)
    requires LoadAll(done, d) == Ok(recs)
    ensures ParseLine(line, d).Ok? ==>
      content == (done + [line]) + rest && LoadAll(done + [line], d) == Ok(recs + [ParseLine(line, d).value])
    ensures ParseLine(line, d).Err? ==> LoadAll(content, d) == Err(ParseLine(line, d).error)
  {
    LoadAllSnoc(done, line, d);
    assert done + ([line] + rest) == (done + [line]) + rest;
    if ParseLine(line, d).Err? {
      LoadAllKeepsError(done + [line], rest, d);
    }
  }

  lemma WidthsSnoc(w: seq<nat>, rs: seq<Node>, n: Node)
    requires |w| == SlotCount
    ensures WidthsFrom(w, rs + [n]) == Bump(WidthsFrom(w, rs), DisplayRow(n))
  {
    assert (rs + [n])[..|rs|] == rs;
  }

  /** A line that fails after `done` loaded is the first failure, and `done` is what precedes it. */
  lemma StopsHere(content: seq<string>, done: seq<string>, rest: seq<string>, line: string, recs: seq<Node>, d: string)
    requires |d| > 0
    requires content == done + ([line] + rest)
    requires LoadAll(done, d) == Ok(recs)
    requires ParseLine(line, d).Err?
    ensures content[..|done|] == done && content[|done|] == line
    ensures FirstFailure(content, d, |done|, ParseLine(line, d).error)
  {
    assert content[..|done|] == done;
    LoadAllOk(done, d);
    assert forall j :: 0 <= j < |done| ==> content[j] == done[j];
  }

  lemma ContentStep(lines: seq<string>, i: nat)
    ensures Line(lines, i) != "" ==>
      i < |lines| && ContentFrom(lines, i) == [lines[i]] + ContentFrom(lines, i + 1)
    ensures Line(lines, i) == "" ==> ContentFrom(lines, i) == []
  {
  }

  lemma LoadAllSnoc(xs: seq<string>, x: string, d: string)
    requires |d| > 0
    ensures LoadAll(xs + [x], d) ==
      match LoadAll(xs, d)
      case Err(e) => Err(e)
      case Ok(rs) =>
        match ParseLine(x, d)
        case Err(e) => Err(e)
        case Ok(n) => Ok(rs + [n])
  {
    assert (xs + [x])[..|xs|] == xs;
  }

  /** The `Restruct` object: the active delimiter, the slot widths and the records loaded so far. */
  class Restruct {
    var delimiter: string
    const colLen: array<nat>
    var objList: seq<Node>

    ghost predicate Valid()
      reads this
    {
      colLen.Length == SlotCount
    }

    /** `__init__`: the configured delimiter, five zero widths, no records. */
    constructor (delimiter: string)
      ensures Valid() && fresh(colLen)
      ensures this.delimiter == delimiter && colLen[..] == Zeros && objList == []
    {
      this.delimiter := delimiter;
      colLen := new nat[SlotCount](_ => 0);
      objList := [];
    }

    /** `determine_delimiter`: the first candidate that splits the header into at least three pieces. */
    method DetermineDelimiter(header: string) returns (found: Option<string>)
      ensures found == FirstFit(header, Candidates)
    {
      CandidatesNonEmpty();
      var k := 0;
      while k < |Candidates|
        invariant 0 <= k <= |Candidates|
        invariant FirstFit(header, Candidates) == FirstFit(header, Candidates[k..])
      {
        assert Candidates[k..][1..] == Candidates[k + 1..];
        if |Split(header, Candidates[k])| >= MinHeaderPieces {
          return Some(Candidates[k]);
        }
        k := k + 1;
      }
      return None;
    }

    /**
     * The three `load` overloads: the record for `vals`, and each slot the
     * record fills widened to its value.  A column with an unknown type has
     * already widened the name slot when reading its type's name fails.
     */
    method Load(kind: Kind, vals: seq<string>) returns (r: Result<Node, LoadError>)
      requires Valid()
      modifies colLen
      ensures r == LoadNode(kind, vals)
      ensures r.Ok? ==> colLen[..] == Bump(old(colLen[..]), DisplayRow(r.value))
      ensures r == Err(IndexOutOfRange) ==> colLen[..] == old(colLen[..])
      ensures r == Err(UnknownDataType) ==>
        |vals| > ColNameIndex
        && colLen[..] == old(colLen[..])[ColNameIndex := Max(old(colLen[ColNameIndex]), |vals[ColNameIndex]|)]
    {
      match kind
      case DatabaseKind =>
        if |vals| <= DbNameIndex {
          return Err(IndexOutOfRange);
        }
        var n := Database(vals[DbNameIndex], vals[|vals| - 1]);
        colLen[DbNameIndex] := Max(colLen[DbNameIndex], |n.name|);
        colLen[TitleIndex] := Max(colLen[TitleIndex], |n.title|);
        r := Ok(n);
      case TableKind =>
        if |vals| <= TblNameIndex {
          return Err(IndexOutOfRange);
        }
        var n := Table(vals[TblNameIndex], vals[|vals| - 1]);
        colLen[TblNameIndex] := Max(colLen[TblNameIndex], |n.name|);
        colLen[TitleIndex] := Max(colLen[TitleIndex], |n.title|);
        r := Ok(n);
      case ColumnKind =>
        if |vals| <= ColDtypeIndex {
          return Err(IndexOutOfRange);
        }
        var dtype := DataTypeOf(vals[ColDtypeIndex]);
        colLen[ColNameIndex] := Max(colLen[ColNameIndex], |vals[ColNameIndex]|);
        if dtype.None? {
          return Err(UnknownDataType);
        }
        var n := Column(vals[ColNameIndex], vals[|vals| - 1], dtype.value);
        colLen[ColDtypeIndex] := Max(colLen[ColDtypeIndex], |n.dtype.name|);
        colLen[TitleIndex] := Max(colLen[TitleIndex], |n.title|);
        r := Ok(n);
    }

    /**
     * `restruct_data_arr`: resolve the delimiter on the first line, skip it,
     * and load every following line until the input ends.  On success the
     * new state is the one `Restructure` describes; on failure the error is.
     */
    method RestructDataArr(lines: seq<string>) returns (err: Option<RunError>)
      requires Valid()
      modifies this, colLen
      ensures Valid()
      ensures var spec := Restructure(lines, old(delimiter));
        && (spec.Ok? ==>
              && err == None
              && delimiter == spec.value.delimiter
              && objList == old(objList) + spec.value.records
              && colLen[..] == WidthsFrom(old(colLen[..]), spec.value.records))
        && (spec.Err? ==> err == Some(spec.error))
        && (spec.Err? && spec.error.BadLine? ==>
              && delimiter == Resolve(Line(lines, 0), old(delimiter)).value
              && exists k :: StoppedAt(ContentLines(lines), delimiter, k, spec.error.error,
                                       old(objList), old(colLen[..]), objList, colLen[..]))
      ensures err == Some(EmptySeparator) || err == Some(NoDelimiter) ==>
        delimiter == old(delimiter) && objList == old(objList) && colLen[..] == old(colLen[..])
      ensures |old(objList)| <= |objList| && objList[..|old(objList)|] == old(objList)
      ensures forall i :: 0 <= i < SlotCount ==> old(colLen[i]) <= colLen[i]
    {
      var header := Line(lines, 0);
      err := ResolveDelimiter(header);
      if err.Some? {
        return;
      }
      err := LoadContent(lines);
    }

    /** nodify.py:168-171: keep the configured delimiter if it fits the header, else search the candidates. */
    method ResolveDelimiter(header: string) returns (err: Option<RunError>)
      modifies this`delimiter
      ensures match Resolve(header, old(delimiter))
        case Ok(d) => err == None && delimiter == d
        case Err(e) => err == Some(e) && delimiter == old(delimiter)
    {
      if delimiter == "" {
        return Some(EmptySeparator);
      }
      if |Split(header, delimiter)| < MinHeaderPieces {
        var found := DetermineDelimiter(header);
        if found.None? {
          return Some(NoDelimiter);
        }
        delimiter := found.value;
      }
      return None;
    }

    /**
     * nodify.py:173-190: the test at line 173 always holds, so the header is
     * skipped; then every line up to the end of the input is loaded and
     * appended.
     */
    method LoadContent(lines: seq<string>) returns (err: Option<RunError>)
      requires Valid() && |delimiter| > 0
      modifies this`objList, colLen
      ensures match LoadAll(ContentLines(lines), delimiter)
        case Ok(rs) => err == None && objList == old(objList) + rs && colLen[..] == WidthsFrom(old(colLen[..]), rs)
        case Err(e) =>
          && err == Some(BadLine(e))
          && exists k :: StoppedAt(ContentLines(lines), delimiter, k, e, old(objList), old(colLen[..]), objList, colLen[..])
      ensures |old(objList)| <= |objList| && objList[..|old(objList)|] == old(objList)
      ensures forall i :: 0 <= i < SlotCount ==> old(colLen[i]) <= colLen[i]
    {
      ghost var objs0, w0 := objList, colLen[..];
      var i := 1;
      var contentLine := Line(lines, i);
      ghost var content := ContentLines(lines);
      ghost var done: seq<string> := [];
      ghost var recs: seq<Node> := [];
      while contentLine != ""
        invariant i >= 1 && contentLine == Line(lines, i)
        invariant content == done + ContentFrom(lines, i)
        invariant LoadAll(done, delimiter) == Ok(recs)
        invariant objList == objs0 + recs
        invariant colLen[..] == WidthsFrom(w0, recs)
        decreases |lines| - i
      {
        ContentStep(lines, i);
        var node := LoadNext(contentLine, content, done, ContentFrom(lines, i + 1), recs, objs0, w0);
        if node.Err? {
          assert objList[..|objs0|] == objs0;
          assert StoppedAt(content, delimiter, |done|, node.error, objs0, w0, objList, colLen[..]);
          return Some(BadLine(node.error));
        }
        done, recs := done + [contentLine], recs + [node.value];
        i := i + 1;
        contentLine := Line(lines, i);
      }
      ContentStep(lines, i);
      assert content == done;
      assert objList[..|objs0|] == objs0;
      err := None;
    }

    /**
     * One pass of the loop in `restruct_data_arr`: the next content line is
     * loaded and, when it parses, its record appended, so that the records
     * are those of the lines read so far; a failing line is the error of the
     * whole load.
     */
    method LoadNext(line: string, ghost content: seq<string>, ghost done: seq<string>, ghost rest: seq<string>,
                    ghost recs: seq<Node>, ghost objs0: seq<Node>, ghost w0: seq<nat>)
      returns (r: Result<Node, LoadError>)
      requires Valid() && |delimiter| > 0 && |w0| == SlotCount
      requires content == done + ([line] + rest)
      requires LoadAll(done, delimiter) == Ok(recs)
      requires objList == objs0 + recs && colLen[..] == WidthsFrom(w0, recs)
      modifies this`objList, colLen
      ensures r.Ok? ==>
        && content == (done + [line]) + rest
        && LoadAll(done + [line], delimiter) == Ok(recs + [r.value])
        && objList == objs0 + (recs + [r.value])
        && colLen[..] == WidthsFrom(w0, recs + [r.value])
      ensures r.Err? ==>
        && LoadAll(content, delimiter) == Err(r.error)
        && StoppedAt(content, delimiter, |done|, r.error, objs0, w0, objList, colLen[..])
        && objList == objs0 + recs
        && forall j :: 0 <= j < SlotCount ==> w0[j] <= colLen[j]
    {
      ghost var before := colLen[..];
      r := LoadLine(line);
      LoadStep(content, done, rest, line, recs, delimiter);
      if r.Ok? {
        WidthsSnoc(w0, recs, r.value);
        objList := objList + [r.value];
      } else {
        assert forall j :: 0 <= j < SlotCount ==> w0[j] <= before[j] <= colLen[j];
        StopsHere(content, done, rest, line, recs, delimiter);
      }
    }

    /** nodify.py:180-187: split and strip one line, choose its kind and load it. */
    method LoadLine(line: string) returns (r: Result<Node, LoadError>)
      requires Valid() && |delimiter| > 0
      modifies colLen
      ensures r == ParseLine(line, delimiter)
      ensures colLen[..] == LineWidths(old(colLen[..]), line, delimiter)
    {
      var vals := StripAll(Split(line, delimiter));
      var kind := KindOf(vals);
      if kind.Err? {
        return Err(kind.error);
      }
      r := Load(kind.value, vals);
    }

    /** The row-writing loops of `table_output_cl`: one row per record, in order. */
    method TableOutput() returns (rows: seq<string>)
      requires Valid()
      ensures rows == Render(objList, colLen[..], delimiter)
    {
      rows := [];
      for k := 0 to |objList|
        invariant rows == Render(objList[..k], colLen[..], delimiter)
      {
        var row := FormatRow(objList[k]);
        assert objList[..k + 1][..k] == objList[..k];
        rows := rows + [row];
      }
      assert objList[..|objList|] == objList;
    }

    /** The inner loop of `table_output_cl`: each value centered to its slot's width, delimited, then a line break. */
    method FormatRow(n: Node) returns (row: string)
      requires Valid()
      ensures row == Row(n, colLen[..], delimiter)
    {
      var lineVals := DisplayRow(n);
      ghost var cells := Cells(n, colLen[..]);
      row := "";
      for i := 0 to SlotCount
        invariant i == 0 ==> row == ""
        invariant 0 < i < SlotCount ==> row == Join(cells[..i], delimiter) + delimiter
        invariant i == SlotCount ==> row == Join(cells, delimiter)
      {
        JoinSnocCells(cells, i, delimiter);
        row := row + Center(lineVals[i], colLen[i]);
        if i != TitleIndex {
          row := row + delimiter;
        }
      }
      row := row + "\n";
    }
  }

  lemma JoinSnocCells(cells: seq<string>, i: int, d: string)
    requires 0 <= i < |cells|
    ensures i == 0 ==> Join(cells[..i + 1], d) == cells[i]
    ensures i > 0 ==> Join(cells[..i + 1], d) == Join(cells[..i], d) + d + cells[i]
    ensures i + 1 == |cells| ==> cells[..i + 1] == cells
  {
    if i > 0 {
      assert cells[..i + 1] == cells[..i] + [cells[i]];
      JoinSnoc(cells[..i], cells[i], d);
    }
  }

}
