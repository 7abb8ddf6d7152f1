/**
 * Properties of a whole restructuring pass: what an empty input does, that
 * the header line only chooses the delimiter, what the slot widths are, and
 * that the rendered table reads back as the records it was rendered from.
 */
module Properties {
  import opened Results
  import opened Text
  import opened Nodes
  import opened Nodify

  /** With no header to split, no delimiter fits: an empty input never loads anything. */
  lemma EmptyHeaderFails(lines: seq<string>, configured: string)
    requires Line(lines, 0) == ""
    ensures Restructure(lines, configured) == if configured == "" then Err(EmptySeparator) else Err(NoDelimiter)
  {
    if configured != "" {
      assert !Fits("", configured);
      CandidatesNonEmpty();
      forall k | 0 <= k < |Candidates|
        ensures !Fits("", Candidates[k])
      {
        assert |Split("", Candidates[k])| == 1;
      }
    }
  }

  /** When the configured delimiter does not fit the header, the one resolution picks is a different candidate. */
  lemma ResolvedDiffers(header: string, configured: string)
    requires configured != "" && |Split(header, configured)| < MinHeaderPieces
    requires Resolve(header, configured).Ok?
    ensures Resolve(header, configured).value != configured
    ensures Resolve(header, configured).value in Candidates
  {
  }

  /** Two inputs that agree from the second line on read the same content lines from index `i >= 1`. */
  lemma {:induction false} ContentFromAfterHeader(l1: seq<string>, l2: seq<string>, i: nat)
    requires i >= 1 && |l1| >= 1 && |l2| >= 1 && l1[1..] == l2[1..]
    ensures ContentFrom(l1, i) == ContentFrom(l2, i)
    decreases |l1| - i
  {
    assert |l1| == |l2|;
    assert i < |l1| ==> l1[i] == l1[1..][i - 1] == l2[i];
    if Line(l1, i) != "" {
      ContentFromAfterHeader(l1, l2, i + 1);
    }
  }

  /** The header line is never loaded: it only decides the delimiter. */
  lemma HeaderOnlyChoosesDelimiter(h1: string, h2: string, body: seq<string>, configured: string)
    requires Resolve(h1, configured) == Resolve(h2, configured)
    ensures Restructure([h1] + body, configured) == Restructure([h2] + body, configured)
  {
    assert ([h1] + body)[1..] == body == ([h2] + body)[1..];
    ContentFromAfterHeader([h1] + body, [h2] + body, 1);
  }

  /** Reading stops only at an empty line: with none, every line from `i` on is read. */
  lemma {:induction false} ContentFromAll(lines: seq<string>, i: nat)
    requires i <= |lines|
    requires forall k :: i <= k < |lines| ==> lines[k] != ""
    ensures ContentFrom(lines, i) == lines[i..]
    decreases |lines| - i
  {
    if i < |lines| {
      ContentFromAll(lines, i + 1);
      assert lines[i..] == [lines[i]] + lines[i + 1..];
    }
  }

  /** Every line after the header is loaded when none of them is empty (each ends with its line break). */
  lemma ContentIsBody(header: string, body: seq<string>)
    requires forall k :: 0 <= k < |body| ==> body[k] != ""
    ensures ContentLines([header] + body) == body
  {
    var lines := [header] + body;
    assert forall k :: 1 <= k < |lines| ==> lines[k] == body[k - 1];
    ContentFromAll(lines, 1);
    assert lines[1..] == body;
  }

  /**
   * When no line after the header is empty, a completed pass holds one
   * record per line from the second on, in input order, each that line's own
   * parse.
   */
  lemma RecordsFollowLines(header: string, body: seq<string>, configured: string)
    requires forall k :: 0 <= k < |body| ==> body[k] != ""
    requires Restructure([header] + body, configured).Ok?
    ensures var p := Restructure([header] + body, configured).value;
      && |p.records| == |body|
      && forall k :: 0 <= k < |body| ==> ParseLine(body[k], p.delimiter) == Ok(p.records[k])
  {
    ContentIsBody(header, body);
    LoadAllOk(body, Restructure([header] + body, configured).value.delimiter);
  }

  /**
   * Each width is the largest of its starting value and the lengths of the
   * values the records show in that slot, and is one of them.
   */
  lemma WidthsAreMaxima(w: seq<nat>, rs: seq<Node>)
    requires |w| == SlotCount
    ensures var r := WidthsFrom(w, rs);
      forall i :: 0 <= i < SlotCount ==>
        && w[i] <= r[i]
        && (forall k :: 0 <= k < |rs| ==> |DisplayRow(rs[k])[i]| <= r[i])
        && (r[i] == w[i] || exists k :: 0 <= k < |rs| && r[i] == |DisplayRow(rs[k])[i]|)
  {
    forall i | 0 <= i < SlotCount
      ensures var r := WidthsFrom(w, rs);
        && (forall k :: 0 <= k < |rs| ==> |DisplayRow(rs[k])[i]| <= r[i])
        && (r[i] == w[i] || exists k :: 0 <= k < |rs| && r[i] == |DisplayRow(rs[k])[i]|)
    {
      SlotBound(w, rs, i);
      SlotAttained(w, rs, i);
    }
  }

  /** Slot `i` after one more record: the larger of its width before and that record's value. */
  lemma SlotStep(w: seq<nat>, rs: seq<Node>, i: int)
    requires |w| == SlotCount && 0 <= i < SlotCount && rs != []
    ensures WidthsFrom(w, rs)[i] == Max(WidthsFrom(w, rs[..|rs| - 1])[i], |DisplayRow(rs[|rs| - 1])[i]|)
  {
  }

  /** No record's value in slot `i` is wider than the slot. */
  lemma {:induction false} SlotBound(w: seq<nat>, rs: seq<Node>, i: int)
    requires |w| == SlotCount && 0 <= i < SlotCount
    ensures forall k :: 0 <= k < |rs| ==> |DisplayRow(rs[k])[i]| <= WidthsFrom(w, rs)[i]
    decreases |rs|
  {
    if rs != [] {
      var front := rs[..|rs| - 1];
      SlotBound(w, front, i);
      SlotStep(w, rs, i);
      assert forall k :: 0 <= k < |front| ==> rs[k] == front[k];
    }
  }

  /** The width of slot `i` is its start or some record's value there. */
  lemma {:induction false} SlotAttained(w: seq<nat>, rs: seq<Node>, i: int)
    requires |w| == SlotCount && 0 <= i < SlotCount
    ensures var r := WidthsFrom(w, rs)[i];
      r == w[i] || exists k :: 0 <= k < |rs| && r == |DisplayRow(rs[k])[i]|
    decreases |rs|
  {
    if rs != [] {
      var front := rs[..|rs| - 1];
      SlotAttained(w, front, i);
      SlotStep(w, rs, i);
      var f := WidthsFrom(w, front)[i];
      var r := WidthsFrom(w, rs)[i];
      if r != f {
        assert r == |DisplayRow(rs[|rs| - 1])[i]|;
      } else if f != w[i] {
        var k :| 0 <= k < |front| && f == |DisplayRow(front[k])[i]|;
        assert rs[k] == front[k];
      }
    }
  }

  /** Loading in two runs leaves the widths one run over all the records would. */
  lemma {:induction false} WidthsCompose(w: seq<nat>, rs: seq<Node>, ts: seq<Node>)
    requires |w| == SlotCount
    ensures WidthsFrom(WidthsFrom(w, rs), ts) == WidthsFrom(w, rs + ts)
    decreases |ts|
  {
    if ts == [] {
      assert rs + ts == rs;
    } else {
      WidthsCompose(w, rs, ts[..|ts| - 1]);
      assert (rs + ts)[..|rs + ts| - 1] == rs + ts[..|ts| - 1];
    }
  }

  /**
   * In the table a pass writes, cell `i` of every row is exactly as wide as
   * slot `i`, and stripping it gives back the record's value in that slot.
   */
  lemma CellLayout(lines: seq<string>, configured: string, k: int, i: int)
    requires Restructure(lines, configured).Ok?
    requires 0 <= k < |Restructure(lines, configured).value.records| && 0 <= i < SlotCount
    ensures var p := Restructure(lines, configured).value;
      var cell := Cells(p.records[k], p.colLen)[i];
      && |cell| == p.colLen[i]
      && Strip(cell) == DisplayRow(p.records[k])[i]
  {
    var p := Restructure(lines, configured).value;
    var n := p.records[k];
    WidthsAreMaxima(Zeros, p.records);
    assert n in p.records;
    LoadedClean(ContentLines(lines), p.delimiter);
    StripCenter(DisplayRow(n)[i], p.colLen[i], "");
    CenterSpec(DisplayRow(n)[i], p.colLen[i]);
    assert Cells(n, p.colLen)[i] + "" == Cells(n, p.colLen)[i];
  }

  /** A record the pass loads is consistent, and the values it shows are stripped and free of the delimiter. */
  lemma ParsedClean(line: string, d: string)
    requires |d| > 0
    requires ParseLine(line, d).Ok?
    ensures Consistent(ParseLine(line, d).value) && Clean(ParseLine(line, d).value, d)
  {
    var pieces := Split(line, d);
    var vals := StripAll(pieces);
    SplitLeftmost(line, d);
    forall k | 0 <= k < |vals|
      ensures IsStripped(vals[k]) && !Contains(vals[k], d)
    {
      var _ := StripSpec(pieces[k]);
      if k < |pieces| - 1 {
        var x := pieces[k] + d[..|d| - 1];
        assert pieces[k] == x[..|pieces[k]|];
        SliceFree(x, d, 0, |pieces[k]|);
      }
      StripFree(pieces[k], d);
    }
    ClassifiedConsistent(vals);
    ClassifiedClean(vals, d);
  }

  /** Every record of a successful load is consistent and clean. */
  lemma LoadedClean(content: seq<string>, d: string)
    requires |d| > 0
    requires LoadAll(content, d).Ok?
    ensures forall n :: n in LoadAll(content, d).value ==> Consistent(n) && Clean(n, d)
  {
    var rs := LoadAll(content, d).value;
    LoadAllOk(content, d);
    forall n | n in rs
      ensures Consistent(n) && Clean(n, d)
    {
      var k :| 0 <= k < |rs| && rs[k] == n;
      ParsedClean(content[k], d);
    }
  }

  /** A delimiter the round trip works for: one character, not whitespace. */
  predicate Plain(d: string)
  {
    |d| == 1 && !IsSpace(d[0])
  }

  /** A centered value free of a plain delimiter stays free of it. */
  lemma CenterFree(s: string, w: nat, d: string)
    requires Plain(d) && !Contains(s, d)
    ensures !Contains(Center(s, w), d)
  {
    FreeOfChar(s, d);
    CenterSpec(s, w);
    var r := Center(s, w);
    var left := (|r| - |s|) / 2;
    forall i | 0 <= i < |r|
      ensures r[i] != d[0]
    {
      if left <= i < left + |s| {
        assert r[i] == r[left..left + |s|][i - left] == s[i - left];
      }
    }
    FreeOfChar(r, d);
  }

  /** The pieces a rendered row splits into: the five cells, the line break kept on the last. */
  function RowPieces(n: Node, w: seq<nat>): seq<string>
    requires |w| == SlotCount
  {
    Cells(n, w)[..TitleIndex] + [Cells(n, w)[TitleIndex] + "\n"]
  }

  lemma JoinLastTail(parts: seq<string>, t: string, d: string)
    requires |parts| >= 2
    ensures Join(parts[..|parts| - 1] + [parts[|parts| - 1] + t], d) == Join(parts, d) + t
  {
    var front := parts[..|parts| - 1];
    JoinSnoc(front, parts[|parts| - 1] + t, d);
    JoinSnoc(front, parts[|parts| - 1], d);
    assert front + [parts[|parts| - 1]] == parts;
  }

  /** A clean record's row splits, with a plain delimiter, into its cells. */
  lemma SplitRow(n: Node, w: seq<nat>, d: string)
    requires |w| == SlotCount && Plain(d) && Clean(n, d)
    ensures Split(Row(n, w, d), d) == RowPieces(n, w)
  {
    var cells := Cells(n, w);
    var pieces := RowPieces(n, w);
    JoinLastTail(cells, "\n", d);
    assert Join(pieces, d) == Row(n, w, d);
    FreeOfChar("\n", d);
    forall k | 0 <= k < |pieces|
      ensures !Contains(pieces[k], d)
    {
      CenterFree(DisplayRow(n)[k], w[k], d);
      if k == TitleIndex {
        FreeOfChar(cells[k], d);
        FreeOfChar(cells[k] + "\n", d);
      }
    }
    forall k | 0 <= k < |pieces| - 1
      ensures !Contains(pieces[k] + d[..|d| - 1], d)
    {
      assert pieces[k] + d[..|d| - 1] == pieces[k];
    }
    SplitOfJoin(pieces, d);
  }

  /** A consistent, clean record's row parses back, with a plain delimiter, into the record, whatever the widths. */
  lemma ParseRow(n: Node, w: seq<nat>, d: string)
    requires |w| == SlotCount && Plain(d) && Consistent(n) && Clean(n, d)
    ensures ParseLine(Row(n, w, d), d) == Ok(n)
  {
    SplitRow(n, w, d);
    var pieces := RowPieces(n, w);
    var vals := StripAll(pieces);
    forall k | 0 <= k < SlotCount
      ensures vals[k] == DisplayRow(n)[k]
    {
      if k == TitleIndex {
        StripCenter(DisplayRow(n)[k], w[k], "\n");
      } else {
        StripCenter(DisplayRow(n)[k], w[k], "");
        assert Center(DisplayRow(n)[k], w[k]) + "" == Center(DisplayRow(n)[k], w[k]);
      }
    }
    assert vals == DisplayRow(n);
    ClassifyDisplayRow(n);
  }

  /** The rendered rows of consistent, clean records load back into those records. */
  lemma {:induction false} LoadRendered(rs: seq<Node>, w: seq<nat>, d: string)
    requires |w| == SlotCount && Plain(d)
    requires forall n :: n in rs ==> Consistent(n) && Clean(n, d)
    ensures LoadAll(Render(rs, w, d), d) == Ok(rs)
    decreases |rs|
  {
    if rs != [] {
      var front := rs[..|rs| - 1];
      var last := rs[|rs| - 1];
      assert rs == front + [last];
      assert last in rs;
      ParseRow(last, w, d);
      assert forall n :: n in front ==> n in rs;
      LoadRendered(front, w, d);
      RenderSnoc(rs, w, d);
      LoadAllSnoc(Render(front, w, d), Row(last, w, d), d);
    }
  }

  lemma RenderSnoc(rs: seq<Node>, w: seq<nat>, d: string)
    requires |w| == SlotCount && rs != []
    ensures Render(rs, w, d) == Render(rs[..|rs| - 1], w, d) + [Row(rs[|rs| - 1], w, d)]
  {
  }

  /**
   * The table written for a pass, read again with the delimiter the pass
   * chose and behind a header that delimiter fits, gives back the same
   * records and the same widths.
   */
  lemma RenderRoundTrip(lines: seq<string>, configured: string)
    requires Restructure(lines, configured).Ok?
    requires Plain(Restructure(lines, configured).value.delimiter)
    ensures var p := Restructure(lines, configured).value;
      Restructure([Line(lines, 0)] + Render(p.records, p.colLen, p.delimiter), p.delimiter) == Ok(p)
  {
    var p := Restructure(lines, configured).value;
    var d := p.delimiter;
    var rows := Render(p.records, p.colLen, d);
    assert Resolve(Line(lines, 0), d) == Ok(d);
    LoadedClean(ContentLines(lines), d);
    LoadRendered(p.records, p.colLen, d);
    ContentIsBody(Line(lines, 0), rows);
  }

}
