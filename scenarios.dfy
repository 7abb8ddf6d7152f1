/** Splits and joins of the concrete lines the scenarios use. */
module ExampleLines {
  import opened Text

  /** Pieces free of a one-character separator are the split of their join. */
  lemma SplitOfPlainJoin(pieces: seq<string>, d: string)
    requires |d| == 1 && |pieces| >= 1
    requires forall k :: 0 <= k < |pieces| ==> d[0] !in pieces[k]
    ensures Split(Join(pieces, d), d) == pieces
  {
    forall k | 0 <= k < |pieces|
      ensures !Contains(pieces[k] + d[..|d| - 1], d)
    {
      FreeOfChar(pieces[k], d);
      assert pieces[k] + d[..|d| - 1] == pieces[k];
    }
    SplitOfJoin(pieces, d);
  }

  lemma CommaHeaderPieces()
    ensures Split("a,b,c\n", "|") == ["a,b,c\n"]
    ensures Split("a,b,c\n", ",") == ["a", "b", "c\n"]
  {
    CommaHeaderWhole();
    CommaHeaderSplit();
  }

  lemma CommaHeaderWhole()
    ensures Split("a,b,c\n", "|") == ["a,b,c\n"]
  {
    assert '|' !in "a,b,c\n";
    SplitOfPlainJoin(["a,b,c\n"], "|");
  }

  lemma CommaHeaderSplit()
    ensures Split("a,b,c\n", ",") == ["a", "b", "c\n"]
  {
    var pieces := ["a", "b", "c\n"];
    JoinCommaValues();
    assert ',' !in pieces[0] && ',' !in pieces[1] && ',' !in pieces[2];
    SplitOfPlainJoin(pieces, ",");
  }

  lemma JoinCommaValues()
    ensures Join(["a", "b", "c\n"], ",") == "a,b,c\n"
  {
  }

  lemma HeaderPieces()
    ensures Split("db1||||Main DB\n", "|") == ["db1", "", "", "", "Main DB\n"]
  {
    var pieces := ["db1", "", "", "", "Main DB\n"];
    JoinHeaderValues();
    assert '|' !in pieces[0] && '|' !in pieces[4];
    SplitOfPlainJoin(pieces, "|");
  }

  lemma JoinHeaderValues()
    ensures Join(["db1", "", "", "", "Main DB\n"], "|") == "db1||||Main DB\n"
  {
  }

  /** A five-value row joined: the values with the separator between each two. */
  lemma JoinFive(a: string, b: string, c: string, e: string, f: string, d: string)
    ensures Join([a, b, c, e, f], d) == (a + d) + ((b + d) + ((c + d) + ((e + d) + f)))
  {
    assert [e, f][1..] == [f];
    assert Join([e, f], d) == (e + d) + f;
    assert [c, e, f][1..] == [e, f];
    assert Join([c, e, f], d) == (c + d) + Join([e, f], d);
    assert [b, c, e, f][1..] == [c, e, f];
    assert Join([b, c, e, f], d) == (b + d) + Join([c, e, f], d);
    assert [a, b, c, e, f][1..] == [b, c, e, f];
  }

  lemma JoinTableValues()
    ensures Join(["", "tbl1", "", "", "Users table"], "|") + "\n" == "|tbl1|||Users table\n"
  {
    JoinFive("", "tbl1", "", "", "Users table", "|");
  }

  lemma JoinColumnValues()
    ensures Join(["", "", "col1", "integer", "ID column"], "|") + "\n" == "||col1|integer|ID column\n"
  {
    JoinFive("", "", "col1", "integer", "ID column", "|");
  }
}

/** Concrete passes over small inputs. */
module Scenarios {
  import opened Results
  import opened Text
  import opened Nodes
  import opened Nodify
  import opened Properties
  import opened ExampleLines

  /** A header "a,b,c" has one piece under the configured "|", so the pass falls back to ",". */
  lemma CommaHeaderResolves()
    ensures Resolve("a,b,c\n", "|") == Ok(",")
  {
    CommaHeaderPieces();
    assert !Fits("a,b,c\n", "|");
    assert Fits("a,b,c\n", Candidates[0]);
  }

  lemma ExampleHeader()
    ensures Resolve("db1||||Main DB\n", "|") == Ok("|")
  {
    HeaderPieces();
  }

  /** With zero widths a row is the record's values joined as they are. */
  lemma RowOfZeros(n: Node, d: string)
    ensures Row(n, Zeros, d) == Join(DisplayRow(n), d) + "\n"
  {
    assert Cells(n, Zeros) == DisplayRow(n);
  }

  lemma ExampleRecords()
    ensures var t, c := Table("tbl1", "Users table"), Column("col1", "ID column", Integer("integer"));
      && Consistent(t) && Clean(t, "|") && Consistent(c) && Clean(c, "|")
  {
    ExampleTableClean();
    ExampleColumnClean();
  }

  lemma ExampleTableClean()
    ensures Consistent(Table("tbl1", "Users table")) && Clean(Table("tbl1", "Users table"), "|")
  {
    var t := Table("tbl1", "Users table");
    forall i | 0 <= i < SlotCount
      ensures IsStripped(DisplayRow(t)[i]) && !Contains(DisplayRow(t)[i], "|")
    {
      FreeOfChar(DisplayRow(t)[i], "|");
    }
  }

  lemma ExampleColumnClean()
    ensures var c := Column("col1", "ID column", Integer("integer"));
      Consistent(c) && Clean(c, "|")
  {
    assert CaseFold("integer") == "integer";
    var c := Column("col1", "ID column", Integer("integer"));
    forall i | 0 <= i < SlotCount
      ensures IsStripped(DisplayRow(c)[i]) && !Contains(DisplayRow(c)[i], "|")
    {
      FreeOfChar(DisplayRow(c)[i], "|");
    }
  }

  lemma ExampleTableRow()
    ensures Row(Table("tbl1", "Users table"), Zeros, "|") == "|tbl1|||Users table\n"
  {
    RowOfZeros(Table("tbl1", "Users table"), "|");
    JoinTableValues();
  }

  lemma ExampleColumnRow()
    ensures Row(Column("col1", "ID column", Integer("integer")), Zeros, "|") == "||col1|integer|ID column\n"
  {
    RowOfZeros(Column("col1", "ID column", Integer("integer")), "|");
    JoinColumnValues();
  }

  lemma ExampleRows()
    ensures Render([Table("tbl1", "Users table"), Column("col1", "ID column", Integer("integer"))], Zeros, "|")
      == ["|tbl1|||Users table\n", "||col1|integer|ID column\n"]
  {
    ExampleTableRow();
    ExampleColumnRow();
  }

  lemma ExampleWidths()
    ensures Widths([Table("tbl1", "Users table"), Column("col1", "ID column", Integer("integer"))]) == [0, 4, 4, 7, 11]
  {
    var t, c := Table("tbl1", "Users table"), Column("col1", "ID column", Integer("integer"));
    assert [t, c][..1] == [t] && [t][..0] == [];
    assert WidthsFrom(Zeros, [t]) == Bump(Zeros, DisplayRow(t)) == [0, 4, 0, 0, 11];
    assert WidthsFrom(Zeros, [t, c]) == Bump([0, 4, 0, 0, 11], DisplayRow(c));
  }

  /** Behind any header, the rows rendered for consistent, clean records are loaded back into them. */
  lemma LoadsAfterHeader(h: string, rs: seq<Node>, w: seq<nat>, d: string)
    requires |w| == SlotCount && Plain(d)
    requires forall n :: n in rs ==> Consistent(n) && Clean(n, d)
    ensures LoadAll(ContentLines([h] + Render(rs, w, d)), d) == Ok(rs)
  {
    ContentIsBody(h, Render(rs, w, d));
    LoadRendered(rs, w, d);
  }

  /**
   * The first line is always taken as the header, even when it is a record:
   * of the three lines below only the table and the column are loaded, and
   * the database slot stays zero wide.
   */
  lemma FirstLineIsHeader()
    ensures Restructure(["db1||||Main DB\n", "|tbl1|||Users table\n", "||col1|integer|ID column\n"], "|")
      == Ok(Pass("|", [Table("tbl1", "Users table"), Column("col1", "ID column", Integer("integer"))], [0, 4, 4, 7, 11]))
  {
    var rs := [Table("tbl1", "Users table"), Column("col1", "ID column", Integer("integer"))];
    ExampleHeader();
    ExampleRecords();
    ExampleRows();
    LoadsAfterHeader("db1||||Main DB\n", rs, Zeros, "|");
    assert ["db1||||Main DB\n"] + Render(rs, Zeros, "|")
      == ["db1||||Main DB\n", "|tbl1|||Users table\n", "||col1|integer|ID column\n"];
    ExampleWidths();
  }
}
