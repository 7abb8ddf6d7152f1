/**
 * The records of a schema description (the `Node`, `Database`, `Table`,
 * `Column`, `DataType`, `Integer` and `String` classes), how one split and
 * stripped input line becomes a record (the choice in `restruct_data_arr`
 * and the three `load` overloads), and the display row of a record (the
 * three `obj_attr_to_list` overloads).
 */
module Nodes {
  import opened Results
  import opened Text

  /** The five positional slots of a line and of a display row. */
  const DbNameIndex := 0
  const TblNameIndex := 1
  const ColNameIndex := 2
  const ColDtypeIndex := 3
  const TitleIndex := 4
  const SlotCount := 5

  /** A column's data type, carrying the token it was read from, case preserved. */
  datatype DType = Integer(name: string) | String(name: string)

  datatype Node =
    | Database(name: string, title: string)
    | Table(name: string, title: string)
    | Column(name: string, title: string, dtype: DType)

  /** Which `load` overload a line is dispatched to. */
  datatype Kind = DatabaseKind | TableKind | ColumnKind

  /**
   * Why loading a line stops the run: a slot index past the end of the
   * pieces (Python's `IndexError`), or a column whose type is neither
   * integer nor string, whose `dtype` is then never set (Python's
   * `AttributeError` when its name is read).
   */
  datatype LoadError = IndexOutOfRange | UnknownDataType

  /** The kind of a line: slot 0 non-empty is a database, else slot 1 non-empty a table, else a column. */
  function KindOf(vals: seq<string>): Result<Kind, LoadError>
  {
    if |vals| <= DbNameIndex then Err(IndexOutOfRange)
    else if vals[DbNameIndex] != "" then Ok(DatabaseKind)
    else if |vals| <= TblNameIndex then Err(IndexOutOfRange)
    else if vals[TblNameIndex] != "" then Ok(TableKind)
    else Ok(ColumnKind)
  }

  /** The data type a type token names, compared case-insensitively. */
  function DataTypeOf(token: string): Option<DType>
  {
    if CaseFold(token) == "integer" then Some(Integer(token))
    else if CaseFold(token) == "string" then Some(String(token))
    else None
  }

  /**
   * A type token folds to `integer` or `string` exactly when it is that word
   * with each letter in either case.
   */
  lemma TypeTokens(t: string)
    ensures CaseFold(t) == "integer" <==>
      |t| == 7 && forall i :: 0 <= i < 7 ==> t[i] == "integer"[i] || t[i] == "INTEGER"[i]
    ensures CaseFold(t) == "string" <==>
      |t| == 6 && forall i :: 0 <= i < 6 ==> t[i] == "string"[i] || t[i] == "STRING"[i]
  {
    FoldsTo(t, "integer", "INTEGER");
    FoldsTo(t, "string", "STRING");
  }

  /** Folding gives the lower-case word `lo` exactly when each character is its letter in either case. */
  lemma FoldsTo(t: string, lo: string, up: string)
    requires |lo| == |up|
    requires forall i :: 0 <= i < |lo| ==> 'a' <= lo[i] <= 'z' && up[i] as int == lo[i] as int - 32
    ensures CaseFold(t) == lo <==> |t| == |lo| && forall i :: 0 <= i < |lo| ==> t[i] == lo[i] || t[i] == up[i]
  {
    if |t| == |lo| {
      if forall i :: 0 <= i < |lo| ==> t[i] == lo[i] || t[i] == up[i] {
        assert forall i :: 0 <= i < |lo| ==> CaseFold(t)[i] == lo[i];
      }
      if CaseFold(t) == lo {
        forall i | 0 <= i < |lo|
          ensures t[i] == lo[i] || t[i] == up[i]
        {
          assert Lower(t[i]) == lo[i];
        }
      }
    }
  }

  /** The `load` overload for `kind`: the name from the kind's own slot, the title from the last piece. */
  function LoadNode(kind: Kind, vals: seq<string>): Result<Node, LoadError>
  {
    match kind
    case DatabaseKind =>
      if |vals| <= DbNameIndex then Err(IndexOutOfRange)
      else Ok(Database(vals[DbNameIndex], vals[|vals| - 1]))
    case TableKind =>
      if |vals| <= TblNameIndex then Err(IndexOutOfRange)
      else Ok(Table(vals[TblNameIndex], vals[|vals| - 1]))
    case ColumnKind =>
      if |vals| <= ColDtypeIndex then Err(IndexOutOfRange)
      else
        match DataTypeOf(vals[ColDtypeIndex])
        case None => Err(UnknownDataType)
        case Some(t) => Ok(Column(vals[ColNameIndex], vals[|vals| - 1], t))
  }

  /**
   * One stripped line to a record, first match wins: a non-empty slot 0 makes
   * a database named by it, else a non-empty slot 1 a table named by it, else
   * a column named by slot 2 whose type is slot 3; every title is the last
   * piece.
   */
  function Classify(vals: seq<string>): Result<Node, LoadError>
  {
    match KindOf(vals)
    case Err(e) => Err(e)
    case Ok(kind) => LoadNode(kind, vals)
  }

  /** The outcome of classification, case by case, with the fields it loads. */
  lemma ClassifyCases(vals: seq<string>)
    ensures var r := Classify(vals);
      && (r.Ok? && r.value.Database? <==> |vals| >= 1 && vals[0] != "")
      && (r.Ok? && r.value.Table? <==> |vals| >= 2 && vals[0] == "" && vals[1] != "")
      && (r.Ok? && r.value.Column? <==>
            |vals| >= 4 && vals[0] == "" && vals[1] == "" && CaseFold(vals[3]) in {"integer", "string"})
      && (r == Err(UnknownDataType) <==>
            |vals| >= 4 && vals[0] == "" && vals[1] == "" && CaseFold(vals[3]) !in {"integer", "string"})
      && (r == Err(IndexOutOfRange) <==>
            (|vals| < 2 && (|vals| == 0 || vals[0] == "")) || (|vals| >= 2 && vals[0] == "" && vals[1] == "" && |vals| < 4))
      && (r.Ok? ==> r.value.title == vals[|vals| - 1])
      && (r.Ok? && r.value.Database? ==> r.value.name == vals[0])
      && (r.Ok? && r.value.Table? ==> r.value.name == vals[1])
      && (r.Ok? && r.value.Column? ==>
            && r.value.name == vals[2] && r.value.dtype.name == vals[3]
            && (r.value.dtype.Integer? <==> CaseFold(vals[3]) == "integer"))
  {
  }

  /** `obj_attr_to_list`: the record's own slot(s) and its title, every other slot empty. */
  function DisplayRow(n: Node): (r: seq<string>)
    ensures |r| == SlotCount
  {
    match n
    case Database(name, title) => [name, "", "", "", title]
    case Table(name, title) => ["", name, "", "", title]
    case Column(name, title, t) => ["", "", name, t.name, title]
  }

  /**
   * The records classification can produce: a database or table is named,
   * and a column's type agrees with the case-folded token it carries.
   */
  predicate Consistent(n: Node)
  {
    match n
    case Database(name, _) => name != ""
    case Table(name, _) => name != ""
    case Column(_, _, t) => DataTypeOf(t.name) == Some(t)
  }

  /** Every value a record shows is stripped and free of the separator `d`. */
  predicate Clean(n: Node, d: string)
    requires |d| > 0
  {
    forall i :: 0 <= i < SlotCount ==> IsStripped(DisplayRow(n)[i]) && !Contains(DisplayRow(n)[i], d)
  }

  /** Classifying a record's display row gives the record back exactly when it is one classification can produce. */
  lemma ClassifyDisplayRow(n: Node)
    ensures Classify(DisplayRow(n)) == Ok(n) <==> Consistent(n)
  {
  }

  /** Whatever classification produces is consistent. */
  lemma ClassifiedConsistent(vals: seq<string>)
    requires Classify(vals).Ok?
    ensures Consistent(Classify(vals).value)
  {
  }

  /** A record classified from stripped, separator-free pieces is clean. */
  lemma ClassifiedClean(vals: seq<string>, d: string)
    requires |d| > 0
    requires forall k :: 0 <= k < |vals| ==> IsStripped(vals[k]) && !Contains(vals[k], d)
    requires Classify(vals).Ok?
    ensures Clean(Classify(vals).value, d)
  {
    var n := Classify(vals).value;
    forall i | 0 <= i < SlotCount
      ensures IsStripped(DisplayRow(n)[i]) && !Contains(DisplayRow(n)[i], d)
    {
      if DisplayRow(n)[i] == "" {
        assert !OccursAt("", d, 0);
      }
    }
  }

}
