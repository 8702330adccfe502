/** A pandas DataFrame as the cleaning scripts see it after `pd.read_csv`:
    named columns, each either text (object dtype holding strings, which
    `is_string_dtype` reports as string) or numeric, and rows of cells. */
module Frames {
  import opened Text
  import opened Decimal

  /** One cell: missing (NaN), a string, or a number. */
  datatype Cell = NA | Str(s: string) | Num(d: Dec)

  datatype Column = Column(name: string, isText: bool)

  datatype Frame = Frame(columns: seq<Column>, rows: seq<seq<Cell>>)

  /** Every row has one cell per column. */
  predicate WellFormed(f: Frame)
  {
    forall i :: 0 <= i < |f.rows| ==> |f.rows[i]| == |f.columns|
  }

  /** The index of the column with this name, when exactly one column has it. */
  function UniqueIndex(columns: seq<Column>, name: string): (r: Option<nat>)
    ensures r.Some? ==> r.value < |columns| && columns[r.value].name == name
    ensures r.Some? ==> forall k :: 0 <= k < |columns| && k != r.value ==> columns[k].name != name
    ensures r.Some? <==> Count(columns, name) == 1
  {
    if columns == [] then None
    else if columns[0].name == name then
      if Count(columns[1..], name) == 0 then
        CountZero(columns[1..], name);
        Some(0)
      else None
    else
      match UniqueIndex(columns[1..], name)
      case None => None
      case Some(k) => Some(k + 1)
  }

  /** How many columns carry this name. */
  function Count(columns: seq<Column>, name: string): nat
  {
    if columns == [] then 0
    else (if columns[0].name == name then 1 else 0) + Count(columns[1..], name)
  }

  lemma {:induction false} CountZero(columns: seq<Column>, name: string)
    requires Count(columns, name) == 0
    ensures forall k :: 0 <= k < |columns| ==> columns[k].name != name
  {
    if columns != [] {
      CountZero(columns[1..], name);
      assert forall k :: 1 <= k < |columns| ==> columns[k] == columns[1..][k - 1];
    }
  }

  /** Python's `str(value)` of a number, in plain decimal notation. */
  function CellText(c: Cell): string
  {
    match c
    case NA => "nan"
    case Str(s) => s
    case Num(d) => Render(d)
  }
}
