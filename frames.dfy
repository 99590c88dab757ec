/**
 * The slice of a pandas DataFrame that the cleaning and modelling code
 * touches: named columns of cells, all with the same number of rows.
 */
module Frames {
  import opened Wrappers
  import opened Calendar

  /** One cell: a spreadsheet string, a number, an integer, a timestamp, or NA/NaN/NaT. */
  datatype Cell = Text(s: string) | Number(x: real) | Integer(i: int) | Stamp(d: CalendarDate) | Missing

  datatype Column = Column(name: string, cells: seq<Cell>)

  /** A table value: the length of its index and its columns, left to right. */
  datatype Table = Table(rows: nat, columns: seq<Column>)

  predicate Rectangular(t: Table) {
    forall k :: 0 <= k < |t.columns| ==> |t.columns[k].cells| == t.rows
  }

  /** The position of the first column called `name`. */
  function IndexOf(cols: seq<Column>, name: string): (r: Option<nat>)
    ensures r.Some? ==> r.value < |cols| && cols[r.value].name == name
    ensures r.Some? ==> forall k :: 0 <= k < r.value ==> cols[k].name != name
    ensures r.None? ==> forall k :: 0 <= k < |cols| ==> cols[k].name != name
  {
    if cols == [] then None
    else if cols[0].name == name then Some(0)
    else match IndexOf(cols[1..], name)
      case None => None
      case Some(k) => Some(k + 1)
  }

  /** `df[name]`: the cells of the column called `name`, or `None` for pandas' KeyError. */
  function Get(t: Table, name: string): (r: Option<seq<Cell>>)
    ensures r.None? <==> forall k :: 0 <= k < |t.columns| ==> t.columns[k].name != name
    ensures r.Some? ==> exists k :: 0 <= k < |t.columns| && t.columns[k] == Column(name, r.value)
    ensures r.Some? && Rectangular(t) ==> |r.value| == t.rows
  {
    match IndexOf(t.columns, name)
    case None => None
    case Some(k) => Some(t.columns[k].cells)
  }

  function Names(t: Table): seq<string> {
    seq(|t.columns|, k requires 0 <= k < |t.columns| => t.columns[k].name)
  }

  /**
   * `df[name] = cells`: overwrite the column called `name` in place, or
   * append a new column at the right when there is none.
   */
  function SetColumn(t: Table, name: string, cells: seq<Cell>): (r: Table)
    requires |cells| == t.rows
    ensures r.rows == t.rows
    ensures Rectangular(t) ==> Rectangular(r)
    ensures Get(r, name) == Some(cells)
    ensures forall n :: n != name ==> Get(r, n) == Get(t, n)
    ensures Get(t, name).Some? ==> Names(r) == Names(t)
    ensures Get(t, name).None? ==> Names(r) == Names(t) + [name]
  {
    match IndexOf(t.columns, name)
    case Some(k) =>
      var r := Table(t.rows, t.columns[k := Column(name, cells)]);
      forall n | n != name ensures Get(r, n) == Get(t, n) {
        IndexOfUpdate(t.columns, k, Column(name, cells), n);
      }
      IndexOfUpdate(t.columns, k, Column(name, cells), name);
      r
    case None =>
      var r := Table(t.rows, t.columns + [Column(name, cells)]);
      forall n | n != name ensures Get(r, n) == Get(t, n) {
        IndexOfAppend(t.columns, Column(name, cells), n);
      }
      IndexOfAppend(t.columns, Column(name, cells), name);
      r
  }

  lemma {:induction false} IndexOfUpdate(cols: seq<Column>, k: nat, c: Column, n: string)
    requires k < |cols| && cols[k].name == c.name
    ensures IndexOf(cols[k := c], n) == IndexOf(cols, n)
  {
    if k > 0 {
      assert cols[k := c][1..] == cols[1..][k - 1 := c];
      IndexOfUpdate(cols[1..], k - 1, c, n);
    }
  }

  lemma {:induction false} IndexOfAppend(cols: seq<Column>, c: Column, n: string)
    ensures IndexOf(cols + [c], n) ==
      match IndexOf(cols, n)
      case Some(k) => Some(k)
      case None => if c.name == n then Some(|cols|) else None
  {
    if cols != [] && cols[0].name != n {
      assert (cols + [c])[1..] == cols[1..] + [c];
      IndexOfAppend(cols[1..], c, n);
    }
  }

  /** `df.iloc[i]`: the cells of row `i`, one per column. */
  function RowAt(t: Table, i: nat): (r: seq<Cell>)
    requires Rectangular(t) && i < t.rows
    ensures |r| == |t.columns|
    ensures forall k :: 0 <= k < |t.columns| ==> r[k] == t.columns[k].cells[i]
  {
    seq(|t.columns|, k requires 0 <= k < |t.columns| => t.columns[k].cells[i])
  }

  /**
   * The DataFrame object that the cleaning functions update in place.
   * `Value` is the table it currently holds.
   */
  class DataFrame {
    var rows: nat
    var columns: seq<Column>

    function Value(): Table
      reads this
    {
      Table(rows, columns)
    }

    ghost predicate Valid()
      reads this
    {
      Rectangular(Value())
    }

    constructor (t: Table)
      requires Rectangular(t)
      ensures Valid() && Value() == t
    {
      rows, columns := t.rows, t.columns;
    }
  }
}
