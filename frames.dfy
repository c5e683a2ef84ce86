/** The survey table as pandas holds it: ordered column names and rows of cells. */
module Frames {
  import opened Seqs

  /** One cell of the table: a number, a text, or NaN. */
  datatype Cell = Num(value: real) | Text(text: string) | Missing

  /** A row holds one cell per column, in column order. */
  type Row = seq<Cell>

  datatype Frame = Frame(columns: seq<string>, rows: seq<Row>)

  /** Every row has one cell per column (pandas frames are rectangular). */
  predicate Rectangular(df: Frame)
  {
    forall r | r in df.rows :: |r| == |df.columns|
  }

  /** Rectangular, and no column name occurs twice, so a name picks one column. */
  predicate WellFormed(df: Frame)
  {
    Distinct(df.columns) && Rectangular(df)
  }

  /** Position of the first column called `x`. */
  function IndexOf(xs: seq<string>, x: string): (k: nat)
    requires x in xs
    ensures k < |xs| && xs[k] == x && x !in xs[..k]
  {
    if xs[0] == x then 0
    else
      assert x in xs[1..] by { assert xs == [xs[0]] + xs[1..]; }
      var k := 1 + IndexOf(xs[1..], x);
      assert xs[..k] == [xs[0]] + xs[1..][..k - 1];
      k
  }

  /** The cell of row `r` in column `name`. */
  function CellAt(columns: seq<string>, r: Row, name: string): (c: Cell)
    requires name in columns && |r| == |columns|
  {
    r[IndexOf(columns, name)]
  }

  /** The cells of column `name`, top to bottom. */
  function Column(df: Frame, name: string): (col: seq<Cell>)
    requires Rectangular(df) && name in df.columns
    ensures |col| == |df.rows|
  {
    seq(|df.rows|, i requires 0 <= i < |df.rows| => CellAt(df.columns, df.rows[i], name))
  }

  /** A cell a numeric column can hold. */
  predicate IsNumeric(c: Cell)
  {
    c.Num? || c.Missing?
  }

  /** Column `name` has a numeric dtype: no text cell is left in it. */
  predicate NumericColumn(df: Frame, name: string)
    requires Rectangular(df) && name in df.columns
  {
    forall r | r in df.rows :: IsNumeric(CellAt(df.columns, r, name))
  }

  /** Every column named in `names` that the frame has is numeric. */
  predicate NumericColumns(df: Frame, names: seq<string>)
    requires Rectangular(df)
  {
    forall name | name in names && name in df.columns :: NumericColumn(df, name)
  }
}
