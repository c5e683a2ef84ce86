/** The sidebar: the choices offered for a column (`build_options`) and the
    chain of equality filters applied to the loaded table. */
module Filters {
  import opened Seqs
  import opened Text
  import opened Frames

  /** The choice that means "no filter". */
  const Semua: string := "Semua"

  const StatusColumn: string := "Status Anda"
  const GenderColumn: string := "Jenis Kelamin"
  const AgeColumn: string := "Usia"

  // ----- build_options -----

  /** `str(x)` of a non-null cell. How numpy prints a number is not modelled:
      `show` stands for it. */
  function Render(c: Cell, show: real -> string): (s: string)
    requires c != Missing
  {
    match c
    case Text(s) => s
    case Num(v) => show(v)
  }

  /** `.dropna()`: the cells that are not NaN, in order. */
  function NonNull(cells: seq<Cell>): (r: seq<Cell>)
    ensures Missing !in r
    ensures forall c :: c in r <==> c in cells && c != Missing
  {
    if cells == [] then []
    else
      assert forall c :: c in cells <==> c == cells[0] || c in cells[1..] by {
        assert cells == [cells[0]] + cells[1..];
      }
      (if cells[0] == Missing then [] else [cells[0]]) + NonNull(cells[1..])
  }

  /** `.unique()`: each distinct cell once, in order of first appearance. */
  function Unique(cells: seq<Cell>): (r: seq<Cell>)
    ensures Distinct(r)
    ensures forall c :: c in r <==> c in cells
  {
    if cells == [] then []
    else
      var init, last := cells[..|cells| - 1], cells[|cells| - 1];
      assert forall c :: c in cells <==> c in init || c == last by {
        assert cells == init + [last];
      }
      var u := Unique(init);
      if last in u then u else u + [last]
  }

  /** The printed form of each non-null cell, position by position. */
  function RenderAll(cells: seq<Cell>, show: real -> string): (r: seq<string>)
    requires Missing !in cells
    ensures |r| == |cells|
    ensures forall k | 0 <= k < |cells| :: r[k] == Render(cells[k], show)
  {
    seq(|cells|, k requires 0 <= k < |cells| => Render(cells[k], show))
  }

  /** The strings a column's non-null cells print as. */
  function Shown(col: seq<Cell>, show: real -> string): (shown: set<string>)
  {
    set c | c in col && c != Missing :: Render(c, show)
  }

  /** No two different non-null cells of the column print the same. */
  predicate RenderInjective(col: seq<Cell>, show: real -> string)
  {
    forall c, d | c in col && d in col && c != Missing && d != Missing ::
      Render(c, show) == Render(d, show) ==> c == d
  }

  /** `build_options(df, name)`: "Semua", then the printed distinct non-null
      values of the column in sorted order; only "Semua" if the column is absent. */
  function BuildOptions(df: Frame, name: string, show: real -> string): (opts: seq<string>)
    requires Rectangular(df)
    ensures opts != [] && opts[0] == Semua
    ensures name !in df.columns ==> opts == [Semua]
    ensures Sorted(opts[1..])
    ensures name in df.columns ==> |opts| == 1 + |Unique(NonNull(Column(df, name)))|
    ensures name in df.columns ==> (set s | s in opts[1..]) == Shown(Column(df, name), show)
    ensures name in df.columns ==>
      multiset(opts[1..]) == multiset(RenderAll(Unique(NonNull(Column(df, name))), show))
  {
    if name in df.columns then
      var values := Unique(NonNull(Column(df, name)));
      var sorted := SortStrings(RenderAll(values, show));
      ShownValues(Column(df, name), values, sorted, show);
      assert |sorted| == |multiset(sorted)| == |values|;
      assert ([Semua] + sorted)[1..] == sorted;
      [Semua] + sorted
    else [Semua]
  }

  lemma ShownValues(col: seq<Cell>, values: seq<Cell>, sorted: seq<string>, show: real -> string)
    requires values == Unique(NonNull(col))
    requires multiset(sorted) == multiset(RenderAll(values, show))
    ensures (set s | s in sorted) == Shown(col, show)
  {
    var rendered := RenderAll(values, show);
    forall s | s in sorted ensures s in Shown(col, show) {
      assert s in multiset(rendered);
      var k :| 0 <= k < |rendered| && rendered[k] == s;
      assert values[k] in col;
    }
    forall s | s in Shown(col, show) ensures s in sorted {
      var c :| c in col && c != Missing && Render(c, show) == s;
      assert c in values;
      var k :| 0 <= k < |values| && values[k] == c;
      assert rendered[k] == s;
      assert s in multiset(sorted);
    }
  }

  /** When no two values print alike (a column of texts, say) the choices after
      "Semua" are strictly increasing: no choice is offered twice. */
  lemma OptionsStrictlySorted(df: Frame, name: string, show: real -> string)
    requires Rectangular(df) && name in df.columns
    requires RenderInjective(Column(df, name), show)
    ensures StrictlySorted(BuildOptions(df, name, show)[1..])
  {
    var col := Column(df, name);
    var values := Unique(NonNull(col));
    var rendered := RenderAll(values, show);
    forall i, j | 0 <= i < j < |rendered| ensures rendered[i] != rendered[j] {
      assert values[i] in col && values[j] in col;
    }
    var sorted := SortStrings(rendered);
    assert BuildOptions(df, name, show)[1..] == sorted;
    SortedDistinctIsStrict(sorted);
  }

  /** A column that holds only texts and NaN prints injectively. */
  lemma TextColumnRenderInjective(col: seq<Cell>, show: real -> string)
    requires forall c | c in col :: !c.Num?
    ensures RenderInjective(col, show)
  {
  }

  // ----- The filter chain -----

  /** One sidebar filter: keep the rows whose `column` equals `choice`. */
  datatype Filter = Filter(column: string, choice: string)

  /** A filter is applied only when a value was chosen and its column exists. */
  predicate Active(columns: seq<string>, f: Filter)
  {
    f.choice != Semua && f.column in columns
  }

  /** A cell equals the chosen string only if it is that text: a number or NaN
      never compares equal to a string. */
  predicate Matches(columns: seq<string>, r: Row, f: Filter)
    requires |r| == |columns|
  {
    !Active(columns, f) || CellAt(columns, r, f.column) == Text(f.choice)
  }

  predicate MatchesAll(columns: seq<string>, r: Row, fs: seq<Filter>)
    requires |r| == |columns|
  {
    forall k | 0 <= k < |fs| :: Matches(columns, r, fs[k])
  }

  predicate RowsFit(columns: seq<string>, rows: seq<Row>)
  {
    forall r | r in rows :: |r| == |columns|
  }

  /** The rows that pass every filter in `fs`, in their original order. */
  function Selected(columns: seq<string>, rows: seq<Row>, fs: seq<Filter>): (out: seq<Row>)
    requires RowsFit(columns, rows)
    ensures forall r | r in out :: r in rows && MatchesAll(columns, r, fs)
  {
    if rows == [] then []
    else
      var rest := Selected(columns, rows[1..], fs);
      assert rows == [rows[0]] + rows[1..];
      if MatchesAll(columns, rows[0], fs) then [rows[0]] + rest else rest
  }

  /** The selection is a subsequence of the rows in which every passing row
      keeps its multiplicity and no other row appears. */
  lemma {:induction false} SelectedExactly(columns: seq<string>, rows: seq<Row>, fs: seq<Filter>)
    requires RowsFit(columns, rows)
    ensures Subseq(Selected(columns, rows, fs), rows)
    ensures forall r | r in rows ::
      multiset(Selected(columns, rows, fs))[r] == if MatchesAll(columns, r, fs) then multiset(rows)[r] else 0
  {
    if rows != [] {
      var rest := Selected(columns, rows[1..], fs);
      SelectedExactly(columns, rows[1..], fs);
      assert rows == [rows[0]] + rows[1..];
      if MatchesAll(columns, rows[0], fs) {
        assert ([rows[0]] + rest)[1..] == rest;
      }
    }
  }

  /** The rows whose cell in column `name` equals `value`, in order. */
  function RowsWhere(columns: seq<string>, rows: seq<Row>, name: string, value: Cell): (out: seq<Row>)
    requires RowsFit(columns, rows) && name in columns
    ensures forall r | r in out :: r in rows && CellAt(columns, r, name) == value
  {
    if rows == [] then []
    else
      var rest := RowsWhere(columns, rows[1..], name, value);
      (if CellAt(columns, rows[0], name) == value then [rows[0]] else []) + rest
  }

  /** An equality filter: the rows whose cell in `name` is the text `choice`. */
  function FilterEq(df: Frame, name: string, choice: string): (out: Frame)
    requires Rectangular(df) && name in df.columns
    ensures out.columns == df.columns && Rectangular(out)
    ensures forall r | r in out.rows :: r in df.rows && CellAt(df.columns, r, name) == Text(choice)
  {
    Frame(df.columns, RowsWhere(df.columns, df.rows, name, Text(choice)))
  }

  /** The three sidebar filters in the order they are applied. */
  function SidebarFilters(status: string, gender: string, age: string): (fs: seq<Filter>)
  {
    [Filter(StatusColumn, status), Filter(GenderColumn, gender), Filter(AgeColumn, age)]
  }

  lemma {:induction false} SelectedNoFilters(columns: seq<string>, rows: seq<Row>)
    requires RowsFit(columns, rows)
    ensures Selected(columns, rows, []) == rows
  {
    if rows != [] {
      SelectedNoFilters(columns, rows[1..]);
    }
  }

  /** Applying one more active filter to the selected rows selects by one more filter. */
  lemma {:induction false} SelectedActiveStep(columns: seq<string>, rows: seq<Row>, fs: seq<Filter>, f: Filter)
    requires RowsFit(columns, rows) && Active(columns, f)
    ensures RowsWhere(columns, Selected(columns, rows, fs), f.column, Text(f.choice))
         == Selected(columns, rows, fs + [f])
  {
    if rows != [] {
      SelectedActiveStep(columns, rows[1..], fs, f);
      var r := rows[0];
      assert MatchesAll(columns, r, fs + [f]) <==> MatchesAll(columns, r, fs) && Matches(columns, r, f) by {
        assert forall k | 0 <= k < |fs| :: (fs + [f])[k] == fs[k];
        assert (fs + [f])[|fs|] == f;
      }
    }
  }

  /** A filter that is skipped leaves the selection as it was. */
  lemma {:induction false} SelectedInactiveStep(columns: seq<string>, rows: seq<Row>, fs: seq<Filter>, f: Filter)
    requires RowsFit(columns, rows) && !Active(columns, f)
    ensures Selected(columns, rows, fs + [f]) == Selected(columns, rows, fs)
  {
    if rows != [] {
      SelectedInactiveStep(columns, rows[1..], fs, f);
      var r := rows[0];
      assert MatchesAll(columns, r, fs + [f]) <==> MatchesAll(columns, r, fs) by {
        assert forall k | 0 <= k < |fs| :: (fs + [f])[k] == fs[k];
        assert (fs + [f])[|fs|] == f;
      }
    }
  }

  /** One link of the chain: the equality filter `f` when it is
      active, the table unchanged otherwise. */
  function Step(df: Frame, f: Filter): (out: Frame)
    requires Rectangular(df)
    ensures out.columns == df.columns && Rectangular(out)
    ensures forall r | r in out.rows :: r in df.rows
    ensures f.choice != Semua && f.column in df.columns ==>
      forall r | r in out.rows :: CellAt(df.columns, r, f.column) == Text(f.choice)
    ensures f.choice == Semua ==> out == df
  {
    if f.choice != Semua && f.column in df.columns then FilterEq(df, f.column, f.choice) else df
  }

  /** The table after the filters `fs`, applied one after another. */
  function Chain(df: Frame, fs: seq<Filter>): (out: Frame)
    requires Rectangular(df)
    ensures out.columns == df.columns && Rectangular(out)
    ensures forall r | r in out.rows :: r in df.rows
  {
    if fs == [] then df else Step(Chain(df, fs[..|fs| - 1]), fs[|fs| - 1])
  }

  /** Applying the filters one by one keeps exactly the rows that pass them all. */
  lemma {:induction false} ChainSelects(df: Frame, fs: seq<Filter>)
    requires Rectangular(df)
    ensures Chain(df, fs).rows == Selected(df.columns, df.rows, fs)
  {
    if fs == [] {
      SelectedNoFilters(df.columns, df.rows);
    } else {
      var init, f := fs[..|fs| - 1], fs[|fs| - 1];
      ChainSelects(df, init);
      assert fs == init + [f];
      if Active(df.columns, f) {
        SelectedActiveStep(df.columns, df.rows, init, f);
      } else {
        SelectedInactiveStep(df.columns, df.rows, init, f);
      }
    }
  }

  /** The sidebar filter chain: status, then gender, then age, each applied only
      when a value other than "Semua" is chosen and its column exists. */
  method FilterResponden(df: Frame, status: string, gender: string, age: string) returns (filtered: Frame)
    requires WellFormed(df)
    ensures filtered.columns == df.columns && WellFormed(filtered)
    ensures filtered.rows == Selected(df.columns, df.rows, SidebarFilters(status, gender, age))
    ensures Subseq(filtered.rows, df.rows)
    ensures (forall k | 0 <= k < 3 :: !Active(df.columns, SidebarFilters(status, gender, age)[k])) ==> filtered == df
  {
    ghost var fs := SidebarFilters(status, gender, age);
    filtered := df;
    if status != Semua && StatusColumn in filtered.columns {
      filtered := FilterEq(filtered, StatusColumn, status);
    }
    assert filtered == Chain(df, fs[..1]) by { assert fs[..1][..0] == []; }
    if gender != Semua && GenderColumn in filtered.columns {
      filtered := FilterEq(filtered, GenderColumn, gender);
    }
    assert filtered == Chain(df, fs[..2]) by { assert fs[..2][..1] == fs[..1]; }
    if age != Semua && AgeColumn in filtered.columns {
      filtered := FilterEq(filtered, AgeColumn, age);
    }
    assert filtered == Chain(df, fs) by { assert fs[..2] == fs[..|fs| - 1]; }
    ChainSelects(df, fs);
    SelectedExactly(df.columns, df.rows, fs);
    if forall k | 0 <= k < 3 :: !Active(df.columns, fs[k]) {
      SkippedFiltersKeepAll(df.columns, df.rows, fs);
    }
  }

  /** Filters that are all skipped ("Semua", or a column the table lacks) keep every row. */
  lemma {:induction false} SkippedFiltersKeepAll(columns: seq<string>, rows: seq<Row>, fs: seq<Filter>)
    requires RowsFit(columns, rows)
    requires forall k | 0 <= k < |fs| :: !Active(columns, fs[k])
    ensures Selected(columns, rows, fs) == rows
  {
    if rows != [] {
      SkippedFiltersKeepAll(columns, rows[1..], fs);
    }
  }

  /** An equality filter keeps some row exactly when some row holds the text `choice`. */
  lemma {:induction false} RowsWhereNonEmpty(columns: seq<string>, rows: seq<Row>, name: string, choice: string)
    requires RowsFit(columns, rows) && name in columns
    ensures RowsWhere(columns, rows, name, Text(choice)) != [] <==>
      exists r | r in rows :: CellAt(columns, r, name) == Text(choice)
  {
    if rows != [] {
      RowsWhereNonEmpty(columns, rows[1..], name, choice);
      assert forall r | r in rows :: r == rows[0] || r in rows[1..] by {
        assert rows == [rows[0]] + rows[1..];
      }
    }
  }

  /** On a numeric column no string choice matches: the filter empties the table. */
  lemma NumericColumnFilterEmpty(df: Frame, name: string, choice: string)
    requires Rectangular(df) && name in df.columns && NumericColumn(df, name)
    ensures FilterEq(df, name, choice).rows == []
  {
    RowsWhereNonEmpty(df.columns, df.rows, name, choice);
  }

  /** On a column of texts every choice `build_options` offers after "Semua"
      keeps at least one row when chosen. */
  lemma TextChoicesSelectRows(df: Frame, name: string, show: real -> string, s: string)
    requires Rectangular(df) && name in df.columns
    requires forall r | r in df.rows :: !CellAt(df.columns, r, name).Num?
    requires s in BuildOptions(df, name, show)[1..]
    ensures FilterEq(df, name, s).rows != []
  {
    var opts := BuildOptions(df, name, show);
    assert s in Shown(Column(df, name), show) by {
      assert s in (set t | t in opts[1..]);
    }
    ShownTextInRow(df, name, show, s);
    RowsWhereNonEmpty(df.columns, df.rows, name, s);
  }

  /** In a column without numbers, a printed value is the text of some row. */
  lemma ShownTextInRow(df: Frame, name: string, show: real -> string, s: string)
    requires Rectangular(df) && name in df.columns
    requires forall r | r in df.rows :: !CellAt(df.columns, r, name).Num?
    requires s in Shown(Column(df, name), show)
    ensures exists r | r in df.rows :: CellAt(df.columns, r, name) == Text(s)
  {
    var col := Column(df, name);
    var c :| c in col && c != Missing && Render(c, show) == s;
    var i :| 0 <= i < |col| && col[i] == c;
    assert df.rows[i] in df.rows;
  }
}
