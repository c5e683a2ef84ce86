/** The main view: one mean score per category (a mean of per-question means),
    and the per-question means of one category. Means skip NaN as pandas does;
    `None` stands for a NaN result. */
module Aggregation {
  import opened Wrappers
  import opened Seqs
  import opened Frames
  import opened Catalog

  function Sum(xs: seq<real>): (total: real)
  {
    if xs == [] then 0.0 else xs[0] + Sum(xs[1..])
  }

  /** The mean of the values present; NaN (`None`) when there are none. */
  function Mean(xs: seq<real>): (m: Option<real>)
    ensures m.None? <==> xs == []
  {
    if xs == [] then None else Some(Sum(xs) / (|xs| as real))
  }

  /** The numbers of a column, NaN cells skipped. */
  function Present(cells: seq<Cell>): (xs: seq<real>)
    ensures forall x :: x in xs <==> Num(x) in cells
    ensures xs == [] <==> forall c | c in cells :: !c.Num?
  {
    if cells == [] then []
    else
      assert forall c :: c in cells <==> c == cells[0] || c in cells[1..] by {
        assert cells == [cells[0]] + cells[1..];
      }
      (if cells[0].Num? then [cells[0].value] else []) + Present(cells[1..])
  }

  /** The means that are not NaN. */
  function Somes(ms: seq<Option<real>>): (xs: seq<real>)
    ensures forall x :: x in xs <==> Some(x) in ms
    ensures xs == [] <==> forall m | m in ms :: m.None?
  {
    if ms == [] then []
    else
      assert forall m :: m in ms <==> m == ms[0] || m in ms[1..] by {
        assert ms == [ms[0]] + ms[1..];
      }
      (if ms[0].Some? then [ms[0].value] else []) + Somes(ms[1..])
  }

  /** A mean counts each number as often as the column holds it. */
  lemma {:induction false} PresentCounts(cells: seq<Cell>)
    ensures forall x :: multiset(Present(cells))[x] == multiset(cells)[Num(x)]
  {
    if cells != [] {
      PresentCounts(cells[1..]);
      assert cells == [cells[0]] + cells[1..];
      assert multiset(cells) == multiset{cells[0]} + multiset(cells[1..]);
    }
  }

  /** The outer mean counts each per-question mean as often as it occurs. */
  lemma {:induction false} SomesCounts(ms: seq<Option<real>>)
    ensures forall x :: multiset(Somes(ms))[x] == multiset(ms)[Some(x)]
  {
    if ms != [] {
      SomesCounts(ms[1..]);
      assert ms == [ms[0]] + ms[1..];
      assert multiset(ms) == multiset{ms[0]} + multiset(ms[1..]);
    }
  }

  /** The valid columns of a category: the labels that name a
      column, in catalog order. */
  function ValidColumns(labels: seq<string>, columns: seq<string>): (valid: seq<string>)
    ensures Subseq(valid, labels)
    ensures forall l :: l in valid <==> l in labels && l in columns
    ensures Distinct(labels) ==> Distinct(valid)
  {
    if labels == [] then []
    else
      var rest := ValidColumns(labels[1..], columns);
      assert forall l :: l in labels <==> l == labels[0] || l in labels[1..] by {
        assert labels == [labels[0]] + labels[1..];
      }
      if labels[0] in columns then
        assert ([labels[0]] + rest)[1..] == rest;
        [labels[0]] + rest
      else rest
  }

  /** The mean of one numeric column. */
  function ColumnMean(df: Frame, name: string): (m: Option<real>)
    requires Rectangular(df) && name in df.columns && NumericColumn(df, name)
    ensures m.None? <==> forall r | r in df.rows :: !CellAt(df.columns, r, name).Num?
  {
    var col := Column(df, name);
    assert (forall c | c in col :: !c.Num?) <==>
           (forall r | r in df.rows :: !CellAt(df.columns, r, name).Num?) by {
      assert forall i | 0 <= i < |df.rows| :: col[i] == CellAt(df.columns, df.rows[i], name);
      if forall c | c in col :: !c.Num? {
        forall r | r in df.rows ensures !CellAt(df.columns, r, name).Num? {
          var i :| 0 <= i < |df.rows| && df.rows[i] == r;
          assert col[i] in col;
        }
      }
      if forall r | r in df.rows :: !CellAt(df.columns, r, name).Num? {
        forall c | c in col ensures !c.Num? {
          var i :| 0 <= i < |col| && col[i] == c;
          assert df.rows[i] in df.rows;
        }
      }
    }
    Mean(Present(col))
  }

  /** Every name in `names` is a numeric column of the frame. */
  predicate NumericNames(df: Frame, names: seq<string>)
    requires Rectangular(df)
  {
    forall name | name in names :: name in df.columns && NumericColumn(df, name)
  }

  /** The mean of each named column, in the order given. */
  function ColumnMeans(df: Frame, names: seq<string>): (ms: seq<Option<real>>)
    requires Rectangular(df) && NumericNames(df, names)
    ensures |ms| == |names|
    ensures forall k | 0 <= k < |names| :: ms[k] == ColumnMean(df, names[k])
  {
    seq(|names|, k requires 0 <= k < |names| => ColumnMean(df, names[k]))
  }

  lemma ValidColumnsNumeric(df: Frame, labels: seq<string>)
    requires Rectangular(df) && NumericColumns(df, labels)
    ensures NumericNames(df, ValidColumns(labels, df.columns))
  {
  }

  /** The score of a category: the mean of the means of its questions that are
      columns of the table, or NaN when none is. */
  function CategoryScore(df: Frame, labels: seq<string>): (score: Option<real>)
    requires Rectangular(df) && NumericColumns(df, labels)
    ensures (forall k | 0 <= k < |labels| :: labels[k] !in df.columns) ==> score == None
  {
    var valid := ValidColumns(labels, df.columns);
    ValidColumnsNumeric(df, labels);
    assert valid != [] ==> valid[0] in labels && valid[0] in df.columns;
    if valid == [] then None else Mean(Somes(ColumnMeans(df, valid)))
  }

  /** Every category's question columns that exist are numeric. */
  predicate CatalogNumeric(df: Frame, cat: QuestionCatalog)
    requires Rectangular(df)
  {
    forall i | 0 <= i < |cat| :: NumericColumns(df, cat[i].1)
  }

  /** The `avg_scores` loop: one (category, score) entry per category, in catalog
      order, a category without columns included with a NaN score. */
  method AverageScores(df: Frame, cat: QuestionCatalog) returns (scores: seq<(string, Option<real>)>)
    requires Rectangular(df) && CatalogNumeric(df, cat)
    ensures |scores| == |cat|
    ensures forall i | 0 <= i < |cat| :: scores[i] == (cat[i].0, CategoryScore(df, cat[i].1))
  {
    scores := [];
    for i := 0 to |cat|
      invariant |scores| == i
      invariant forall k | 0 <= k < i :: scores[k] == (cat[k].0, CategoryScore(df, cat[k].1))
    {
      var kategori := cat[i].0;
      var kolom := cat[i].1;
      assert NumericColumns(df, kolom);
      var avgScore := CategoryScore(df, kolom);
      ghost var before := scores;
      scores := scores + [(kategori, avgScore)];
      forall k | 0 <= k < i + 1
        ensures scores[k] == (cat[k].0, CategoryScore(df, cat[k].1))
      {
        if k < i {
          assert scores[k] == before[k];
        }
      }
    }
  }

  /** The columns of the flattened label list are those of the categories. */
  lemma CategoryLabelsNumeric(df: Frame, cat: QuestionCatalog)
    requires Rectangular(df) && NumericColumns(df, AllLabels(cat))
    ensures CatalogNumeric(df, cat)
  {
    forall i, name | 0 <= i < |cat| && name in cat[i].1 ensures name in AllLabels(cat) { }
  }

  /** The detail view of one category: (question, mean) for each of its
      questions that is a column, in catalog order. */
  function DetailMeans(df: Frame, labels: seq<string>): (detail: seq<(string, Option<real>)>)
    requires Rectangular(df) && NumericColumns(df, labels)
    ensures |detail| == |ValidColumns(labels, df.columns)|
    ensures forall k | 0 <= k < |detail| ::
      && detail[k].0 in labels && detail[k].0 in df.columns && NumericColumn(df, detail[k].0)
      && detail[k].1 == ColumnMean(df, detail[k].0)
  {
    var valid := ValidColumns(labels, df.columns);
    ValidColumnsNumeric(df, labels);
    var means := ColumnMeans(df, valid);
    seq(|valid|, k requires 0 <= k < |valid| => (valid[k], means[k]))
  }

  // ----- Properties of the scores -----

  /** The detail view lists exactly the category's questions that are columns,
      in catalog order, each with its own column's mean; it is empty exactly
      when no question is a column. */
  lemma DetailMeansKeys(df: Frame, labels: seq<string>)
    requires Rectangular(df) && NumericColumns(df, labels)
    ensures var detail, valid := DetailMeans(df, labels), ValidColumns(labels, df.columns);
      && |detail| == |valid|
      && (forall k | 0 <= k < |detail| :: detail[k].0 == valid[k] && detail[k].1 == ColumnMean(df, valid[k]))
      && (detail == [] <==> forall l | l in labels :: l !in df.columns)
  {
    var valid := ValidColumns(labels, df.columns);
    if valid != [] {
      assert valid[0] in valid;
    }
  }

  /** The category bar is the mean of the non-NaN bars of its detail view. */
  lemma CategoryScoreFromDetail(df: Frame, labels: seq<string>)
    requires Rectangular(df) && NumericColumns(df, labels)
    ensures var detail := DetailMeans(df, labels);
      CategoryScore(df, labels) ==
        if detail == [] then None else Mean(Somes(seq(|detail|, k requires 0 <= k < |detail| => detail[k].1)))
  {
    var detail := DetailMeans(df, labels);
    var valid := ValidColumns(labels, df.columns);
    ValidColumnsNumeric(df, labels);
    assert seq(|detail|, k requires 0 <= k < |detail| => detail[k].1) == ColumnMeans(df, valid);
  }

  lemma {:induction false} SumWithin(xs: seq<real>, lo: real, hi: real)
    requires forall x | x in xs :: lo <= x <= hi
    ensures lo * (|xs| as real) <= Sum(xs) <= hi * (|xs| as real)
  {
    if xs != [] {
      assert xs[0] in xs;
      assert forall x | x in xs[1..] :: x in xs;
      SumWithin(xs[1..], lo, hi);
      var m := |xs[1..]| as real;
      assert |xs| as real == m + 1.0;
      assert lo * (m + 1.0) == lo * m + lo && hi * (m + 1.0) == hi * m + hi;
    }
  }

  /** A mean lies between the least and greatest bound of the values. */
  lemma MeanWithin(xs: seq<real>, lo: real, hi: real)
    requires forall x | x in xs :: lo <= x <= hi
    ensures Mean(xs).Some? ==> lo <= Mean(xs).value <= hi
  {
    if xs != [] {
      SumWithin(xs, lo, hi);
      var n := |xs| as real;
      assert Sum(xs) / n * n == Sum(xs);
    }
  }

  /** Every rating in the category's columns lies in [lo, hi]. */
  predicate RatingsWithin(df: Frame, labels: seq<string>, lo: real, hi: real)
    requires Rectangular(df)
  {
    forall name, r | name in labels && name in df.columns && r in df.rows ::
      CellAt(df.columns, r, name).Num? ==> lo <= CellAt(df.columns, r, name).value <= hi
  }

  lemma ColumnMeanWithin(df: Frame, name: string, lo: real, hi: real)
    requires Rectangular(df) && name in df.columns && NumericColumn(df, name)
    requires forall r | r in df.rows :: CellAt(df.columns, r, name).Num? ==> lo <= CellAt(df.columns, r, name).value <= hi
    ensures ColumnMean(df, name).Some? ==> lo <= ColumnMean(df, name).value <= hi
  {
    var col := Column(df, name);
    forall x | x in Present(col) ensures lo <= x <= hi {
      var i :| 0 <= i < |col| && col[i] == Num(x);
      assert df.rows[i] in df.rows;
    }
    MeanWithin(Present(col), lo, hi);
  }

  /** With every rating on the scale [lo, hi] (1 to 5 on the survey), a category
      score is on that scale too. */
  lemma CategoryScoreWithin(df: Frame, labels: seq<string>, lo: real, hi: real)
    requires Rectangular(df) && NumericColumns(df, labels) && RatingsWithin(df, labels, lo, hi)
    ensures CategoryScore(df, labels).Some? ==> lo <= CategoryScore(df, labels).value <= hi
  {
    var valid := ValidColumns(labels, df.columns);
    if valid != [] {
      ValidColumnsNumeric(df, labels);
      var ms := ColumnMeans(df, valid);
      forall x | x in Somes(ms) ensures lo <= x <= hi {
        var k :| 0 <= k < |ms| && ms[k] == Some(x);
        ColumnMeanWithin(df, valid[k], lo, hi);
      }
      MeanWithin(Somes(ms), lo, hi);
    }
  }

  /** A category score is NaN exactly when none of its questions is a column
      holding at least one number. */
  lemma CategoryScoreUndefined(df: Frame, labels: seq<string>)
    requires Rectangular(df) && NumericColumns(df, labels)
    ensures CategoryScore(df, labels).None? <==>
      forall name, r | name in labels && name in df.columns && r in df.rows :: !CellAt(df.columns, r, name).Num?
  {
    var valid := ValidColumns(labels, df.columns);
    ValidColumnsNumeric(df, labels);
    var ms := ColumnMeans(df, valid);
    assert CategoryScore(df, labels).None? <==> forall m | m in ms :: m.None? by {
      if valid == [] { assert ms == []; }
    }
    assert (forall m | m in ms :: m.None?) <==> forall name | name in valid :: ColumnMean(df, name).None? by {
      if forall m | m in ms :: m.None? {
        forall name | name in valid ensures ColumnMean(df, name).None? {
          var k :| 0 <= k < |valid| && valid[k] == name;
          assert ms[k] in ms;
        }
      }
      if forall name | name in valid :: ColumnMean(df, name).None? {
        forall m | m in ms ensures m.None? {
          var k :| 0 <= k < |ms| && ms[k] == m;
          assert valid[k] in valid;
        }
      }
    }
  }

  /** With no rows every category score is NaN: no division by zero. */
  lemma EmptyTableScoresUndefined(df: Frame, cat: QuestionCatalog)
    requires Rectangular(df) && NumericColumns(df, AllLabels(cat)) && df.rows == []
    ensures CatalogNumeric(df, cat)
    ensures forall i | 0 <= i < |cat| :: CategoryScore(df, cat[i].1) == None
  {
    CategoryLabelsNumeric(df, cat);
    forall i | 0 <= i < |cat| ensures CategoryScore(df, cat[i].1) == None {
      CategoryScoreUndefined(df, cat[i].1);
    }
  }

  /** Of the "Kebersihan & Kesehatan" questions only "Toilet bersih" is a
      column of a table whose one column is "Toilet bersih". */
  lemma ToiletQuestionIsValid()
    ensures ValidColumns(KebersihanKesehatan.1, ["Toilet bersih"]) == ["Toilet bersih"]
  {
    var cols := ["Toilet bersih"];
    var labels := KebersihanKesehatan.1;
    assert ValidColumns(labels[4..], cols) == [];
    assert ValidColumns(labels[3..], cols) == [];
    assert ValidColumns(labels[2..], cols) == [];
    assert ValidColumns(labels[1..], cols) == ["Toilet bersih"];
  }

  /** One value is its own mean. */
  lemma MeanOfOne(x: real)
    ensures Mean([x]) == Some(x)
  {
    var xs := [x];
    assert xs[1..] == [];
    assert Sum(xs) == x;
    assert Mean(xs) == Some(Sum(xs) / (|xs| as real));
    assert Sum(xs) / (|xs| as real) == x;
  }

  /** A table with the one column "Toilet bersih", answered 3 and 5. */
  const ToiletAnswers := Frame(["Toilet bersih"], [[Num(3.0)], [Num(5.0)]])

  /** Answers 3 and 5 to one question give that question the mean 4. */
  lemma ToiletColumnMean()
    ensures Rectangular(ToiletAnswers) && NumericColumn(ToiletAnswers, "Toilet bersih")
    ensures ColumnMean(ToiletAnswers, "Toilet bersih") == Some(4.0)
  {
    var df := ToiletAnswers;
    assert Rectangular(df);
    assert Column(df, "Toilet bersih") == [Num(3.0), Num(5.0)];
    assert Present([Num(3.0), Num(5.0)][1..][1..]) == [];
    assert Present([Num(3.0), Num(5.0)][1..]) == [5.0];
    assert Present([Num(3.0), Num(5.0)]) == [3.0, 5.0];
    assert Sum([3.0, 5.0]) == 8.0 by {
      assert Sum([3.0, 5.0][1..]) == 5.0;
    }
  }

  /** Two answers 3 and 5 in the one column a category's questions resolve to
      give that category the score 4. */
  lemma ScoreOfThreeAndFive(labels: seq<string>)
    requires ValidColumns(labels, ["Toilet bersih"]) == ["Toilet bersih"]
    ensures Rectangular(ToiletAnswers) && NumericColumns(ToiletAnswers, labels)
    ensures CategoryScore(ToiletAnswers, labels) == Some(4.0)
  {
    var df := ToiletAnswers;
    var col := "Toilet bersih";
    ToiletColumnMean();
    forall name | name in labels && name in df.columns
      ensures NumericColumn(df, name)
    {
      assert name == col;
    }
    assert ColumnMeans(df, [col]) == [Some(4.0)];
    assert Somes([Some(4.0)][1..]) == [];
    assert Somes([Some(4.0)]) == [4.0];
    MeanOfOne(4.0);
  }

  /** The same for the catalog: a table whose only column is "Toilet bersih",
      answered 3 and 5, scores "Kebersihan & Kesehatan" at 4. */
  lemma TwoRatingsExample()
    ensures KategoriFasilitas[3] == KebersihanKesehatan
    ensures KebersihanKesehatan.0 == "Kebersihan & Kesehatan"
    ensures Rectangular(ToiletAnswers) && NumericColumns(ToiletAnswers, KebersihanKesehatan.1)
    ensures CategoryScore(ToiletAnswers, KebersihanKesehatan.1) == Some(4.0)
  {
    ToiletQuestionIsValid();
    ScoreOfThreeAndFive(KebersihanKesehatan.1);
  }
}
