/** `load_data`: header cleanup and numeric coercion of the rating columns.
    Reading the CSV file is outside the model; the frame it yields is the input. */
module Loading {
  import opened Wrappers
  import opened Seqs
  import opened Text
  import opened Numbers
  import opened Frames
  import opened Catalog

  /** A name with no BOM and no whitespace at either end. */
  predicate IsCleanName(s: string)
  {
    Bom !in s && (s != [] ==> !IsSpace(s[0]) && !IsSpace(s[|s| - 1]))
  }

  lemma {:induction false} RemoveBomWithoutBom(s: string)
    requires Bom !in s
    ensures RemoveBom(s) == s
  {
    if s != [] {
      assert Bom !in s[1..];
      RemoveBomWithoutBom(s[1..]);
    }
  }

  lemma CleanNameOfCleanName(s: string)
    ensures IsCleanName(s) ==> Strip(RemoveBom(s)) == s
  {
    if IsCleanName(s) {
      RemoveBomWithoutBom(s);
      StripStripped(s);
    }
  }

  /** One header after cleanup: every U+FEFF removed, then stripped. */
  function CleanName(s: string): (r: string)
    ensures IsCleanName(r)
    ensures IsCleanName(s) ==> r == s
  {
    CleanNameOfCleanName(s);
    Strip(RemoveBom(s))
  }

  /** Deleting U+FEFF from a string of whitespace and U+FEFF leaves whitespace. */
  lemma BomOrSpaceRemoved(x: string)
    requires forall k | 0 <= k < |x| :: IsSpace(x[k]) || x[k] == Bom
    ensures AllSpace(RemoveBom(x))
  {
    var r := RemoveBom(x);
    forall k | 0 <= k < |r| ensures IsSpace(r[k]) {
      var c := r[k];
      assert c in multiset(r);
      assert c in multiset(x);
      var m :| 0 <= m < |x| && x[m] == c;
    }
  }

  /** A header that is a clean name padded with whitespace and U+FEFF on
      either side cleans to that name. */
  lemma CleanPadded(pre: string, t: string, post: string)
    requires forall k | 0 <= k < |pre| :: IsSpace(pre[k]) || pre[k] == Bom
    requires forall k | 0 <= k < |post| :: IsSpace(post[k]) || post[k] == Bom
    requires IsCleanName(t)
    ensures CleanName(pre + t + post) == t
  {
    RemoveBomAppend(pre + t, post);
    RemoveBomAppend(pre, t);
    RemoveBomWithoutBom(t);
    BomOrSpaceRemoved(pre);
    BomOrSpaceRemoved(post);
    StripPadded(RemoveBom(pre), t, RemoveBom(post));
  }

  /** A header exported with a byte-order mark and a trailing blank matches
      its catalog label once cleaned. */
  lemma BomHeaderCleansToLabel()
    ensures CleanName([Bom] + "Toilet bersih" + " ") == "Toilet bersih"
  {
    var t := "Toilet bersih";
    assert IsCleanName(t) by {
      assert forall k | 0 <= k < |t| :: t[k] != Bom;
    }
    CleanPadded([Bom], t, " ");
  }

  /** Cleaning a header twice is cleaning it once. */
  lemma CleanNameIdempotent(s: string)
    ensures CleanName(CleanName(s)) == CleanName(s)
  {
  }

  /** The whole header cleaned, name by name, positions kept. */
  function CleanNames(names: seq<string>): (r: seq<string>)
    ensures |r| == |names|
    ensures forall k | 0 <= k < |r| :: IsCleanName(r[k]) && r[k] == CleanName(names[k])
  {
    seq(|names|, k requires 0 <= k < |names| => CleanName(names[k]))
  }

  /** Numeric coercion of one cell: numbers and NaN stay, a text becomes the
      number it reads as, or NaN when it reads as none. */
  function ToNumeric(c: Cell): (r: Cell)
    ensures IsNumeric(r)
    ensures IsNumeric(c) ==> r == c
    ensures c.Text? ==> r == (if ParseNumber(c.text).Some? then Num(ParseNumber(c.text).value) else Missing)
  {
    match c
    case Text(s) => (match ParseNumber(s) case Some(v) => Num(v) case None => Missing)
    case _ => c
  }

  /** The table with one column replaced by its numeric coercion. */
  function CoerceColumn(df: Frame, name: string): (out: Frame)
    requires Rectangular(df) && name in df.columns
    ensures out.columns == df.columns && |out.rows| == |df.rows| && Rectangular(out)
    ensures forall i, j | 0 <= i < |df.rows| && 0 <= j < |df.columns| ::
      if j == IndexOf(df.columns, name)
      then IsNumeric(out.rows[i][j]) && out.rows[i][j] == ToNumeric(df.rows[i][j])
      else out.rows[i][j] == df.rows[i][j]
  {
    var j := IndexOf(df.columns, name);
    Frame(df.columns, seq(|df.rows|, i requires 0 <= i < |df.rows| => df.rows[i][j := ToNumeric(df.rows[i][j])]))
  }

  /** The frame after coercing every column whose name is in `labels`. */
  function Coerced(df: Frame, labels: seq<string>): (out: Frame)
    requires Rectangular(df)
    ensures out.columns == df.columns && |out.rows| == |df.rows| && Rectangular(out)
  {
    Frame(df.columns, seq(|df.rows|, i requires 0 <= i < |df.rows| =>
      seq(|df.columns|, j requires 0 <= j < |df.columns| =>
        if df.columns[j] in labels then ToNumeric(df.rows[i][j]) else df.rows[i][j])))
  }

  /** Coercing a rating column only touches that column: numbers stay, text that
      reads as a number becomes that number, other text becomes NaN, and every
      other column keeps its cells. */
  lemma CoercedCells(df: Frame, labels: seq<string>, i: nat, j: nat)
    requires Rectangular(df) && i < |df.rows| && j < |df.columns|
    ensures var c, d := df.rows[i][j], Coerced(df, labels).rows[i][j];
      && (df.columns[j] !in labels ==> d == c)
      && (df.columns[j] in labels ==>
            && IsNumeric(d)
            && (c.Num? ==> d == c)
            && (c.Missing? ==> d == Missing)
            && (c.Text? ==> d == (if ParseNumber(c.text).Some? then Num(ParseNumber(c.text).value) else Missing)))
  {
  }

  lemma CoercedStep(df: Frame, labels: seq<string>, name: string)
    requires WellFormed(df)
    ensures name in df.columns ==> Coerced(df, labels + [name]) == CoerceColumn(Coerced(df, labels), name)
    ensures name !in df.columns ==> Coerced(df, labels + [name]) == Coerced(df, labels)
  {
    var before, after := Coerced(df, labels), Coerced(df, labels + [name]);
    if name in df.columns {
      var step := CoerceColumn(before, name);
      var j0 := IndexOf(df.columns, name);
      forall i | 0 <= i < |df.rows| ensures after.rows[i] == step.rows[i] {
        assert |after.rows[i]| == |step.rows[i]|;
        forall j | 0 <= j < |df.columns| ensures after.rows[i][j] == step.rows[i][j] {
          if j == j0 {
            if name in labels {
              assert IsNumeric(before.rows[i][j]);
            }
          } else {
            assert df.columns[j] != name;
          }
        }
      }
    } else {
      forall i | 0 <= i < |df.rows| ensures after.rows[i] == before.rows[i] {
        forall j | 0 <= j < |df.columns| ensures after.rows[i][j] == before.rows[i][j] {
          assert df.columns[j] != name;
        }
      }
    }
  }

  lemma CoercedIsNumeric(df: Frame, labels: seq<string>)
    requires Rectangular(df)
    ensures NumericColumns(Coerced(df, labels), labels)
  {
    var out := Coerced(df, labels);
    forall name | name in labels && name in out.columns ensures NumericColumn(out, name) {
      var j := IndexOf(df.columns, name);
      forall r | r in out.rows ensures IsNumeric(CellAt(out.columns, r, name)) {
        var i :| 0 <= i < |out.rows| && out.rows[i] == r;
        CoercedCells(df, labels, i, j);
      }
    }
  }

  lemma CoercedNothing(df: Frame)
    requires Rectangular(df)
    ensures Coerced(df, []) == df
  {
    forall i | 0 <= i < |df.rows| ensures Coerced(df, []).rows[i] == df.rows[i] {
      assert df.rows[i] in df.rows;
    }
  }

  datatype LoadError = DuplicateColumns

  /** The loop over `kolom_penilaian`: each label that names a column has that
      column replaced by its numeric coercion. */
  method CoerceRatings(df0: Frame, kolom: seq<string>) returns (df: Frame)
    requires WellFormed(df0)
    ensures df == Coerced(df0, kolom)
  {
    df := df0;
    CoercedNothing(df0);
    assert kolom[..0] == [];
    for k := 0 to |kolom|
      invariant df == Coerced(df0, kolom[..k])
    {
      var col := kolom[k];
      CoercedStep(df0, kolom[..k], col);
      assert kolom[..k + 1] == kolom[..k] + [col];
      if col in df.columns {
        df := CoerceColumn(df, col);
      }
    }
    assert kolom[..|kolom|] == kolom;
  }

  /** `load_data` after the file is read: clean the header, then coerce each
      catalog label that names a column, label by label in catalog order. */
  method LoadData(raw: Frame, cat: QuestionCatalog) returns (res: Result<Frame, LoadError>)
    requires Rectangular(raw)
    ensures res.Err? <==> !Distinct(CleanNames(raw.columns))
    ensures res.Ok? ==> res.value == Coerced(Frame(CleanNames(raw.columns), raw.rows), AllLabels(cat))
    ensures res.Ok? ==> WellFormed(res.value) && NumericColumns(res.value, AllLabels(cat))
    ensures res.Ok? ==> forall k | 0 <= k < |res.value.columns| :: IsCleanName(res.value.columns[k])
  {
    var df := raw.(columns := CleanNames(raw.columns));
    if !Distinct(df.columns) {
      return Err(DuplicateColumns);
    }
    ghost var cleaned := df;
    var kolomPenilaian := AllLabels(cat);
    df := CoerceRatings(df, kolomPenilaian);
    CoercedIsNumeric(cleaned, kolomPenilaian);
    assert df.columns == cleaned.columns;
    res := Ok(df);
  }
}
