# Campus facility satisfaction dashboard: the table pipeline

`app.py` is a Streamlit page that loads a survey of campus facilities and
shows how satisfied respondents are, per facility category and per question.
Beneath the widgets and the charts is a small table pipeline, and this
project models it in Dafny:

- **the question catalog** (`kategori_fasilitas`): six facility categories, each
  with its ordered list of question labels (`Catalog`);
- **loading** (`load_data` after the file is read): the header names lose every
  U+FEFF and are stripped of whitespace, and every catalog label that is a
  column is coerced to numbers, with unreadable cells becoming NaN (`Loading`,
  with `Text` for Python's `strip` and `Numbers` for the number syntax);
- **the sidebar** (`build_options` and the filter chain): the choices offered for
  a column, and the status, gender and age equality filters applied one after
  another (`Filters`);
- **the scores** (the `avg_scores` loop and the detail view): a category's score
  is the mean of the per-question means of its questions that are columns;
  the detail view lists those means per question (`Aggregation`);
- **the page** (`Dashboard`): scores are computed only when some respondent
  passes the filters, otherwise a "no matching data" state is shown.

A table is a `Frame`: ordered column names and rows of `Cell`s, where a cell
is `Num(real)`, `Text(string)` or `Missing` (pandas' NaN). A score is an
`Option<real>`, with `None` standing for NaN. Means are exact averages over
`real`, skipping NaN as pandas does.

What is proved, in the dashboard's terms:

- after loading, no column name holds U+FEFF or starts or ends with
  whitespace; cleaning a name twice is cleaning it once. A label padded with
  U+FEFF and whitespace on either side cleans back to exactly that label, so a
  header such as U+FEFF "Toilet bersih " matches the catalog;
- coercion touches only columns named by a catalog label. In those columns
  numbers and NaN stay, text that reads as a number becomes that number, and
  any other text becomes NaN: a worded answer such as "Sangat puas" is NaN and
  "4.5" reads as 4.5. Every other column keeps its cells, and loading leaves
  every rating column numeric;
- `build_options` starts with "Semua". The rest is sorted in Python's string
  order, has one entry per distinct non-null value, and shows exactly the
  printed forms of the column's non-null values. It is only "Semua" when the
  column is absent. The rest is strictly increasing whenever no two different
  values print alike, which holds for any column of texts. A column where the
  number 25 and the text "25" both occur offers "25" twice;
- the filter chain keeps a subsequence of the rows, in order. Each row that
  passes every active filter keeps its multiplicity and no other row remains.
  A filter set to "Semua" or naming an absent column changes nothing;
- a filter compares cells with the chosen string. On a numeric column no
  choice matches, so it empties the table. On a text column every choice
  offered keeps at least one row when that filter alone is applied to the
  table the choices were built from. Combined filters can still leave nothing:
  the age choices come from the whole table (app.py:107) but the age filter
  runs after the status and gender filters (app.py:116-117);
- there is one score per catalog category, in catalog order, including
  categories without columns. A score is NaN exactly when none of the
  category's questions is a column holding a number. If every rating lies in
  [1, 5], so does every score. The category score is the mean of the non-NaN
  bars of its detail view. On an empty table every score is NaN, and two
  answers 3 and 5 to "Toilet bersih" score "Kebersihan & Kesehatan" at 4.

`app.py` has no normaliser for age, gender or programme values and no fuzzy
matching of header names: after cleaning, a question counts only when its
label is exactly a column name, and a filter keeps a row only when its cell is
exactly the chosen text.

## Model

| member | source | states |
|---|---|---|
| `Catalog.KategoriFasilitasWellFormed` | app.py:19-48 | the catalog has six categories, no category name twice and no label twice within a category |
| `Catalog.AllLabels` | app.py:70 | the flattened label list holds a label exactly when some category lists it |
| `Catalog.LabelsOf` | app.py:169 | looking a category up by name yields the labels stored with that name |
| `Text.RemoveBom` | app.py:66 | the result has no U+FEFF, is a subsequence of the name, and keeps every other character with its multiplicity |
| `Text.Strip` | app.py:66 | the result is the slice of the name between a whitespace-only prefix and a whitespace-only suffix, neither starts nor ends with whitespace, and is empty exactly when the name is all whitespace |
| `Text.StripPadded` | app.py:66 | a text without whitespace at its ends, padded with whitespace on both sides, strips back to that text |
| `Text.RemoveBomAppend` | app.py:66 | deleting U+FEFF from two joined texts is deleting it from each and joining the results |
| `Text.SkipLeading` | app.py:66 | strip's left end: every character it skips is whitespace and the one it stops at is not |
| `Text.SkipTrailing` | app.py:66 | strip's right end: every character it drops is whitespace and the last one kept is not |
| `Text.SortStrings` | app.py:93 | `sorted` on strings: the result is in code-point order, is a permutation of the input, and has no duplicates when the input has none |
| `Loading.CleanName` | app.py:66 | a cleaned name has no U+FEFF and no whitespace at either end; a name already clean is unchanged |
| `Loading.CleanPadded` | app.py:66 | a clean name padded on either side with U+FEFF and whitespace cleans back to exactly that name |
| `Loading.BomOrSpaceRemoved` | app.py:66 | padding made only of U+FEFF and whitespace is all whitespace once U+FEFF is deleted |
| `Loading.BomHeaderCleansToLabel` | app.py:66 | the header U+FEFF "Toilet bersih " cleans to the catalog label "Toilet bersih" |
| `Loading.CleanNameIdempotent` | app.py:66 | cleaning a cleaned name changes nothing |
| `Loading.CleanNames` | app.py:66 | every column name is cleaned, position by position |
| `Numbers.ParseNumber` | app.py:77 | a text that parses is non-empty, and a negative value needs a leading minus |
| `Numbers.ParseUnsignedRejects` | app.py:77 | an unsigned text with a character that is neither a digit nor a point does not read as a number |
| `Numbers.NonNumericTextIsNaN` | app.py:77 | a text with a character other than a digit, a point or a leading sign reads as NaN |
| `Numbers.WordedAnswerIsNaN` | app.py:77 | the worded answer "Sangat puas" reads as NaN |
| `Numbers.ParseDecimalText` | app.py:77 | a whole number, a point and a string of digits read as the whole number plus the digits' value over the matching power of ten |
| `Numbers.ParseFourPointFive` | app.py:77 | "4.5" reads as 4.5 |
| `Numbers.ParseNatText` | app.py:77 | the decimal text of a whole number parses back to that number |
| `Numbers.ParseNegativeNatText` | app.py:77 | a leading minus parses to the negated number |
| `Loading.CoerceColumn` | app.py:77 | coercing one column turns each of its cells into its numeric reading, which is a number or NaN, and keeps every cell of every other column and the shape |
| `Loading.Coerced` | app.py:70-77 | coercing a set of labels keeps the header and the row count; the cell-by-cell effect is `Loading.CoercedCells` |
| `Loading.ToNumeric` | app.py:77 | a coerced cell is a number or NaN, a number or NaN is kept, and a text becomes its number or NaN |
| `Loading.CoercedCells` | app.py:73-77 | in a catalog column numbers stay, NaN stays, text becomes its number or NaN; every other column keeps its cells |
| `Loading.CoercedStep` | app.py:73-77 | coercing one more label adds exactly that column's coercion, or nothing when the label is not a column |
| `Loading.CoercedIsNumeric` | app.py:73-77 | after coercion every catalog column that exists is numeric |
| `Loading.CoerceRatings` | app.py:70-77 | the loop over the catalog labels leaves exactly the coerced table: each label that is a column converted, every other cell kept |
| `Loading.LoadData` | app.py:65-80 | loading fails exactly when two cleaned names collide; otherwise the header is clean, the table is the coerced table, and every rating column is numeric |
| `Filters.BuildOptions` | app.py:91-96 | "Semua" first, then the printed forms of the column's distinct non-null values, each exactly as often as it is printed, sorted; only "Semua" when the column is absent |
| `Filters.NonNull` | app.py:93 | `dropna`: the cells kept are exactly the column's non-null cells |
| `Filters.Unique` | app.py:93 | `unique`: no value twice, and exactly the values of the column |
| `Filters.RenderAll` | app.py:93 | `str(x)` applied to each distinct value: one printed form per cell, in the same positions |
| `Filters.OptionsStrictlySorted` | app.py:93 | when no two different values print alike, the choices after "Semua" are strictly increasing |
| `Filters.TextColumnRenderInjective` | app.py:93 | on a column of texts and NaN no two different values print alike |
| `Filters.Selected` | app.py:111-117 | every selected row comes from the table and passes every filter |
| `Filters.SelectedExactly` | app.py:111-117 | the selection is a subsequence of the rows; a passing row keeps its multiplicity and a failing row is dropped |
| `Filters.FilterEq` | app.py:113 | an equality filter keeps the columns, and each row it keeps is a row of the table whose cell is the chosen text |
| `Filters.RowsWhere` | app.py:113 | every row kept is a row of the table whose cell in the column equals the value |
| `Filters.Step` | app.py:112-117 | an active filter keeps only rows of the table holding the chosen text; "Semua" leaves the table unchanged |
| `Filters.Chain` | app.py:112-117 | the filters applied one after another keep the header and leave only rows of the table |
| `Filters.SelectedActiveStep` | app.py:112-117 | applying one more active filter to a selection selects by the longer filter list |
| `Filters.SelectedInactiveStep` | app.py:112-117 | a skipped filter leaves the selection as it was |
| `Filters.SkippedFiltersKeepAll` | app.py:112-117 | filters that are all "Semua" or name absent columns keep every row |
| `Filters.ChainSelects` | app.py:111-117 | applying filters one after another keeps exactly the rows that pass them all |
| `Filters.FilterResponden` | app.py:111-117 | the status, gender and age filters yield the selected rows with the same columns, a subsequence of the table, and the table itself when every filter is skipped |
| `Filters.RowsWhereNonEmpty` | app.py:113 | an equality filter keeps some row exactly when some row holds the chosen text |
| `Filters.NumericColumnFilterEmpty` | app.py:113 | on a numeric column an equality filter with a string keeps no row |
| `Filters.TextChoicesSelectRows` | app.py:91-117 | on a column of texts every choice offered after "Semua" keeps at least one row |
| `Filters.ShownTextInRow` | app.py:91-96 | in a column without numbers, every printed value offered is the text of some row |
| `Aggregation.Mean` | app.py:140 | the mean is NaN exactly when no value is present |
| `Aggregation.Present` | app.py:140 | the values a mean uses are exactly the column's numbers, and none exactly when the column has no number |
| `Aggregation.PresentCounts` | app.py:140 | each number occurs among the values a mean uses as often as it occurs in the column |
| `Aggregation.Somes` | app.py:140 | the outer mean uses exactly the per-question means that are not NaN |
| `Aggregation.SomesCounts` | app.py:140 | each per-question mean that is not NaN is used by the outer mean as often as it occurs |
| `Aggregation.MeanOfOne` | app.py:140 | the mean of one value is that value |
| `Aggregation.ColumnMean` | app.py:140 | a question's mean is NaN exactly when no row holds a number in its column |
| `Aggregation.ColumnMeans` | app.py:140 | one mean per valid column, in the order of the columns |
| `Aggregation.CategoryScore` | app.py:137-144 | a category none of whose labels is a column scores NaN |
| `Aggregation.DetailMeans` | app.py:169-175 | one (question, mean) pair per valid column; each question is a label of the category and a numeric column, and its mean is that column's mean |
| `Aggregation.ValidColumns` | app.py:137 | the valid columns are the catalog-order subsequence of the labels that are columns, without duplicates when the labels have none |
| `Aggregation.AverageScores` | app.py:135-144 | one (category, score) pair per catalog category, in catalog order, each the category's score |
| `Aggregation.MeanWithin` | app.py:140 | a mean lies within any bounds that hold every value |
| `Aggregation.SumWithin` | app.py:140 | a sum of n values within [lo, hi] lies within [n·lo, n·hi] |
| `Aggregation.ColumnMeanWithin` | app.py:140 | a question's mean lies within any bounds that hold its ratings |
| `Aggregation.CategoryScoreWithin` | app.py:138-141 | with every rating in [lo, hi] the category score is in [lo, hi] |
| `Aggregation.CategoryScoreUndefined` | app.py:138-144 | the score is NaN exactly when no question of the category is a column holding a number |
| `Aggregation.EmptyTableScoresUndefined` | app.py:135-144 | on a table without rows every category score is NaN |
| `Aggregation.ScoreOfThreeAndFive` | app.py:138-141 | answers 3 and 5 in the one valid column give the score 4 |
| `Aggregation.ToiletColumnMean` | app.py:140 | a column answered 3 and 5 has the mean 4 |
| `Aggregation.ToiletQuestionIsValid` | app.py:137 | of the "Kebersihan & Kesehatan" labels only "Toilet bersih" is a column of a table with that one column |
| `Aggregation.TwoRatingsExample` | app.py:35-37 | "Kebersihan & Kesehatan" is the fourth category, and two answers 3 and 5 to "Toilet bersih" give it the score 4 |
| `Aggregation.DetailMeansKeys` | app.py:169-175 | the detail view has one (question, mean) pair per valid column, in catalog order, and is empty exactly when no question is a column |
| `Aggregation.CategoryScoreFromDetail` | app.py:140 | the category score is the mean of the non-NaN means of the detail view, NaN when that view is empty |
| `Aggregation.CategoryLabelsNumeric` | app.py:70-77 | every category's labels are among the coerced labels, so after loading each category's columns are numeric |
| `Dashboard.SelectedKeepsNumeric` | app.py:111-117 | filtering only drops rows, so rating columns stay numeric |
| `Dashboard.ShowDashboard` | app.py:111-175 | "no matching data" exactly when no row passes the filters; otherwise the respondent count, one score per category and the chosen category's detail |

## Left out

- Reading the CSV file and the encoding fallback loop (app.py:56-63): file I/O and exceptions. `LoadData` takes the frame `read_csv` yields.
- `@st.cache_data` (app.py:53): a framework cache.
- Page setup, widgets, metrics, warnings, charts, their sorting for display, number formats and axis ranges (app.py:9-13, 88-90, 97-108, 119-125, 146-159, 164-166, 177-197). The widget selections are method parameters.
- The selectboxes (app.py:98-107) restrict each filter to the choices offered; the model accepts any string as a choice, so its filter properties hold for every choice.
- The `if kategori_pilihan:` guard (app.py:168) always holds, since the chosen category is a catalog name and no name is empty.
- Loading.LoadData: pandas keeps two columns whose cleaned names collide. If the shared name is a catalog label, `pd.to_numeric` receives a two-column frame at app.py:77 and raises; if it is "Status Anda" or "Usia", `.unique()` is called on a frame at app.py:93 and raises; if nothing reads that name, the page runs normally. The model stops with `DuplicateColumns` in all three cases.
- Numbers.ParseNumber: accepts an optional sign, digits and at most one decimal point. Exponents, `inf`, surrounding whitespace and other forms `pd.to_numeric` may accept become NaN in the model.
- Filters.BuildOptions: how numpy prints a number is not modelled. The function `show` stands for it, and the proved properties hold for every `show`.
- IEEE floating point: means are exact averages over `real`, and NaN is `None`.
- The DataFrame index: rows keep their order but not their index labels.
- `load_data` updates its local DataFrame in place. The model reassigns a frame value instead, since the frame is created inside `load_data` and nothing else refers to it.
