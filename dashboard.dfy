/** The page as a whole: filter the loaded table with the sidebar choices, then
    show either a "no matching data" warning or the category scores and the
    detail of the chosen category. Page layout and charts are not modelled. */
module Dashboard {
  import opened Wrappers
  import opened Frames
  import opened Catalog
  import opened Filters
  import opened Aggregation

  datatype View =
    | NoMatchingData
    | Summary(respondents: nat, scores: seq<(string, Option<real>)>, detail: seq<(string, Option<real>)>)

  /** Filtering keeps the rating columns numeric, since it only drops rows. */
  lemma SelectedKeepsNumeric(df: Frame, names: seq<string>, fs: seq<Filter>)
    requires Rectangular(df) && NumericColumns(df, names)
    ensures NumericColumns(Frame(df.columns, Selected(df.columns, df.rows, fs)), names)
  {
  }

  /** The main page for the sidebar choices and the category picked for detail.
      Scores are computed only when some respondent passes the filters. */
  method ShowDashboard(df: Frame, status: string, gender: string, age: string, chosen: string)
    returns (view: View)
    requires WellFormed(df) && NumericColumns(df, AllLabels(KategoriFasilitas))
    requires chosen in Names(KategoriFasilitas)
    ensures var filtered := Frame(df.columns, Selected(df.columns, df.rows, SidebarFilters(status, gender, age)));
      && (view.NoMatchingData? <==> filtered.rows == [])
      && CatalogNumeric(filtered, KategoriFasilitas)
      && NumericColumns(filtered, LabelsOf(KategoriFasilitas, chosen))
      && (view.Summary? ==>
            && view.respondents == |filtered.rows|
            && |view.scores| == |KategoriFasilitas|
            && (forall i | 0 <= i < |KategoriFasilitas| ::
                  view.scores[i] == (KategoriFasilitas[i].0, CategoryScore(filtered, KategoriFasilitas[i].1)))
            && view.detail == DetailMeans(filtered, LabelsOf(KategoriFasilitas, chosen)))
  {
    var filtered := FilterResponden(df, status, gender, age);
    SelectedKeepsNumeric(df, AllLabels(KategoriFasilitas), SidebarFilters(status, gender, age));
    CategoryLabelsNumeric(filtered, KategoriFasilitas);
    if |filtered.rows| == 0 {
      view := NoMatchingData;
    } else {
      var avgScores := AverageScores(filtered, KategoriFasilitas);
      var detail := DetailMeans(filtered, LabelsOf(KategoriFasilitas, chosen));
      view := Summary(|filtered.rows|, avgScores, detail);
    }
  }
}
