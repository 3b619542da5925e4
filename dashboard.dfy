/** The data behind the trend chart, from the two loaded tables to the rows it
    plots, for one selected year. */
module Dashboard {
  import opened Tables
  import opened Seqs
  import opened Reshape
  import opened Reconcile
  import opened View

  /** filtered_df, top_countries and line_data for one selected year. */
  datatype Trend = Trend(filtered: seq<MergedRecord>, top: seq<string>, line: seq<MergedRecord>)

  /** Year selection, top countries and line data on the joined table: every
      plotted row is a joined row of the selected year and of one of at most
      five chosen countries, and each stage keeps the order of the one before. */
  function TrendOf(merged: seq<MergedRecord>, year: int): (v: Trend)
    ensures IsSubseq(v.filtered, merged) && IsSubseq(v.line, v.filtered)
    ensures |v.top| <= TopCount
    ensures forall r <- v.line :: r in merged && r.year == year && r.countryRegion in v.top
  {
    var filtered := SelectYear(merged, year);
    var top := TopCountries(filtered);
    Trend(filtered, top, LineData(filtered, top))
  }

  /** The whole pipeline: reshape, join, then the trend view. It fails exactly
      when the case table has a row and some date header does not parse. */
  function Pipeline(raw: RawCaseTable, eco: seq<EconRecord>, toDate: string -> Option<Date>, year: int): (r: Result<Trend>)
    requires RawRectangular(raw)
    ensures r.Err? <==>
      |raw.rows| > 0 && exists j :: 0 <= j < |raw.dateHeaders| && toDate(raw.dateHeaders[j]).None?
  {
    MergedTableFails(raw, eco, toDate);
    match MergedTable(raw, eco, toDate)
    case Err(e) => Err(e)
    case Ok(merged) => Ok(TrendOf(merged, year))
  }

  /** In every plotted row, Country/Region equals Country. */
  lemma {:induction false} PlottedCountryAgrees(raw: RawCaseTable, eco: seq<EconRecord>, toDate: string -> Option<Date>, year: int)
    requires RawRectangular(raw) && MergedTable(raw, eco, toDate).Ok?
    ensures forall r <- TrendOf(MergedTable(raw, eco, toDate).value, year).line :: r.countryRegion == r.country
  {
    MergeKeyAgrees(TidyCases(raw, toDate).value, eco);
  }

  /** A year outside 2020-2022 selects no row, so nothing is plotted. */
  lemma {:induction false} UnsupportedYearSelectsNothing(raw: RawCaseTable, eco: seq<EconRecord>, toDate: string -> Option<Date>, year: int)
    requires RawRectangular(raw) && MergedTable(raw, eco, toDate).Ok? && year !in SupportedYears
    ensures TrendOf(MergedTable(raw, eco, toDate).value, year).filtered == []
    ensures TrendOf(MergedTable(raw, eco, toDate).value, year).line == []
  {
    MergedYearsSupported(raw, eco, toDate);
  }
}
