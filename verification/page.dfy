/** The dashboard script: the table is loaded once, every view is computed
    from it in the order the page lays them out, and the category column is
    overwritten half-way, before the category views and the map. The widgets'
    values (threshold, minimum number of cities, search text, selected
    category) are parameters. */
module Page {
  import opened Rows
  import opened Series
  import Normalize
  import CountryViews
  import CategoryViews
  import Classify

  /** Everything the page computes from the table. */
  datatype Dashboard = Dashboard(
    countryStats: seq<CountryViews.CountryStat>,
    display: CountryViews.Display,
    rendered: seq<CountryViews.CountryStat>,
    belowTop: seq<CountryViews.CountryCount>,
    aboveTop: seq<CountryViews.CountryCount>,
    hemispheres: seq<CountryViews.GroupStat<Hemisphere>>,
    sides: seq<CountryViews.GroupStat<EastWest>>,
    pivotTop: Option<seq<CategoryViews.PivotRow>>,
    filtered: Option<FilterViews>)

  /** What the page computes after it builds the category select box: the
      shares of the selected category, the map points and the hemisphere
      means. `Dashboard.filtered` is `None` when the script stopped before
      computing them: at the category overwrite, where `Dashboard.pivotTop`
      is `None` too, or at the select box. */
  datatype FilterViews = FilterViews(
    sharesTop: seq<CategoryViews.CountryShare>,
    points: seq<Classify.MapPoint>,
    hemisphereMeans: (Option<real>, Option<real>))

  /** The charts show the first 10 threshold and share rows, the pivot its
      first 20 rows. */
  const ChartRows: nat := 10
  const PivotRows: nat := 20

  /** The views of the table as loaded: the country statistics and the
      search over them, the two threshold charts and the two group tables.
      The rendered country table is `country_stats` whatever the search text:
      the search only decides `display_stats`, which is not rendered. */
  method CountryPanel(data: seq<CityRow>, threshold: real, minCities: int, search: string)
    returns (countryStats: seq<CountryViews.CountryStat>, display: CountryViews.Display,
             rendered: seq<CountryViews.CountryStat>,
             belowTop: seq<CountryViews.CountryCount>, aboveTop: seq<CountryViews.CountryCount>,
             hemispheres: seq<CountryViews.GroupStat<Hemisphere>>, sides: seq<CountryViews.GroupStat<EastWest>>)
    ensures countryStats == CountryViews.CountryStats(data, minCities)
    ensures display == CountryViews.DisplayStats(countryStats, search)
    ensures rendered == countryStats && Sorted(rendered, CountryViews.MeanKey, true)
    ensures belowTop == Head(CountryViews.BelowThreshold(data, threshold, minCities), ChartRows)
    ensures aboveTop == Head(CountryViews.AboveThreshold(data, threshold, minCities), ChartRows)
    ensures Sorted(belowTop, CountryViews.CountKey, false) && Sorted(aboveTop, CountryViews.CountKey, false)
    ensures hemispheres == CountryViews.HemisphereStats(data)
    ensures sides == CountryViews.EastWestStats(data)
  {
    countryStats := CountryViews.CountryStats(data, minCities);
    display := CountryViews.DisplayStats(countryStats, search);
    rendered := countryStats;
    var below := CountryViews.BelowThreshold(data, threshold, minCities);
    var above := CountryViews.AboveThreshold(data, threshold, minCities);
    HeadKeeps(below, ChartRows, CountryViews.CountKey, false);
    HeadKeeps(above, ChartRows, CountryViews.CountKey, false);
    belowTop, aboveTop := Head(below, ChartRows), Head(above, ChartRows);
    hemispheres := CountryViews.HemisphereStats(data);
    sides := CountryViews.EastWestStats(data);
  }

  /** The views of the table after its category column is normalised: the
      pivot's first 20 rows, then, unless sorting the select box's options
      raises, the first 10 shares of the selected category, the map points
      and the hemisphere means. */
  method CategoryPanel(data: seq<CityRow>, countryStats: seq<CountryViews.CountryStat>, minCities: int, selected: string)
    returns (pivotTop: seq<CategoryViews.PivotRow>, filtered: Option<FilterViews>)
    ensures pivotTop == Head(CategoryViews.CategoryPivot(data, minCities), PivotRows)
    ensures Sorted(pivotTop, CategoryViews.TotalKey, false)
    ensures filtered.None? <==> CategoryViews.UnsortableCategories(data)
    ensures filtered.Some? ==>
      && filtered.value.sharesTop == Head(CategoryViews.CategoryShares(data, countryStats, minCities, selected), ChartRows)
      && Sorted(filtered.value.sharesTop, CategoryViews.PercentKey, false)
      && filtered.value.points == Classify.MapPoints(data)
      && filtered.value.hemisphereMeans == CountryViews.HemisphereMeans(data)
  {
    var pivot := CategoryViews.CategoryPivot(data, minCities);
    HeadKeeps(pivot, PivotRows, CategoryViews.TotalKey, false);
    pivotTop := Head(pivot, PivotRows);
    if CategoryViews.UnsortableCategories(data) {
      filtered := None;
      return;
    }
    var shares := CategoryViews.CategoryShares(data, countryStats, minCities, selected);
    HeadKeeps(shares, ChartRows, CategoryViews.PercentKey, false);
    var sharesTop := Head(shares, ChartRows);
    var points := Classify.MapPoints(data);
    var means := CountryViews.HemisphereMeans(data);
    filtered := Some(FilterViews(sharesTop, points, means));
  }

  /** Everything from the category overwrite on, for the loaded table of
      `raw`: nothing when the file has no category text at all, since the
      overwrite then raises; otherwise the overwrite and the category panel
      on the overwritten table. */
  method CategoryStage(raw: seq<RawRow>, loaded: seq<CityRow>, countryStats: seq<CountryViews.CountryStat>,
                       minCities: int, selected: string)
    returns (pivotTop: Option<seq<CategoryViews.PivotRow>>, filtered: Option<FilterViews>)
    ensures pivotTop.None? <==> Normalize.NoTextCategories(raw)
    ensures filtered.None? <==> Normalize.NoTextCategories(raw) || CategoryViews.UnsortableCategories(loaded)
    ensures var data := CategoryViews.NormalizeCategories(loaded);
      && (pivotTop.Some? ==> pivotTop.value == Head(CategoryViews.CategoryPivot(data, minCities), PivotRows))
      && (filtered.Some? ==>
        && filtered.value.sharesTop == Head(CategoryViews.CategoryShares(data, countryStats, minCities, selected), ChartRows)
        && filtered.value.points == Classify.MapPoints(data)
        && filtered.value.hemisphereMeans == CountryViews.HemisphereMeans(data))
  {
    if Normalize.NoTextCategories(raw) {
      return None, None;
    }
    CategoryViews.NormalizeKeepsUnsortable(loaded);
    var data := CategoryViews.NormalizeCategories(loaded);
    var top;
    top, filtered := CategoryPanel(data, countryStats, minCities, selected);
    pivotTop := Some(top);
  }

  /** The page, top to bottom: the table is loaded and the country views
      read it. When the file has no category text at all, the category
      overwrite raises and nothing after it is computed. Otherwise the
      column is overwritten in place and the pivot reads the overwritten
      table. The category select box is built next; when its options hold
      both NaN and a label, sorting them raises and nothing after it is
      computed. Otherwise the shares, the map and the hemisphere means read
      the overwritten table too. */
  method BuildDashboard(raw: seq<RawRow>, threshold: real, minCities: int, search: string, selected: string)
    returns (page: Dashboard)
    ensures var loaded := Normalize.Normalized(raw);
      && page.countryStats == CountryViews.CountryStats(loaded, minCities)
      && page.display == CountryViews.DisplayStats(page.countryStats, search)
      && page.rendered == page.countryStats
      && page.belowTop == Head(CountryViews.BelowThreshold(loaded, threshold, minCities), ChartRows)
      && page.aboveTop == Head(CountryViews.AboveThreshold(loaded, threshold, minCities), ChartRows)
      && page.hemispheres == CountryViews.HemisphereStats(loaded)
      && page.sides == CountryViews.EastWestStats(loaded)
      && (page.pivotTop.None? <==> Normalize.NoTextCategories(raw))
      && (page.filtered.None? <==> Normalize.NoTextCategories(raw) || CategoryViews.UnsortableCategories(loaded))
    ensures var data := CategoryViews.NormalizeCategories(Normalize.Normalized(raw));
      && (page.pivotTop.Some? ==> page.pivotTop.value == Head(CategoryViews.CategoryPivot(data, minCities), PivotRows))
      && (page.filtered.Some? ==>
        && page.filtered.value.sharesTop == Head(CategoryViews.CategoryShares(data, page.countryStats, minCities, selected), ChartRows)
        && page.filtered.value.points == Classify.MapPoints(data)
        && page.filtered.value.hemisphereMeans == CountryViews.HemisphereMeans(data))
  {
    var data := Normalize.LoadData(raw);
    var countryStats, display, rendered, belowTop, aboveTop, hemispheres, sides :=
      CountryPanel(data, threshold, minCities, search);
    var pivotTop, filtered := CategoryStage(raw, data, countryStats, minCities, selected);
    page := Dashboard(countryStats, display, rendered, belowTop, aboveTop, hemispheres, sides,
                      pivotTop, filtered);
  }
}
