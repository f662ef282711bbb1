/** The PM2.5 category views: the normalised category column, the
    country-by-category count pivot and the per-country share of cities in a
    selected category. */
module CategoryViews {
  import opened Rows
  import opened Series
  import Text
  import CountryViews
  import Stats

  /** `str.strip().str.title()` on one cell; a missing category stays
      missing. */
  function NormalizeCategory(c: Option<string>): (r: Option<string>)
    ensures r.Some? <==> c.Some?
    ensures c.Some? ==> r.value == Text.Title(Text.Strip(c.value))
  {
    match c
    case None => None
    case Some(s) => Some(Text.NormalizeLabel(s))
  }

  /** The table after the category column is overwritten with its
      normalised form: every other column, and the row order, is kept. */
  function NormalizeCategories(t: seq<CityRow>): (r: seq<CityRow>)
    ensures |r| == |t|
    ensures forall i :: 0 <= i < |t| ==>
      r[i] == t[i].(category := NormalizeCategory(t[i].category))
  {
    seq(|t|, i requires 0 <= i < |t| => t[i].(category := NormalizeCategory(t[i].category)))
  }

  /** Normalising the category column a second time changes nothing. */
  lemma NormalizeCategoriesIdempotent(t: seq<CityRow>)
    ensures NormalizeCategories(NormalizeCategories(t)) == NormalizeCategories(t)
  {
    var once := NormalizeCategories(t);
    forall i | 0 <= i < |t|
      ensures NormalizeCategory(once[i].category) == once[i].category
    {
      if t[i].category.Some? {
        Text.NormalizeLabelIdempotent(t[i].category.value);
      }
    }
  }

  /** Normalising categories does not change which rows belong to which
      country, so the country views computed before it still describe the
      table after it. */
  lemma {:induction false} NormalizeKeepsCountries(t: seq<CityRow>, c: string)
    ensures |OfCountry(NormalizeCategories(t), c)| == |OfCountry(t, c)|
    ensures CountryColumn(NormalizeCategories(t)) == CountryColumn(t)
  {
    if t != [] {
      NormalizeKeepsCountries(t[1..], c);
      assert NormalizeCategories(t)[1..] == NormalizeCategories(t[1..]);
    }
  }

  /** `sorted(data['PM2.5 AQI Category'].unique().tolist())`, the options of
      the category select box, holds NaN once for the missing values. Python
      cannot order NaN against a label and raises a TypeError, so the sort
      fails exactly when the column holds both a missing and a present
      category; a column of labels only, or of NaN only, sorts. */
  predicate UnsortableCategories(t: seq<CityRow>)
  {
    && (exists i :: 0 <= i < |t| && t[i].category.None?)
    && (exists i :: 0 <= i < |t| && t[i].category.Some?)
  }

  /** Fewer rows are categorised than the table holds exactly when a
      category is missing. */
  lemma {:induction false} CategorisedMissing(t: seq<CityRow>)
    ensures |Categorised(t)| <= |t|
    ensures |Categorised(t)| < |t| <==> exists i :: 0 <= i < |t| && t[i].category.None?
  {
    if t != [] {
      var rest := t[1..];
      CategorisedMissing(rest);
      if t[0].category.Some? {
        assert |Categorised(t)| == 1 + |Categorised(rest)|;
        if exists i :: 0 <= i < |t| && t[i].category.None? {
          var i :| 0 <= i < |t| && t[i].category.None?;
          assert rest[i - 1] == t[i];
        }
        if exists j :: 0 <= j < |rest| && rest[j].category.None? {
          var j :| 0 <= j < |rest| && rest[j].category.None?;
          assert t[j + 1] == rest[j];
        }
      } else {
        assert t[0].category.None?;
      }
    }
  }

  /** Some rows are categorised exactly when a category is present. */
  lemma CategorisedPresent(t: seq<CityRow>)
    ensures 0 < |Categorised(t)| <==> exists i :: 0 <= i < |t| && t[i].category.Some?
  {
    var c := Categorised(t);
    if exists i :: 0 <= i < |t| && t[i].category.Some? {
      var i :| 0 <= i < |t| && t[i].category.Some?;
      assert t[i] in c;
    }
    if 0 < |c| {
      assert c[0] in t;
      var i :| 0 <= i < |t| && t[i] == c[0];
    }
  }

  /** The select box cannot be built exactly when some, but not all, rows
      carry a category. */
  lemma UnsortableIffPartlyCategorised(t: seq<CityRow>)
    ensures UnsortableCategories(t) <==> 0 < |Categorised(t)| < |t|
  {
    CategorisedMissing(t);
    CategorisedPresent(t);
  }

  /** Overwriting the category column keeps every missing value missing and
      every present one present, so it does not decide whether the sort
      fails. */
  lemma NormalizeKeepsUnsortable(t: seq<CityRow>)
    ensures UnsortableCategories(NormalizeCategories(t)) <==> UnsortableCategories(t)
  {
    var r := NormalizeCategories(t);
    assert forall i :: 0 <= i < |t| ==> (r[i].category.Some? <==> t[i].category.Some?);
  }

  /** The sum of a row of counts. */
  function Total(xs: seq<nat>): (r: nat)
  {
    if xs == [] then 0 else xs[0] + Total(xs[1..])
  }

  /** A row's Total is the same fold as `Stats.Sum`, taken over counts: the
      two agree on every row of counts read as reals. */
  lemma {:induction false} TotalIsSum(xs: seq<nat>)
    ensures Total(xs) as real == Stats.Sum(seq(|xs|, i requires 0 <= i < |xs| => xs[i] as real))
  {
    if xs != [] {
      TotalIsSum(xs[1..]);
      var reals := seq(|xs|, i requires 0 <= i < |xs| => xs[i] as real);
      assert reals[1..] == seq(|xs[1..]|, i requires 0 <= i < |xs[1..]| => xs[1..][i] as real);
    }
  }

  /** The total of a pointwise sum is the sum of the totals. */
  lemma {:induction false} TotalPointwise(xs: seq<nat>, ys: seq<nat>, zs: seq<nat>)
    requires |xs| == |ys| == |zs|
    requires forall j :: 0 <= j < |zs| ==> zs[j] == xs[j] + ys[j]
    ensures Total(zs) == Total(xs) + Total(ys)
  {
    if zs != [] {
      TotalPointwise(xs[1..], ys[1..], zs[1..]);
    }
  }

  /** A row that is 1 exactly at the column holding v, in columns without
      duplicates, totals 1 when v is a column and 0 otherwise. */
  lemma {:induction false} TotalIndicator(columns: seq<string>, v: Option<string>, xs: seq<nat>)
    requires NoDuplicates(columns)
    requires |xs| == |columns|
    requires forall j :: 0 <= j < |xs| ==> xs[j] == if v == Some(columns[j]) then 1 else 0
    ensures Total(xs) == if v.Some? && v.value in columns then 1 else 0
  {
    if xs != [] {
      assert NoDuplicates(columns[1..]) by {
        forall i, j | 0 <= i < j < |columns[1..]| ensures columns[1..][i] != columns[1..][j] {
          assert columns[1..][i] == columns[i + 1] && columns[1..][j] == columns[j + 1];
        }
      }
      TotalIndicator(columns[1..], v, xs[1..]);
      if v == Some(columns[0]) {
        assert columns[0] !in columns[1..] by {
          forall k | 0 <= k < |columns[1..]| ensures columns[1..][k] != columns[0] {
            assert columns[1..][k] == columns[k + 1];
          }
        }
      }
      assert columns == [columns[0]] + columns[1..];
    }
  }

  /** For each column, the number of rows in that category. */
  function CountsFor(rows: seq<CityRow>, columns: seq<string>): (r: seq<nat>)
    ensures |r| == |columns|
    ensures forall j :: 0 <= j < |columns| ==> r[j] == |InCategory(rows, columns[j])|
  {
    seq(|columns|, j requires 0 <= j < |columns| => |InCategory(rows, columns[j])|)
  }

  /** A row of per-category counts adds up to the number of rows with a
      category, when the columns list every category of the rows once. */
  lemma {:induction false} CountsForTotal(rows: seq<CityRow>, columns: seq<string>)
    requires NoDuplicates(columns)
    requires forall i :: 0 <= i < |rows| && rows[i].category.Some? ==> rows[i].category.value in columns
    ensures Total(CountsFor(rows, columns)) == |Categorised(rows)|
  {
    if rows == [] {
      var zeros := CountsFor(rows, columns);
      TotalIndicator(columns, None, zeros);
    } else {
      var x, rest := rows[0], rows[1..];
      CountsForTotal(rest, columns);
      var ind := seq(|columns|, j requires 0 <= j < |columns| => if x.category == Some(columns[j]) then 1 else 0);
      TotalIndicator(columns, x.category, ind);
      TotalPointwise(ind, CountsFor(rest, columns), CountsFor(rows, columns));
    }
  }

  /** A row of `pivot_table(index='Country', columns='PM2.5 AQI Category',
      aggfunc='count', fill_value=0)`. */
  datatype PivotRow = PivotRow(country: string, counts: seq<nat>)

  function TotalKey(p: PivotRow): (r: real)
  {
    Total(p.counts) as real
  }

  /** The pivot's columns: every category present, once. */
  function PivotColumns(t: seq<CityRow>): (columns: seq<string>)
    ensures NoDuplicates(columns)
    ensures forall c :: c in columns <==> exists row :: row in t && row.category == Some(c)
  {
    Unique(CategoryColumn(t))
  }

  /** The row of one country: its number of cities in each category. */
  function PivotRowOf(t: seq<CityRow>, c: string): (r: PivotRow)
  {
    PivotRow(c, CountsFor(OfCountry(t, c), PivotColumns(t)))
  }

  /** Each pivot row adds up to the country's number of cities that have a
      category; with no category missing, to its number of cities. */
  lemma PivotRowTotal(t: seq<CityRow>, c: string)
    ensures Total(PivotRowOf(t, c).counts) == |Categorised(OfCountry(t, c))|
    ensures (forall i :: 0 <= i < |t| ==> t[i].category.Some?) ==>
      Total(PivotRowOf(t, c).counts) == |OfCountry(t, c)|
  {
    var rows := OfCountry(t, c);
    var columns := PivotColumns(t);
    forall i | 0 <= i < |rows| && rows[i].category.Some?
      ensures rows[i].category.value in columns
    {
      assert rows[i] in t;
    }
    CountsForTotal(rows, columns);
    if forall i :: 0 <= i < |t| ==> t[i].category.Some? {
      CategorisedAll(rows);
    }
  }

  /** With no category missing, every row is categorised. */
  lemma {:induction false} CategorisedAll(rows: seq<CityRow>)
    requires forall row :: row in rows ==> row.category.Some?
    ensures Categorised(rows) == rows
  {
    if rows != [] {
      CategorisedAll(rows[1..]);
    }
  }

  /** The pivot before filtering: a row for each country that has a city
      with a category. */
  function PivotTable(t: seq<CityRow>): (p: seq<PivotRow>)
    ensures forall k :: 0 <= k < |p| ==> p[k] == PivotRowOf(t, p[k].country)
    ensures forall k :: 0 <= k < |p| ==> p[k].country in CountryColumn(Categorised(t))
    ensures forall i :: 0 <= i < |t| && t[i].category.Some? ==> PivotRowOf(t, t[i].country) in p
    ensures NoDuplicates(p)
  {
    var cs := Unique(CountryColumn(Categorised(t)));
    var p := seq(|cs|, k requires 0 <= k < |cs| => PivotRowOf(t, cs[k]));
    PivotListed(t, cs, p);
    PivotComplete(t, cs, p);
    p
  }

  /** Pivot rows listed for distinct countries with a categorised row: each
      is its country's row, and none appears twice. */
  lemma PivotListed(t: seq<CityRow>, cs: seq<string>, p: seq<PivotRow>)
    requires forall k :: 0 <= k < |cs| ==> cs[k] in CountryColumn(Categorised(t))
    requires NoDuplicates(cs)
    requires |p| == |cs| && forall k :: 0 <= k < |cs| ==> p[k] == PivotRowOf(t, cs[k])
    ensures forall k :: 0 <= k < |p| ==> p[k] == PivotRowOf(t, p[k].country)
    ensures forall k :: 0 <= k < |p| ==> p[k].country in CountryColumn(Categorised(t))
    ensures NoDuplicates(p)
  {
    assert forall k :: 0 <= k < |p| ==> p[k].country == cs[k];
  }

  /** Listing every country with a categorised row lists its pivot row. */
  lemma PivotComplete(t: seq<CityRow>, cs: seq<string>, p: seq<PivotRow>)
    requires forall k :: 0 <= k < |Categorised(t)| ==> CountryColumn(Categorised(t))[k] in cs
    requires |p| == |cs| && forall k :: 0 <= k < |cs| ==> p[k] == PivotRowOf(t, cs[k])
    ensures forall i :: 0 <= i < |t| && t[i].category.Some? ==> PivotRowOf(t, t[i].country) in p
  {
    forall i | 0 <= i < |t| && t[i].category.Some? ensures PivotRowOf(t, t[i].country) in p {
      var ct := Categorised(t);
      assert t[i] in ct;
      var m :| 0 <= m < |ct| && ct[m] == t[i];
      assert CountryColumn(ct)[m] in cs;
      var k :| 0 <= k < |cs| && cs[k] == t[i].country;
      assert p[k] in p;
    }
  }

  /** `pm25_pivot[pm25_pivot.sum(axis=1) >= min_cities]`. */
  function PivotKept(t: seq<CityRow>, minCities: int): (kept: seq<PivotRow>)
    ensures forall k :: 0 <= k < |kept| ==> kept[k] in PivotTable(t) && Total(kept[k].counts) >= minCities
    ensures forall k :: 0 <= k < |PivotTable(t)| && Total(PivotTable(t)[k].counts) >= minCities ==>
      PivotTable(t)[k] in kept
    ensures NoDuplicates(kept)
  {
    var p := PivotTable(t);
    FilterKeepsDistinct(p, (r: PivotRow) => Total(r.counts) >= minCities);
    Filter(p, (r: PivotRow) => Total(r.counts) >= minCities)
  }

  /** The rendered pivot: the kept rows sorted by non-increasing total. The
      Total column only orders the rows and is dropped again, so the rows
      hold the category counts alone. */
  function CategoryPivot(t: seq<CityRow>, minCities: int): (r: seq<PivotRow>)
    ensures Sorted(r, TotalKey, false)
    ensures multiset(r) == multiset(PivotKept(t, minCities))
  {
    SortValues(PivotKept(t, minCities), TotalKey, false)
  }

  /** Each rendered pivot row is the category counts of a country whose
      categorised cities number at least minCities. */
  lemma CategoryPivotEntries(t: seq<CityRow>, minCities: int)
    ensures var r := CategoryPivot(t, minCities);
      forall k :: 0 <= k < |r| ==>
        && r[k] == PivotRowOf(t, r[k].country)
        && Total(r[k].counts) == |Categorised(OfCountry(t, r[k].country))| >= minCities
  {
    var r := CategoryPivot(t, minCities);
    PermutationKeepsMembers(r, PivotKept(t, minCities));
    forall k | 0 <= k < |r|
      ensures r[k] == PivotRowOf(t, r[k].country)
      ensures Total(r[k].counts) == |Categorised(OfCountry(t, r[k].country))| >= minCities
    {
      PivotKeptEntry(t, minCities, r[k]);
    }
  }

  /** A kept pivot row is the row of its country, with enough categorised
      cities. */
  lemma PivotKeptEntry(t: seq<CityRow>, minCities: int, x: PivotRow)
    requires x in PivotKept(t, minCities)
    ensures x == PivotRowOf(t, x.country)
    ensures Total(x.counts) == |Categorised(OfCountry(t, x.country))| >= minCities
  {
    var p := PivotTable(t);
    var j :| 0 <= j < |p| && p[j] == x;
    PivotRowTotal(t, x.country);
  }

  /** Every country with at least minCities categorised cities has a row in
      the rendered pivot, and none has two. */
  lemma CategoryPivotComplete(t: seq<CityRow>, minCities: int)
    ensures var r := CategoryPivot(t, minCities);
      forall i :: (0 <= i < |t| && t[i].category.Some? &&
        |Categorised(OfCountry(t, t[i].country))| >= minCities) ==>
        PivotRowOf(t, t[i].country) in r
    ensures NoDuplicates(CategoryPivot(t, minCities))
  {
    var p := PivotTable(t);
    var kept := PivotKept(t, minCities);
    var r := CategoryPivot(t, minCities);
    PermutationKeepsMembers(r, kept);
    PermutationKeepsDistinct(r, kept);
    forall i | 0 <= i < |t| && t[i].category.Some? && |Categorised(OfCountry(t, t[i].country))| >= minCities
      ensures PivotRowOf(t, t[i].country) in r
    {
      var row := PivotRowOf(t, t[i].country);
      PivotRowTotal(t, t[i].country);
      var k :| 0 <= k < |p| && p[k] == row;
      assert row in kept;
    }
  }

  /** `valid_countries`: the countries of the country table with at least
      minCities cities. */
  function ValidCountries(stats: seq<CountryViews.CountryStat>, minCities: int): (v: seq<string>)
    ensures forall c :: c in v <==>
      exists k :: 0 <= k < |stats| && stats[k].country == c && stats[k].summary.count >= minCities
  {
    if stats == [] then []
    else
      var rest := ValidCountries(stats[1..], minCities);
      assert forall k :: 1 <= k < |stats| ==> stats[k] == stats[1..][k - 1];
      (if stats[0].summary.count >= minCities then [stats[0].country] else []) + rest
  }

  /** A country's share of cities in the selected category. */
  datatype CountryShare = CountryShare(country: string, percent: real)

  function PercentKey(s: CountryShare): (r: real)
  {
    s.percent
  }

  /** `category_counts / country_totals * 100` for one country: the exact
      ratio, with no rounding. A country never has more cities in a category
      than cities, so the share is at most 100. */
  function Percent(matching: nat, total: nat): (p: real)
    requires 0 < total && matching <= total
    ensures 0.0 <= p <= 100.0
    ensures matching > 0 ==> p > 0.0
  {
    var q := matching as real / total as real;
    Stats.DivideBounds(matching as real, total as real, 0.0, 1.0);
    q * 100.0
  }

  /** The share times the country's number of cities is 100 times its
      number of cities in the category. */
  lemma PercentRatio(matching: nat, total: nat)
    requires 0 < total && matching <= total
    ensures Percent(matching, total) * (total as real) == (matching as real) * 100.0
  {
    var q := matching as real / total as real;
    assert q * (total as real) == matching as real;
  }

  /** Selecting a country and selecting a category commute. */
  lemma {:induction false} OfCountryInCategory(t: seq<CityRow>, c: string, category: string)
    ensures OfCountry(InCategory(t, category), c) == InCategory(OfCountry(t, c), category)
  {
    if t != [] {
      var x, rest := t[0], t[1..];
      OfCountryInCategory(rest, c, category);
      var inCat := if x.category == Some(category) then [x] else [];
      var inCountry := if x.country == c then [x] else [];
      assert InCategory(t, category) == inCat + InCategory(rest, category);
      OfCountryAppend(inCat, InCategory(rest, category), c);
      assert OfCountry(t, c) == inCountry + OfCountry(rest, c);
      InCategoryAppend(inCountry, OfCountry(rest, c), category);
      assert OfCountry(inCat, c) == InCategory(inCountry, category);
    }
  }

  /** Selecting a category distributes over concatenation. */
  lemma {:induction false} InCategoryAppend(a: seq<CityRow>, b: seq<CityRow>, category: string)
    ensures InCategory(a + b, category) == InCategory(a, category) + InCategory(b, category)
  {
    if a == [] {
      assert a + b == b;
    } else {
      assert (a + b)[1..] == a[1..] + b;
      InCategoryAppend(a[1..], b, category);
    }
  }

  /** The cities of a country in a category are at most all its cities. */
  lemma {:induction false} InCategoryAtMost(rows: seq<CityRow>, category: string)
    ensures |InCategory(rows, category)| <= |rows|
  {
    if rows != [] {
      InCategoryAtMost(rows[1..], category);
    }
  }

  /** A country with a city in the category is a country of the table. */
  lemma InCategoryCountry(t: seq<CityRow>, category: string, c: string)
    requires c in CountryColumn(InCategory(t, category))
    ensures c in CountryColumn(t)
  {
    var m := InCategory(t, category);
    OfCountryNonEmpty(m, c);
    var row := OfCountry(m, c)[0];
    assert row in t && row.country == c;
    assert row in OfCountry(t, c);
    OfCountryNonEmpty(t, c);
  }

  /** The share of one country: its cities in the category as a percentage
      of all its cities (the category only counts rows that have it). */
  function ShareOf(t: seq<CityRow>, c: string, selected: string): (s: CountryShare)
    requires c in CountryColumn(t)
    ensures s.country == c && |OfCountry(t, c)| > 0
    ensures |OfCountry(InCategory(t, selected), c)| <= |OfCountry(t, c)|
    ensures s.percent == Percent(|OfCountry(InCategory(t, selected), c)|, |OfCountry(t, c)|)
  {
    var matching, total := |OfCountry(InCategory(t, selected), c)|, |OfCountry(t, c)|;
    assert total > 0 by {
      OfCountryNonEmpty(t, c);
    }
    assert matching <= total by {
      OfCountryInCategory(t, c, selected);
      InCategoryAtMost(OfCountry(t, c), selected);
    }
    CountryShare(c, Percent(matching, total))
  }

  /** `(category_counts / country_totals * 100).dropna()`: a share for each
      country with a city in the selected category, and no other. */
  function MatchingShares(t: seq<CityRow>, selected: string): (shares: seq<CountryShare>)
    ensures forall k :: 0 <= k < |shares| ==>
      && shares[k].country in CountryColumn(t)
      && shares[k] == ShareOf(t, shares[k].country, selected)
      && |OfCountry(InCategory(t, selected), shares[k].country)| > 0
    ensures NoDuplicates(shares)
  {
    var cs := Unique(CountryColumn(InCategory(t, selected)));
    MatchingCountries(t, selected);
    SharesFor(t, cs, selected)
  }

  /** The countries with a city in the category are countries of the table
      with at least one such city. */
  lemma MatchingCountries(t: seq<CityRow>, selected: string)
    ensures var cs := Unique(CountryColumn(InCategory(t, selected)));
      forall k :: 0 <= k < |cs| ==> cs[k] in CountryColumn(t) && |OfCountry(InCategory(t, selected), cs[k])| > 0
  {
    var m := InCategory(t, selected);
    var cs := Unique(CountryColumn(m));
    forall k | 0 <= k < |cs| ensures cs[k] in CountryColumn(t) && |OfCountry(m, cs[k])| > 0 {
      InCategoryCountry(t, selected, cs[k]);
      OfCountryNonEmpty(m, cs[k]);
    }
  }

  /** The shares of a list of countries, in its order. */
  function SharesFor(t: seq<CityRow>, cs: seq<string>, selected: string): (r: seq<CountryShare>)
    requires forall k :: 0 <= k < |cs| ==> cs[k] in CountryColumn(t)
    ensures |r| == |cs|
    ensures forall k :: 0 <= k < |cs| ==> r[k] == ShareOf(t, cs[k], selected) && r[k].country == cs[k]
    ensures NoDuplicates(cs) ==> NoDuplicates(r)
  {
    seq(|cs|, k requires 0 <= k < |cs| => ShareOf(t, cs[k], selected))
  }

  /** Every country with a city in the selected category has a share. */
  lemma MatchingSharesComplete(t: seq<CityRow>, selected: string, i: int)
    requires 0 <= i < |t| && t[i].category == Some(selected)
    ensures exists k :: 0 <= k < |MatchingShares(t, selected)| && MatchingShares(t, selected)[k].country == t[i].country
  {
    var m := InCategory(t, selected);
    var cs := Unique(CountryColumn(m));
    var shares := MatchingShares(t, selected);
    assert t[i] in m;
    var n :| 0 <= n < |m| && m[n] == t[i];
    assert CountryColumn(m)[n] in cs;
    var k :| 0 <= k < |cs| && cs[k] == t[i].country;
    assert shares[k].country == t[i].country;
  }

  /** `country_percentages[country_percentages.index.isin(valid_countries)]`. */
  function SharesKept(t: seq<CityRow>, stats: seq<CountryViews.CountryStat>, minCities: int, selected: string)
    : (kept: seq<CountryShare>)
    ensures forall k :: 0 <= k < |kept| ==>
      && kept[k] in MatchingShares(t, selected)
      && kept[k].country in ValidCountries(stats, minCities)
    ensures forall k :: (0 <= k < |MatchingShares(t, selected)| &&
      MatchingShares(t, selected)[k].country in ValidCountries(stats, minCities)) ==>
      MatchingShares(t, selected)[k] in kept
    ensures NoDuplicates(kept)
  {
    var valid := ValidCountries(stats, minCities);
    FilterKeepsDistinct(MatchingShares(t, selected), (s: CountryShare) => s.country in valid);
    Filter(MatchingShares(t, selected), (s: CountryShare) => s.country in valid)
  }

  /** `country_percentages`: the kept shares, largest first. */
  function CategoryShares(t: seq<CityRow>, stats: seq<CountryViews.CountryStat>, minCities: int, selected: string)
    : (r: seq<CountryShare>)
    ensures Sorted(r, PercentKey, false)
    ensures multiset(r) == multiset(SharesKept(t, stats, minCities, selected))
  {
    SortValues(SharesKept(t, stats, minCities, selected), PercentKey, false)
  }

  /** Each share is the exact percentage of a valid country's cities that
      fall in the selected category, and lies in (0, 100]. */
  lemma CategorySharesEntries(t: seq<CityRow>, stats: seq<CountryViews.CountryStat>, minCities: int, selected: string)
    ensures var r := CategoryShares(t, stats, minCities, selected);
      forall k :: 0 <= k < |r| ==>
        && r[k].country in ValidCountries(stats, minCities)
        && 0 < |OfCountry(InCategory(t, selected), r[k].country)| <= |OfCountry(t, r[k].country)|
        && r[k].percent == Percent(|OfCountry(InCategory(t, selected), r[k].country)|, |OfCountry(t, r[k].country)|)
        && 0.0 < r[k].percent <= 100.0
  {
    var shares := MatchingShares(t, selected);
    var kept := SharesKept(t, stats, minCities, selected);
    var r := CategoryShares(t, stats, minCities, selected);
    PermutationKeepsMembers(r, kept);
    forall k | 0 <= k < |r|
      ensures r[k].country in ValidCountries(stats, minCities)
      ensures 0 < |OfCountry(InCategory(t, selected), r[k].country)| <= |OfCountry(t, r[k].country)|
      ensures r[k].percent == Percent(|OfCountry(InCategory(t, selected), r[k].country)|, |OfCountry(t, r[k].country)|)
    {
      var j :| 0 <= j < |kept| && kept[j] == r[k];
      var i :| 0 <= i < |shares| && shares[i] == kept[j];
    }
  }

  /** Every valid country with a city in the selected category has a share. */
  lemma CategorySharesComplete(t: seq<CityRow>, stats: seq<CountryViews.CountryStat>, minCities: int, selected: string)
    ensures var r := CategoryShares(t, stats, minCities, selected);
      forall i :: (0 <= i < |t| && t[i].category == Some(selected) &&
        t[i].country in ValidCountries(stats, minCities)) ==>
        exists k :: 0 <= k < |r| && r[k].country == t[i].country
  {
    var shares := MatchingShares(t, selected);
    var kept := SharesKept(t, stats, minCities, selected);
    var r := CategoryShares(t, stats, minCities, selected);
    PermutationKeepsMembers(r, kept);
    forall i | 0 <= i < |t| && t[i].category == Some(selected) && t[i].country in ValidCountries(stats, minCities)
      ensures exists k :: 0 <= k < |r| && r[k].country == t[i].country
    {
      MatchingSharesComplete(t, selected, i);
      var n :| 0 <= n < |shares| && shares[n].country == t[i].country;
      assert shares[n] in kept;
      var k :| 0 <= k < |r| && r[k] == shares[n];
    }
  }

  /** A share is determined by its country. */
  lemma ShareByCountry(t: seq<CityRow>, selected: string, x: CountryShare, y: CountryShare)
    requires x in MatchingShares(t, selected) && y in MatchingShares(t, selected)
    ensures x.country == y.country ==> x == y
  {
    var shares := MatchingShares(t, selected);
    var a :| 0 <= a < |shares| && shares[a] == x;
    var b :| 0 <= b < |shares| && shares[b] == y;
  }

  /** Every row of the ranking is one of the matching shares. */
  lemma CategorySharesMatching(t: seq<CityRow>, stats: seq<CountryViews.CountryStat>, minCities: int, selected: string)
    ensures var r := CategoryShares(t, stats, minCities, selected);
      forall k :: 0 <= k < |r| ==> r[k] in MatchingShares(t, selected)
  {
    var kept := SharesKept(t, stats, minCities, selected);
    var r := CategoryShares(t, stats, minCities, selected);
    PermutationKeepsMembers(r, kept);
    forall k | 0 <= k < |r| ensures r[k] in MatchingShares(t, selected) {
      var a :| 0 <= a < |kept| && kept[a] == r[k];
    }
  }

  /** No country has two shares. */
  lemma CategorySharesDistinct(t: seq<CityRow>, stats: seq<CountryViews.CountryStat>, minCities: int, selected: string)
    ensures var r := CategoryShares(t, stats, minCities, selected);
      forall i, j :: 0 <= i < j < |r| ==> r[i].country != r[j].country
  {
    var r := CategoryShares(t, stats, minCities, selected);
    PermutationKeepsDistinct(r, SharesKept(t, stats, minCities, selected));
    CategorySharesMatching(t, stats, minCities, selected);
    forall i, j | 0 <= i < j < |r| ensures r[i].country != r[j].country {
      ShareByCountry(t, selected, r[i], r[j]);
      assert r[i] != r[j];
    }
  }
}
