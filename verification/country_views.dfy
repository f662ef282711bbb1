/** The views grouped by country or hemisphere: the per-country AQI table
    with its search fallback, the threshold split, and the hemisphere and
    east/west comparisons. None of them changes the table. */
module CountryViews {
  import opened Rows
  import opened Stats
  import opened Series
  import Text

  /** A row of `groupby('Country')['AQI Value'].agg(['count', 'mean', 'min', 'max'])`. */
  datatype CountryStat = CountryStat(country: string, summary: AqiSummary)

  /** The statistics of one country that has rows. */
  function StatOf(t: seq<CityRow>, c: string): (s: CountryStat)
    requires c in CountryColumn(t)
    ensures s.country == c && s.summary.count == |OfCountry(t, c)|
    ensures s.summary.min <= s.summary.mean <= s.summary.max
    ensures |OfCountry(t, c)| > 0 && s.summary == Summarize(AqiColumn(OfCountry(t, c)))
  {
    OfCountryNonEmpty(t, c);
    CountryStat(c, Summarize(AqiColumn(OfCountry(t, c))))
  }

  function MeanKey(s: CountryStat): (r: real)
  {
    s.summary.mean
  }

  /** The group-by table: one row per country present, with its statistics. */
  function GroupByCountry(t: seq<CityRow>): (g: seq<CountryStat>)
    ensures forall k :: 0 <= k < |g| ==> g[k].country in CountryColumn(t) && g[k] == StatOf(t, g[k].country)
    ensures forall i :: 0 <= i < |t| ==> StatOf(t, t[i].country) in g
    ensures NoDuplicates(g)
  {
    var cs := Unique(CountryColumn(t));
    var g := seq(|cs|, k requires 0 <= k < |cs| => StatOf(t, cs[k]));
    GroupedEntries(t, cs, g);
    GroupedDistinct(t, cs, g);
    GroupedComplete(t, cs, g);
    g
  }

  /** The statistics listed for some countries of the table: each entry is
      its country's statistics. */
  lemma GroupedEntries(t: seq<CityRow>, cs: seq<string>, g: seq<CountryStat>)
    requires forall k :: 0 <= k < |cs| ==> cs[k] in CountryColumn(t)
    requires |g| == |cs| && forall k :: 0 <= k < |cs| ==> g[k] == StatOf(t, cs[k])
    ensures forall k :: 0 <= k < |g| ==> g[k].country in CountryColumn(t) && g[k] == StatOf(t, g[k].country)
  {
    forall k | 0 <= k < |g| ensures g[k].country in CountryColumn(t) && g[k] == StatOf(t, g[k].country) {
      assert g[k].country == cs[k];
    }
  }

  /** Distinct countries give distinct entries. */
  lemma GroupedDistinct(t: seq<CityRow>, cs: seq<string>, g: seq<CountryStat>)
    requires forall k :: 0 <= k < |cs| ==> cs[k] in CountryColumn(t)
    requires |g| == |cs| && forall k :: 0 <= k < |cs| ==> g[k] == StatOf(t, cs[k])
    requires NoDuplicates(cs)
    ensures NoDuplicates(g)
  {
    forall i, j | 0 <= i < j < |g| ensures g[i] != g[j] {
      assert g[i].country == cs[i] && g[j].country == cs[j];
    }
  }

  /** Listing every country of the table lists every country's statistics. */
  lemma GroupedComplete(t: seq<CityRow>, cs: seq<string>, g: seq<CountryStat>)
    requires forall k :: 0 <= k < |cs| ==> cs[k] in CountryColumn(t)
    requires |g| == |cs| && forall k :: 0 <= k < |cs| ==> g[k] == StatOf(t, cs[k])
    requires forall i :: 0 <= i < |t| ==> t[i].country in cs
    ensures forall i :: 0 <= i < |t| ==> StatOf(t, t[i].country) in g
  {
    forall i | 0 <= i < |t| ensures StatOf(t, t[i].country) in g {
      var k :| 0 <= k < |cs| && cs[k] == t[i].country;
      assert g[k] == StatOf(t, t[i].country);
    }
  }

  /** The group-by rows of the countries with at least minCities rows. */
  function Qualifying(t: seq<CityRow>, minCities: int): (kept: seq<CountryStat>)
    ensures forall k :: 0 <= k < |kept| ==>
      && kept[k].country in CountryColumn(t)
      && kept[k] == StatOf(t, kept[k].country)
      && kept[k].summary.count >= minCities
    ensures forall i :: 0 <= i < |t| && |OfCountry(t, t[i].country)| >= minCities ==>
      StatOf(t, t[i].country) in kept
    ensures NoDuplicates(kept)
  {
    var g := GroupByCountry(t);
    var kept := Filter(g, (s: CountryStat) => s.summary.count >= minCities);
    assert NoDuplicates(kept) by {
      FilterKeepsDistinct(g, (s: CountryStat) => s.summary.count >= minCities);
    }
    kept
  }

  /** Any selection of qualifying group-by rows carries their statistics. */
  lemma QualifyingMembers(t: seq<CityRow>, minCities: int, r: seq<CountryStat>)
    requires forall k :: 0 <= k < |r| ==> r[k] in Qualifying(t, minCities)
    ensures forall k :: 0 <= k < |r| ==>
      && r[k].country in CountryColumn(t)
      && r[k] == StatOf(t, r[k].country)
      && r[k].summary.count == |OfCountry(t, r[k].country)| >= minCities
      && r[k].summary.min <= r[k].summary.mean <= r[k].summary.max
  {
    var kept := Qualifying(t, minCities);
    forall k | 0 <= k < |r|
      ensures && r[k].country in CountryColumn(t)
              && r[k] == StatOf(t, r[k].country)
              && r[k].summary.count == |OfCountry(t, r[k].country)| >= minCities
    {
      var j :| 0 <= j < |kept| && kept[j] == r[k];
    }
  }

  /** `country_stats`: the countries with at least minCities rows, sorted by
      ascending mean AQI. Each row holds the count, exact mean, min and max
      of that country's AQI values; every country with enough rows is listed
      once. */
  function CountryStats(t: seq<CityRow>, minCities: int): (r: seq<CountryStat>)
    ensures Sorted(r, MeanKey, true)
    ensures multiset(r) == multiset(Qualifying(t, minCities))
  {
    SortValues(Qualifying(t, minCities), MeanKey, true)
  }

  /** Each row of `country_stats` is the statistics of a country with at
      least minCities rows. */
  lemma CountryStatsEntries(t: seq<CityRow>, minCities: int)
    ensures var r := CountryStats(t, minCities);
      forall k :: 0 <= k < |r| ==>
        && r[k].country in CountryColumn(t)
        && r[k] == StatOf(t, r[k].country)
        && r[k].summary.count == |OfCountry(t, r[k].country)| >= minCities
        && r[k].summary.min <= r[k].summary.mean <= r[k].summary.max
  {
    var r := CountryStats(t, minCities);
    PermutationKeepsMembers(r, Qualifying(t, minCities));
    QualifyingMembers(t, minCities, r);
  }

  /** Every country with at least minCities rows is listed in `country_stats`. */
  lemma CountryStatsComplete(t: seq<CityRow>, minCities: int)
    ensures var r := CountryStats(t, minCities);
      forall i :: 0 <= i < |t| && |OfCountry(t, t[i].country)| >= minCities ==>
        exists k :: 0 <= k < |r| && r[k].country == t[i].country
  {
    var kept := Qualifying(t, minCities);
    var r := CountryStats(t, minCities);
    PermutationKeepsMembers(r, kept);
    forall i | 0 <= i < |t| && |OfCountry(t, t[i].country)| >= minCities
      ensures exists k :: 0 <= k < |r| && r[k].country == t[i].country
    {
      var s := StatOf(t, t[i].country);
      assert s in kept;
      var k :| 0 <= k < |r| && r[k] == s;
    }
  }

  /** No country is listed twice in `country_stats`. */
  lemma CountryStatsDistinct(t: seq<CityRow>, minCities: int)
    ensures var r := CountryStats(t, minCities);
      forall i, j :: 0 <= i < j < |r| ==> r[i].country != r[j].country
  {
    var kept := Qualifying(t, minCities);
    var r := CountryStats(t, minCities);
    PermutationKeepsDistinct(r, kept);
    PermutationKeepsMembers(r, kept);
    forall i, j | 0 <= i < j < |r| ensures r[i].country != r[j].country {
      var a :| 0 <= a < |kept| && kept[a] == r[i];
      var b :| 0 <= b < |kept| && kept[b] == r[j];
      assert r[i] != r[j];
    }
  }

  /** What the dashboard shows for a search: the table, the rows it matches,
      and whether the "no countries found" warning is raised. */
  datatype Display = Display(stats: seq<CountryStat>, noMatch: bool)

  /** `country_stats.index.str.contains(search, case=False)` for one row. */
  predicate MatchesSearch(s: CountryStat, search: string)
  {
    Text.ContainsIgnoringCase(s.country, search)
  }

  /** The rows of the table the search text matches, in table order. */
  function SearchMatches(stats: seq<CountryStat>, search: string): (r: seq<CountryStat>)
  {
    Filter(stats, (s: CountryStat) => MatchesSearch(s, search))
  }

  /** The matches are exactly the matching rows, none more often than in the
      table, in the table's order by mean. There are none exactly when no
      row matches. */
  lemma SearchMatchesFacts(stats: seq<CountryStat>, search: string)
    ensures SearchMatches(stats, search) == [] <==> forall k :: 0 <= k < |stats| ==> !MatchesSearch(stats[k], search)
    ensures forall x :: x in SearchMatches(stats, search) <==> x in stats && MatchesSearch(x, search)
    ensures Sorted(stats, MeanKey, true) ==> Sorted(SearchMatches(stats, search), MeanKey, true)
    ensures multiset(SearchMatches(stats, search)) <= multiset(stats)
    ensures NoDuplicates(stats) ==> NoDuplicates(SearchMatches(stats, search))
  {
    FilterKeepsOrder(stats, (s: CountryStat) => MatchesSearch(s, search), MeanKey, true);
    FilterKeepsDistinct(stats, (s: CountryStat) => MatchesSearch(s, search));
    FilterSubMultiset(stats, (s: CountryStat) => MatchesSearch(s, search));
    var m := SearchMatches(stats, search);
    if m != [] {
      assert m[0] in stats;
    }
  }

  /** `display_stats`: with an empty search, the whole table; otherwise the
      rows whose country contains the search text, keeping their order, or
      the whole table with a warning when no row matches. The result is empty
      only when the table is. */
  function DisplayStats(stats: seq<CountryStat>, search: string): (d: Display)
    ensures d.noMatch <==> search != "" && forall k :: 0 <= k < |stats| ==> !MatchesSearch(stats[k], search)
    ensures (search == "" || d.noMatch) ==> d.stats == stats
    ensures search != "" && !d.noMatch ==>
      && (forall k :: 0 <= k < |d.stats| ==> d.stats[k] in stats && MatchesSearch(d.stats[k], search))
      && (forall k :: 0 <= k < |stats| && MatchesSearch(stats[k], search) ==> stats[k] in d.stats)
    ensures d.stats == [] <==> stats == []
    ensures Sorted(stats, MeanKey, true) ==> Sorted(d.stats, MeanKey, true)
    ensures multiset(d.stats) <= multiset(stats)
    ensures NoDuplicates(stats) ==> NoDuplicates(d.stats)
  {
    if search == "" then Display(stats, false)
    else
      var matching := SearchMatches(stats, search);
      SearchMatchesFacts(stats, search);
      if matching == [] then Display(stats, true) else Display(matching, false)
  }

  /** A row of `value_counts()` over the Country column. */
  datatype CountryCount = CountryCount(country: string, count: nat)

  function CountKey(e: CountryCount): (r: real)
  {
    e.count as real
  }

  /** One entry per country of t, in order of first appearance, with its
      number of rows. */
  function CountryCounts(t: seq<CityRow>): (counts: seq<CountryCount>)
    ensures forall k :: 0 <= k < |counts| ==>
      counts[k].country in CountryColumn(t) && counts[k].count == |OfCountry(t, counts[k].country)| > 0
    ensures forall i :: 0 <= i < |t| ==> CountryCount(t[i].country, |OfCountry(t, t[i].country)|) in counts
    ensures NoDuplicates(counts)
  {
    var cs := Unique(CountryColumn(t));
    var counts := seq(|cs|, k requires 0 <= k < |cs| => CountryCount(cs[k], |OfCountry(t, cs[k])|));
    CountedEntries(t, cs, counts);
    CountedComplete(t, cs, counts);
    counts
  }

  /** Counts listed for distinct countries of the table: each is its
      country's positive number of rows, and none appears twice. */
  lemma CountedEntries(t: seq<CityRow>, cs: seq<string>, counts: seq<CountryCount>)
    requires forall k :: 0 <= k < |cs| ==> cs[k] in CountryColumn(t)
    requires |counts| == |cs| && forall k :: 0 <= k < |cs| ==> counts[k] == CountryCount(cs[k], |OfCountry(t, cs[k])|)
    requires NoDuplicates(cs)
    ensures forall k :: 0 <= k < |counts| ==>
      counts[k].country in CountryColumn(t) && counts[k].count == |OfCountry(t, counts[k].country)| > 0
    ensures NoDuplicates(counts)
  {
    forall k | 0 <= k < |counts|
      ensures counts[k].country in CountryColumn(t) && counts[k].count == |OfCountry(t, counts[k].country)| > 0
    {
      OfCountryNonEmpty(t, cs[k]);
    }
    forall i, j | 0 <= i < j < |counts| ensures counts[i] != counts[j] {
      assert counts[i].country == cs[i] && counts[j].country == cs[j];
    }
  }

  /** Listing every country of the table lists every country's count. */
  lemma CountedComplete(t: seq<CityRow>, cs: seq<string>, counts: seq<CountryCount>)
    requires |counts| == |cs| && forall k :: 0 <= k < |cs| ==> counts[k] == CountryCount(cs[k], |OfCountry(t, cs[k])|)
    requires forall i :: 0 <= i < |CountryColumn(t)| ==> CountryColumn(t)[i] in cs
    ensures forall i :: 0 <= i < |t| ==> CountryCount(t[i].country, |OfCountry(t, t[i].country)|) in counts
  {
    forall i | 0 <= i < |t| ensures CountryCount(t[i].country, |OfCountry(t, t[i].country)|) in counts {
      assert CountryColumn(t)[i] in cs;
      var k :| 0 <= k < |cs| && cs[k] == t[i].country;
      assert counts[k] == CountryCount(t[i].country, |OfCountry(t, t[i].country)|);
    }
  }

  /** `value_counts()` over the Country column: the per-country counts,
      largest count first. */
  function ValueCounts(t: seq<CityRow>): (r: seq<CountryCount>)
    ensures Sorted(r, CountKey, false)
    ensures multiset(r) == multiset(CountryCounts(t))
  {
    SortValues(CountryCounts(t), CountKey, false)
  }

  /** The entries of `value_counts()`: each country present is listed once
      with its number of rows. */
  lemma ValueCountsRows(t: seq<CityRow>)
    ensures var r := ValueCounts(t);
      && (forall k :: 0 <= k < |r| ==>
        r[k].country in CountryColumn(t) && r[k].count == |OfCountry(t, r[k].country)| > 0)
      && (forall i :: 0 <= i < |t| ==> CountryCount(t[i].country, |OfCountry(t, t[i].country)|) in r)
      && (forall i, j :: 0 <= i < j < |r| ==> r[i].country != r[j].country)
  {
    var counts := CountryCounts(t);
    var r := ValueCounts(t);
    PermutationKeepsMembers(r, counts);
    PermutationKeepsDistinct(r, counts);
    forall i, j | 0 <= i < j < |r| ensures r[i].country != r[j].country {
      assert r[i] in counts && r[j] in counts;
    }
  }

  /** `counts[counts >= min_cities]`. */
  function AtLeast(counts: seq<CountryCount>, minCities: int): (r: seq<CountryCount>)
    ensures forall k :: 0 <= k < |r| ==> r[k] in counts && r[k].count >= minCities
    ensures forall k :: 0 <= k < |counts| && counts[k].count >= minCities ==> counts[k] in r
    ensures Sorted(counts, CountKey, false) ==> Sorted(r, CountKey, false)
  {
    FilterKeepsOrder(counts, (e: CountryCount) => e.count >= minCities, CountKey, false);
    Filter(counts, (e: CountryCount) => e.count >= minCities)
  }

  /** `value_counts()` of a selection of rows, keeping the countries with at
      least minCities of them, largest first: each such country once, with
      its number of selected rows. */
  function FrequentCountries(rows: seq<CityRow>, minCities: int): (r: seq<CountryCount>)
    ensures Sorted(r, CountKey, false)
    ensures forall k :: 0 <= k < |r| ==>
      r[k].country in CountryColumn(rows) && r[k].count == |OfCountry(rows, r[k].country)| >= minCities
    ensures forall i :: 0 <= i < |rows| && |OfCountry(rows, rows[i].country)| >= minCities ==>
      CountryCount(rows[i].country, |OfCountry(rows, rows[i].country)|) in r
  {
    ValueCountsRows(rows);
    AtLeast(ValueCounts(rows), minCities)
  }

  /** `below`: the countries with at least minCities rows strictly below the
      threshold, with that number, largest first. */
  function BelowThreshold(t: seq<CityRow>, threshold: real, minCities: int): (r: seq<CountryCount>)
  {
    FrequentCountries(AqiBelow(t, threshold), minCities)
  }

  /** `above`: the same for rows strictly above the threshold. */
  function AboveThreshold(t: seq<CityRow>, threshold: real, minCities: int): (r: seq<CountryCount>)
  {
    FrequentCountries(AqiAbove(t, threshold), minCities)
  }

  /** Each country is listed at most once. */
  lemma FrequentCountriesDistinct(rows: seq<CityRow>, minCities: int)
    ensures var r := FrequentCountries(rows, minCities);
      forall i, j :: 0 <= i < j < |r| ==> r[i].country != r[j].country
  {
    var counts := ValueCounts(rows);
    var keep := (e: CountryCount) => e.count >= minCities;
    ValueCountsRows(rows);
    assert NoDuplicates(counts) by {
      forall i, j | 0 <= i < j < |counts|
        ensures counts[i] != counts[j]
      {
        assert counts[i].country != counts[j].country;
      }
    }
    FilterKeepsDistinct(counts, keep);
    var r := FrequentCountries(rows, minCities);
    assert r == Filter(counts, keep);
    forall i, j | 0 <= i < j < |r|
      ensures r[i].country != r[j].country
    {
      assert r[i] != r[j];
    }
  }

  /** Per country, the rows below, above and exactly at the threshold add up
      to all its rows: a row at the threshold is counted by neither split, so
      below + above never exceeds the country's total. */
  lemma {:induction false} ThresholdSplit(t: seq<CityRow>, threshold: real, c: string)
    ensures |OfCountry(AqiBelow(t, threshold), c)| + |OfCountry(AqiAbove(t, threshold), c)|
          + |OfCountry(AqiAt(t, threshold), c)| == |OfCountry(t, c)|
    ensures |OfCountry(AqiBelow(t, threshold), c)| + |OfCountry(AqiAbove(t, threshold), c)| <= |OfCountry(t, c)|
  {
    if t != [] {
      var rest := t[1..];
      ThresholdSplit(rest, threshold, c);
      var x := t[0];
      var b := if x.aqi < threshold then [x] else [];
      var a := if x.aqi > threshold then [x] else [];
      var e := if x.aqi == threshold then [x] else [];
      assert AqiBelow(t, threshold) == b + AqiBelow(rest, threshold);
      assert AqiAbove(t, threshold) == a + AqiAbove(rest, threshold);
      assert AqiAt(t, threshold) == e + AqiAt(rest, threshold);
      OfCountryAppend(b, AqiBelow(rest, threshold), c);
      OfCountryAppend(a, AqiAbove(rest, threshold), c);
      OfCountryAppend(e, AqiAt(rest, threshold), c);
      assert |OfCountry([x], c)| == if x.country == c then 1 else 0;
      assert |OfCountry([], c)| == 0;
    }
  }

  /** A row of the hemisphere or east/west comparison. */
  datatype GroupStat<K> = GroupStat(group: K, summary: AqiSummary)

  /** `groupby` over a two-valued key, without the standard deviation: a
      row for each key that has rows, the first key first. The counts of the
      rows add up to the number of rows grouped. */
  function TwoGroups<K>(a: K, first: seq<CityRow>, b: K, second: seq<CityRow>): (r: seq<GroupStat<K>>)
    ensures |r| == (if first != [] then 1 else 0) + (if second != [] then 1 else 0)
    ensures first != [] ==> r[0] == GroupStat(a, Summarize(AqiColumn(first)))
    ensures second != [] ==> r[|r| - 1] == GroupStat(b, Summarize(AqiColumn(second)))
    ensures forall k :: 0 <= k < |r| ==> r[k].summary.min <= r[k].summary.mean <= r[k].summary.max
    ensures |r| == 2 ==> r[0].summary.count + r[1].summary.count == |first| + |second|
    ensures |r| == 1 ==> r[0].summary.count == |first| + |second|
  {
    if first == [] && second == [] then []
    else if second == [] then [GroupStat(a, Summarize(AqiColumn(first)))]
    else if first == [] then [GroupStat(b, Summarize(AqiColumn(second)))]
    else [GroupStat(a, Summarize(AqiColumn(first))), GroupStat(b, Summarize(AqiColumn(second)))]
  }

  /** The two hemispheres split the table. */
  lemma {:induction false} HemispheresPartition(t: seq<CityRow>)
    ensures |InHemisphere(t, Northern)| + |InHemisphere(t, Southern)| == |t|
  {
    if t != [] {
      HemispheresPartition(t[1..]);
    }
  }

  /** The two sides split the table. */
  lemma {:induction false} SidesPartition(t: seq<CityRow>)
    ensures |OnSide(t, Eastern)| + |OnSide(t, Western)| == |t|
  {
    if t != [] {
      SidesPartition(t[1..]);
    }
  }

  /** `groupby('Hemisphere')['AQI Value'].agg(...)`. */
  function HemisphereStats(t: seq<CityRow>): (r: seq<GroupStat<Hemisphere>>)
  {
    TwoGroups(Northern, InHemisphere(t, Northern), Southern, InHemisphere(t, Southern))
  }

  /** `groupby('East_West')['AQI Value'].agg(...)`. */
  function EastWestStats(t: seq<CityRow>): (r: seq<GroupStat<EastWest>>)
  {
    TwoGroups(Eastern, OnSide(t, Eastern), Western, OnSide(t, Western))
  }

  /** Every city is counted in exactly one hemisphere row, and a non-empty
      table has at least one row. */
  lemma HemisphereStatsCover(t: seq<CityRow>)
    ensures var r := HemisphereStats(t);
      && (t != [] <==> |r| >= 1)
      && (|r| == 2 ==> r[0].summary.count + r[1].summary.count == |t|)
      && (|r| == 1 ==> r[0].summary.count == |t|)
  {
    HemispheresPartition(t);
  }

  /** Every city is counted in exactly one east/west row. */
  lemma EastWestStatsCover(t: seq<CityRow>)
    ensures var r := EastWestStats(t);
      && (t != [] <==> |r| >= 1)
      && (|r| == 2 ==> r[0].summary.count + r[1].summary.count == |t|)
      && (|r| == 1 ==> r[0].summary.count == |t|)
  {
    SidesPartition(t);
  }

  /** The mean AQI of a group, or None (pandas' NaN) when the group is empty. */
  function MeanOrNone(rows: seq<CityRow>): (m: Option<real>)
    ensures m.Some? <==> rows != []
    ensures m.Some? ==> m.value == Mean(AqiColumn(rows))
  {
    if rows == [] then None else Some(Mean(AqiColumn(rows)))
  }

  /** `calculate_hemisphere_stats`: the Northern and Southern mean AQI. */
  function HemisphereMeans(t: seq<CityRow>): (r: (Option<real>, Option<real>))
    ensures r.0.Some? <==> InHemisphere(t, Northern) != []
    ensures r.1.Some? <==> InHemisphere(t, Southern) != []
  {
    (MeanOrNone(InHemisphere(t, Northern)), MeanOrNone(InHemisphere(t, Southern)))
  }

  /** The two means agree with the Average column of the hemisphere table. */
  lemma HemisphereMeansAgree(t: seq<CityRow>)
    ensures forall k :: 0 <= k < |HemisphereStats(t)| ==>
      var s := HemisphereStats(t)[k];
      (if s.group == Northern then HemisphereMeans(t).0 else HemisphereMeans(t).1) == Some(s.summary.mean)
  {
    var north, south := InHemisphere(t, Northern), InHemisphere(t, Southern);
    var r := HemisphereStats(t);
    forall k | 0 <= k < |r|
      ensures (if r[k].group == Northern then HemisphereMeans(t).0 else HemisphereMeans(t).1) == Some(r[k].summary.mean)
    {
      if north != [] && (k == 0 || south == []) {
        assert r[k] == GroupStat(Northern, Summarize(AqiColumn(north)));
      } else {
        assert r[k] == GroupStat(Southern, Summarize(AqiColumn(south)));
      }
    }
  }
}
