# Global air-quality dashboard — a verified model

The dashboard reads a table of cities, one row each, with a country, an AQI
value, coordinates and a PM2.5 AQI category. It cleans the table once. It
then shows several views of it:

- per-country AQI statistics, with a country search;
- the countries with many cities below and above an AQI threshold;
- Northern/Southern and Eastern/Western comparisons;
- a country × PM2.5-category pivot;
- the countries ranked by the share of their cities in a selected category;
- a map coloured and sized by AQI;
- the mean AQI of each hemisphere.

This project models that core in Dafny and proves what each step promises.
The modules follow the script's structure:

- `Rows`: the raw and the cleaned row, the columns, and the boolean masks the views select rows with.
- `Stats`: count, sum, minimum, maximum and mean of a group. `Summarize` is one row of `agg(['count', 'mean', 'min', 'max'])`.
- `Series`: the pandas operations the views share:
  - `unique`;
  - a boolean mask;
  - `sort_values`, specified as sorted and a permutation;
  - `head(n)`.
- `Text`: `str.strip`, `str.title`, and case-insensitive substring search.
- `Normalize`: `load_data`, as the imperative method `LoadData`, proved against the specification function `Normalized`. `LoadData` does four things:
  - drops unparsable rows;
  - shortens three country names;
  - writes `Location_Info` into an array for the first 100 rows only;
  - derives `Hemisphere` and `East_West`.
- `CountryViews`: the views that read the table as loaded:
  - `country_stats`, with its minimum-city filter and ascending mean;
  - the search fallback `display_stats`;
  - the `below`/`above` threshold counts;
  - the two hemisphere group-bys (without the standard deviation);
  - `calculate_hemisphere_stats`.
- `CategoryViews`: the views that read the table after its category column is normalised in place: the normalisation itself, the pivot and its `Total` ordering, and the category percentages.
- `Classify`: `get_color`, the point radius and the map points.
- `Page`: the script top to bottom, as a method. It reassigns the table when the category column is overwritten, exactly where the script does, and it stops where the script raises: at the category overwrite when a non-empty file has no category text, and after the pivot when the category select box cannot be sorted.
- `Scenarios`: small worked examples.

Behaviour of the code that is easy to misread:

- A missing PM2.5 category is not a bucket of its own. `pivot_table` drops rows whose category is missing (`Rows.Categorised`).
- A non-empty file whose PM2.5 category cells are all empty stops the page at line 170. `read_csv` gives that column a float type, and `.str.strip()` raises an AttributeError. Everything before the category section is shown; the pivot, the percentage ranking, the map and the hemisphere means are not computed. `Normalize.NoTextCategories` states when this happens, and `Page.Dashboard.pivotTop` is `None` exactly then.
- A table that mixes missing and present PM2.5 categories stops the page at line 214. The select box's options are `sorted(...unique().tolist())`, and Python raises a TypeError when it compares NaN with a label. The pivot and everything before it is shown; the percentage ranking, the map and the hemisphere means are not computed. `CategoryViews.UnsortableCategories` states when this happens. `Page.Dashboard.filtered` is `None` exactly when either abort happens. When the page does go on, either no category is missing or none is present; in the second case no row equals the selected category (`Rows.InCategory`).
- A hemisphere group-by lists only the groups that have rows, so it has at most two rows, none for an empty table, not always two (`CountryViews.TwoGroups`).
- The category column is trimmed and title-cased after the hemisphere views, not while the table is loaded. The model does it at that point, as a reassignment in `Page.CategoryStage`, after the check for a file without category text. No earlier view reads the category, so the order does not change their results.
- A country with no city in the selected category is absent from the percentage ranking. It never gets 0: the division aligns two `value_counts` series and `dropna` removes the country.
- The search over the country table computes `display_stats`, but the table rendered is `country_stats`. The model computes both and renders `country_stats` (`Page.Dashboard.rendered`). The search changes only `display` and the no-match warning flag.

## Model

| member | source | states |
|---|---|---|
| Rows.OfCountry | FFINAL_PROJECT.py:89 | the rows of one country are exactly the table's rows with that country |
| Rows.OfCountryNonEmpty | FFINAL_PROJECT.py:89 | a country has rows exactly when it appears in the Country column |
| Rows.OfCountryCounts | FFINAL_PROJECT.py:89 | the selection holds each row of the country as often as the table does, and no other row |
| Rows.AqiBelow | FFINAL_PROJECT.py:116 | the selected rows are exactly those with AQI strictly below the threshold |
| Rows.AqiAbove | FFINAL_PROJECT.py:129 | the selected rows are exactly those with AQI strictly above the threshold |
| Rows.AqiAt | FFINAL_PROJECT.py:116-129 | the rows at the threshold, which neither split selects |
| Rows.InHemisphere | FFINAL_PROJECT.py:292-293 | the selected rows are exactly those of the given hemisphere |
| Rows.OnSide | FFINAL_PROJECT.py:155 | the selected rows are exactly those east (or west) of the meridian |
| Rows.InCategory | FFINAL_PROJECT.py:222 | the selected rows are exactly those whose category is present and equals the selected one |
| Rows.Categorised | FFINAL_PROJECT.py:173-180 | the rows the pivot counts are exactly those with a present category |
| Rows.CategoryColumn | FFINAL_PROJECT.py:176 | a label is a pivot column exactly when some row carries it |
| Stats.Minimum | FFINAL_PROJECT.py:89 | the minimum occurs in the group and bounds every value from below |
| Stats.Maximum | FFINAL_PROJECT.py:89 | the maximum occurs in the group and bounds every value from above |
| Stats.Mean | FFINAL_PROJECT.py:89 | the mean times the count gives back the sum |
| Stats.MeanBetween | FFINAL_PROJECT.py:89 | the mean of a non-empty group lies between its minimum and maximum |
| Stats.Summarize | FFINAL_PROJECT.py:89 | count is the group size, mean the exact mean, min/max attained and bounding, min ≤ mean ≤ max |
| Series.Unique | FFINAL_PROJECT.py:89 | every value appears exactly once and nothing else appears; it gives the group-by keys here and the pivot columns at line 176 |
| Series.SortValues | FFINAL_PROJECT.py:90 | the result is sorted by the key in the given direction and is a permutation of the input |
| Series.Filter | FFINAL_PROJECT.py:90 | a mask keeps exactly the elements that pass it |
| Series.FilterKeepsOrder | FFINAL_PROJECT.py:119 | masking a sorted series leaves it sorted |
| Series.FilterKeepsDistinct | FFINAL_PROJECT.py:90 | masking never introduces duplicates |
| Series.FilterSubMultiset | FFINAL_PROJECT.py:97 | a mask keeps each element at most as often as the series holds it |
| Series.PermutationKeepsDistinct | FFINAL_PROJECT.py:90 | sorting a series without duplicates leaves none |
| Series.Head | FFINAL_PROJECT.py:124 | `head(n)` is the prefix of length min(n, size) |
| Series.HeadKeeps | FFINAL_PROJECT.py:189 | `head(n)` of a sorted, duplicate-free series is sorted and duplicate-free |
| Text.TrimStart | FFINAL_PROJECT.py:170 | only leading whitespace is removed, and all of it |
| Text.TrimEnd | FFINAL_PROJECT.py:170 | only trailing whitespace is removed, and all of it |
| Text.Strip | FFINAL_PROJECT.py:170 | the result is a slice of the input with only whitespace cut on both sides and no whitespace at either end |
| Text.TitleFromKeepsKinds | FFINAL_PROJECT.py:170 | title-casing changes only letters, and letters stay letters |
| Text.TitleFromIdempotent | FFINAL_PROJECT.py:170 | title-casing twice is title-casing once |
| Text.NormalizeLabel | FFINAL_PROJECT.py:170 | the normalised label is never longer than the raw one |
| Text.NormalizeLabelIdempotent | FFINAL_PROJECT.py:170 | strip-then-title applied twice equals applied once |
| Text.LowerCase | FFINAL_PROJECT.py:97 | every character is lower-cased, length kept |
| Text.Contains | FFINAL_PROJECT.py:97 | true exactly when the needle occurs at some position |
| Normalize.DropMissing | FFINAL_PROJECT.py:56-59 | every kept row has all three numbers and comes from the input; every complete input row is kept |
| Normalize.DropMissingPosition | FFINAL_PROJECT.py:59 | a complete input row lands, unchanged, at the position given by the complete rows before it |
| Normalize.DropMissingOrder | FFINAL_PROJECT.py:59 | complete rows keep their relative order |
| Normalize.DropMissingSource | FFINAL_PROJECT.py:59 | every kept row is some complete input row at its position |
| Normalize.MapCountry | FFINAL_PROJECT.py:62-67 | the three long names become UK, USA and Russia; any other name is kept; no result is remapped again |
| Normalize.LocationLabel | FFINAL_PROJECT.py:72 | the label is the city, then " (", then the country, then ")" |
| Normalize.LoadData | FFINAL_PROJECT.py:51-78 | the array loop produces `Normalized(raw)`: Location_Info is the label on the first 100 rows and empty after, one row per complete input row, no long country name left |
| Normalize.NormalizedRow | FFINAL_PROJECT.py:51-78 | each complete input row becomes one table row with the same city, numbers and category, the remapped country, its label iff among the first 100, and flags that follow the signs of lat and lng |
| Normalize.NormalizedSource | FFINAL_PROJECT.py:59 | every table row comes from a complete input row |
| Normalize.NormalizedOrder | FFINAL_PROJECT.py:59-71 | the table keeps the input order of complete rows |
| Normalize.LocationInfoPrefix | FFINAL_PROJECT.py:70-72 | Location_Info is non-empty exactly on the first 100 rows |
| Normalize.NoTextLoadsUncategorised | FFINAL_PROJECT.py:51-59 | a non-empty file with no category text loads a table in which no row has a category |
| Normalize.FlagsFollowSigns | FFINAL_PROJECT.py:75-76 | Northern iff lat ≥ 0, Southern iff lat < 0, Eastern iff lng ≥ 0, Western iff lng < 0 |
| CountryViews.StatOf | FFINAL_PROJECT.py:89 | a country's statistics are the summary of its rows' AQI values: their count, exact mean, minimum and maximum |
| CountryViews.GroupByCountry | FFINAL_PROJECT.py:89 | one entry per country present, each its statistics, none twice |
| CountryViews.GroupedEntries | FFINAL_PROJECT.py:89 | an entry listed for a country of the table is that country's statistics |
| CountryViews.GroupedComplete | FFINAL_PROJECT.py:89 | listing every country of the table lists every country's statistics |
| CountryViews.Qualifying | FFINAL_PROJECT.py:90 | exactly the countries with at least `min_cities` rows, each once, with their statistics |
| CountryViews.QualifyingMembers | FFINAL_PROJECT.py:90 | any entry of the qualifying table is a country's statistics with count = its rows ≥ `min_cities` |
| CountryViews.CountryStats | FFINAL_PROJECT.py:89-90 | `country_stats` is sorted by ascending mean and is a permutation of the qualifying countries |
| CountryViews.CountryStatsEntries | FFINAL_PROJECT.py:89-90 | every row of `country_stats` is a present country's exact statistics with at least `min_cities` cities |
| CountryViews.CountryStatsComplete | FFINAL_PROJECT.py:89-90 | every country with at least `min_cities` cities is listed |
| CountryViews.CountryStatsDistinct | FFINAL_PROJECT.py:89-90 | no country is listed twice |
| CountryViews.SearchMatchesFacts | FFINAL_PROJECT.py:97 | the matches are exactly the matching rows, none more often than in the table, sorted by mean when the table is, and empty exactly when no row matches |
| CountryViews.DisplayStats | FFINAL_PROJECT.py:95-102 | no search: the whole table; a search with matches: exactly the matching rows, each at most as often as in the table (once each when the table has no duplicates), still sorted by mean; a search without matches: the whole table and the warning flag, which is raised exactly then |
| CountryViews.CountryCounts | FFINAL_PROJECT.py:116 | one entry per country present with its number of rows (> 0), none twice |
| CountryViews.CountedEntries | FFINAL_PROJECT.py:116 | counts listed for distinct countries of the table are their positive row counts, none twice |
| CountryViews.CountedComplete | FFINAL_PROJECT.py:116 | listing every country of the table lists every country's count |
| CountryViews.ValueCounts | FFINAL_PROJECT.py:116 | `value_counts()` is sorted by descending count and a permutation of the per-country counts |
| CountryViews.ValueCountsRows | FFINAL_PROJECT.py:116 | every country present is listed once with its number of rows, and nothing else |
| CountryViews.AtLeast | FFINAL_PROJECT.py:119 | exactly the counts ≥ `min_cities` are kept, order preserved |
| CountryViews.FrequentCountries | FFINAL_PROJECT.py:116-119 | sorted descending; each entry is a selected country with its selected-row count ≥ `min_cities`; every such country is listed |
| CountryViews.FrequentCountriesDistinct | FFINAL_PROJECT.py:129-130 | each country is listed at most once |
| CountryViews.ThresholdSplit | FFINAL_PROJECT.py:116-130 | per country, rows below + above + at the threshold = all its rows, so below + above never exceeds it |
| CountryViews.TwoGroups | FFINAL_PROJECT.py:142 | one row per non-empty group, first key first, each the group's summary, counts adding up to the rows grouped |
| CountryViews.HemispheresPartition | FFINAL_PROJECT.py:142 | every row is in exactly one hemisphere |
| CountryViews.SidesPartition | FFINAL_PROJECT.py:155 | every row is exactly east or west |
| CountryViews.HemisphereStatsCover | FFINAL_PROJECT.py:142 | `hemi_stats` has a row iff the table has rows, and its counts add up to the table size |
| CountryViews.EastWestStatsCover | FFINAL_PROJECT.py:155 | `east_west_stats` has a row iff the table has rows, and its counts add up to the table size |
| CountryViews.MeanOrNone | FFINAL_PROJECT.py:292 | the mean of a selection, or none (NaN) exactly when it is empty |
| CountryViews.HemisphereMeans | FFINAL_PROJECT.py:291-294 | each hemisphere's mean is present exactly when the hemisphere has rows |
| CountryViews.HemisphereMeansAgree | FFINAL_PROJECT.py:291-294 | the two means equal the Average column of `hemi_stats` for each hemisphere listed |
| CategoryViews.NormalizeCategory | FFINAL_PROJECT.py:170 | a present category becomes Title(Strip(·)); a missing one stays missing |
| CategoryViews.NormalizeCategories | FFINAL_PROJECT.py:170 | only the category column changes, row by row |
| CategoryViews.NormalizeCategoriesIdempotent | FFINAL_PROJECT.py:170 | normalising twice is normalising once |
| CategoryViews.NormalizeKeepsCountries | FFINAL_PROJECT.py:170 | the overwrite leaves the Country column and every country's row count unchanged |
| CategoryViews.CategorisedMissing | FFINAL_PROJECT.py:214 | some row lacks a category exactly when fewer rows are categorised than the table holds |
| CategoryViews.CategorisedPresent | FFINAL_PROJECT.py:214 | some row carries a category exactly when any row is categorised |
| CategoryViews.UnsortableIffPartlyCategorised | FFINAL_PROJECT.py:214 | sorting the select box's options fails exactly when some, but not all, rows are categorised |
| CategoryViews.NormalizeKeepsUnsortable | FFINAL_PROJECT.py:170-214 | the category overwrite does not change whether that sort fails |
| CategoryViews.TotalIsSum | FFINAL_PROJECT.py:183-184 | a pivot row's Total is the same sum as `Stats.Sum` of its counts |
| CategoryViews.CountsFor | FFINAL_PROJECT.py:173-180 | a pivot row holds, per column, the number of rows in that category (0 when none) |
| CategoryViews.CountsForTotal | FFINAL_PROJECT.py:183-184 | over distinct columns covering every category, the row sum is the number of categorised rows |
| CategoryViews.PivotColumns | FFINAL_PROJECT.py:176 | the columns are the present categories, each once |
| CategoryViews.PivotRowTotal | FFINAL_PROJECT.py:183-184 | a country's Total is its number of categorised rows, all its rows when no category is missing |
| CategoryViews.PivotTable | FFINAL_PROJECT.py:173-180 | one pivot row per country with a categorised row, none twice |
| CategoryViews.PivotKept | FFINAL_PROJECT.py:183 | exactly the pivot rows whose sum is ≥ `min_cities` are kept |
| CategoryViews.CategoryPivot | FFINAL_PROJECT.py:183-185 | sorted by descending Total and a permutation of the kept rows |
| CategoryViews.CategoryPivotEntries | FFINAL_PROJECT.py:183-185 | each row is a country's category counts, with Total = its categorised rows ≥ `min_cities` |
| CategoryViews.PivotKeptEntry | FFINAL_PROJECT.py:183 | any kept row is a country's counts with Total ≥ `min_cities` |
| CategoryViews.CategoryPivotComplete | FFINAL_PROJECT.py:183-185 | every country with at least `min_cities` categorised rows is listed, once |
| CategoryViews.ValidCountries | FFINAL_PROJECT.py:220 | `valid_countries` is exactly the countries of `country_stats` with count ≥ `min_cities` |
| CategoryViews.Percent | FFINAL_PROJECT.py:223 | for a part of a positive total, the share lies in [0, 100], and is positive when the part is |
| CategoryViews.PercentRatio | FFINAL_PROJECT.py:223 | percent × total = matching × 100 |
| CategoryViews.OfCountryInCategory | FFINAL_PROJECT.py:222 | selecting the category then the country is selecting the country then the category |
| CategoryViews.InCategoryAtMost | FFINAL_PROJECT.py:222 | the category selection is never larger than the selection it is taken from |
| CategoryViews.InCategoryCountry | FFINAL_PROJECT.py:222 | every country with a selected row is a country of the table |
| CategoryViews.ShareOf | FFINAL_PROJECT.py:221-223 | a country's share is `category_counts / country_totals * 100` with matching ≤ total and total > 0 |
| CategoryViews.MatchingShares | FFINAL_PROJECT.py:222-223 | after `dropna`, exactly the countries with a selected row, each once, with their share |
| CategoryViews.MatchingCountries | FFINAL_PROJECT.py:222 | each country of `category_counts` is in the table and has a selected row |
| CategoryViews.SharesFor | FFINAL_PROJECT.py:223 | each listed country's share, in order, without duplicates when the countries have none |
| CategoryViews.MatchingSharesComplete | FFINAL_PROJECT.py:222-223 | every country with a row in the selected category gets a share |
| CategoryViews.SharesKept | FFINAL_PROJECT.py:224 | exactly the shares of valid countries are kept, each once |
| CategoryViews.CategoryShares | FFINAL_PROJECT.py:224-225 | sorted by descending percentage and a permutation of the kept shares |
| CategoryViews.CategorySharesEntries | FFINAL_PROJECT.py:220-225 | each entry is a valid country with 0 < matching ≤ total and percent = Percent(matching, total) ∈ (0, 100] |
| CategoryViews.CategorySharesComplete | FFINAL_PROJECT.py:220-225 | every valid country with a row in the selected category is listed |
| CategoryViews.ShareByCountry | FFINAL_PROJECT.py:222-223 | two matching shares of the same country are the same share |
| CategoryViews.CategorySharesMatching | FFINAL_PROJECT.py:224-225 | every ranked share is one of the matching shares |
| CategoryViews.CategorySharesDistinct | FFINAL_PROJECT.py:220-225 | no country is listed twice |
| Classify.GetColor | FFINAL_PROJECT.py:239-252 | each of the six RGB triples is returned exactly on its band (upper bounds inclusive), alpha passed through |
| Classify.BoundsExceededMonotone | FFINAL_PROJECT.py:239-252 | a higher AQI exceeds at least as many band bounds |
| Classify.GetColorByRank | FFINAL_PROJECT.py:239-252 | the colour is the palette entry indexed by the number of bounds exceeded |
| Classify.GetColorMonotone | FFINAL_PROJECT.py:239-252 | a higher AQI never gets a colour from a cleaner band |
| Classify.Radius | FFINAL_PROJECT.py:260-266 | 2000 exactly below 100, 3000 exactly on [100, 200), 4000 exactly from 200 |
| Classify.RadiusMonotone | FFINAL_PROJECT.py:260-266 | a higher AQI never gets a smaller point |
| Classify.BoundsContrast | FFINAL_PROJECT.py:241-266 | at 100 and 200 the colour keeps the band below while the radius moves to the band above |
| Classify.MapPoints | FFINAL_PROJECT.py:254-266 | one point per row, in order, with its columns (lng as lon), its default-alpha colour and its radius |
| Classify.MapPointsConsistent | FFINAL_PROJECT.py:254-266 | every point has alpha 180; the smallest are green or yellow, the largest red, purple or maroon |
| Page.CountryPanel | FFINAL_PROJECT.py:89-155 | the country table, the search result, the top-10 threshold charts and the two group tables of the loaded table; the rendered table is `country_stats` |
| Page.CategoryPanel | FFINAL_PROJECT.py:173-296 | the top-20 pivot of the normalised table, sorted; then nothing more exactly when the select box's options cannot be sorted, otherwise the top-10 shares (sorted), the map points and the hemisphere means of that table |
| Page.CategoryStage | FFINAL_PROJECT.py:170-296 | no pivot exactly when the file is non-empty and has no category text; otherwise the category panel of the overwritten table, without shares, map and means exactly when its categories are mixed |
| Page.BuildDashboard | FFINAL_PROJECT.py:80-296 | the page: country views of `load_data`'s table; the pivot of that table after the category overwrite, unless the file is non-empty and has no category text; the shares, map and hemisphere means too, exactly when moreover the loaded table does not mix missing and present categories |
| Scenarios.SummaryExample | FFINAL_PROJECT.py:89 | AQI 10 and 20 give count 2, mean 15, min 10, max 20 |
| Scenarios.PercentExample | FFINAL_PROJECT.py:223 | one city of four is 25 percent |
| Scenarios.ColorExamples | FFINAL_PROJECT.py:239-252 | 50 is green, 51 yellow, 500 maroon, and an explicit alpha is kept |
| Scenarios.RadiusExamples | FFINAL_PROJECT.py:260-266 | 99 → 2000, 100 → 3000, 199 → 3000, 200 → 4000 |
| Scenarios.NoTextExample | FFINAL_PROJECT.py:170 | a one-row file without a category makes the overwrite raise; neither an empty file nor a file with a "Good" category does |
| Scenarios.UnsortableExample | FFINAL_PROJECT.py:214 | a city without a category next to a "Good" one makes the sort fail; either alone does not |

## Left out

- Reading the CSV file, trimming the header names, and `pd.to_numeric`. The input is a sequence of rows whose numeric cells are already parsed, or missing when they did not parse.
- The page chrome and the widgets: the markdown, the CSS, the sliders, the text box and the select box. Their values are parameters of `Page.BuildDashboard`, unrestricted: the slider ranges 0–500 and 1–50 are not required.
- The charts and the map rendering: matplotlib, the table styling and gradients, the pydeck layer, the tooltip, and the map's view centre.
- The pie chart's `category_dist`, and the contents of the sorted `pm25_categories` list that feeds the select box; only whether sorting it fails is modelled. The selected category is a parameter. The second `pm25_categories` comprehension at line 218 is never used.
- Floating-point arithmetic: AQI values, means and percentages are exact reals. Display formatting and `round(2)` of the percentages are not modelled.
- The hemisphere and east/west standard deviation (`std`).
- CategoryViews.CategoryPivot: a category whose label title-cases to "Total" is not dropped. In the script, line 184 overwrites that category's column with the row sum, which still counts it, and line 185 sorts on that sum and then drops the column. So the shown pivot has no such category. In the model the shown rows keep it; the row filter, the sort key and the order are the same as in the script.
- CategoryViews.CategoryPivotEntries: it describes the rows before the "Total" column is dropped. When a category title-cases to "Total", the script's shown rows lack that category's count, though they keep the same Total.
- Normalize.NoTextCategories: category cells are text. A category column whose every cell parses as a number would also be read as numbers and raise at line 170; that case is not modelled.
- Missing City or Country cells, which pandas would keep as NaN. Here they are strings.
- Series.SortValues: pandas' `sort_values` is not stable, so the model promises only sortedness and permutation; the order among equal keys is unspecified. The model sorts stably.
- Rows.CategoryColumn: the pivot's columns come in first-appearance order, not pandas' sorted column order. Only which columns exist and the row totals are stated.
- Text.Title: Unicode title-casing is not modelled. Only ASCII letters change case, and only ASCII whitespace (with the separator controls Python treats as whitespace) is stripped. The contract states the length; the character-level behaviour is in its lemmas.
- Text.Strip: same ASCII restriction as `Title`.
- CountryViews.DisplayStats: `str.contains` is a regular-expression search. It is modelled as a literal, ASCII case-insensitive substring search, so a pattern with regex metacharacters is out of scope.
- CountryViews.BelowThreshold: it has no contract of its own. It is `FrequentCountries` of the rows strictly below the threshold, and its properties are that function's contract.
- CountryViews.AboveThreshold: likewise, `FrequentCountries` of the rows strictly above the threshold.
- CountryViews.HemisphereStats: it has no contract of its own. It is `TwoGroups` over the two hemispheres and is described by `HemisphereStatsCover` and `HemisphereMeansAgree`.
- CountryViews.EastWestStats: likewise, `TwoGroups` over the two sides, described by `EastWestStatsCover`.
- Normalize.Normalized: it has no contract of its own. `LoadData` is proved equal to it, and `NormalizedRow`, `NormalizedSource`, `NormalizedOrder`, `LocationInfoPrefix` and `FlagsFollowSigns` state its rows.
- Normalize.RemapCountries: it has no contract of its own. It applies `MapCountry` row by row; `NormalizedRow` states each table row's country is `MapCountry` of its input row's.
- Normalize.HemisphereOf: it has no contract of its own. `FlagsFollowSigns` states the flag is Northern exactly when lat ≥ 0.
- Normalize.SideOf: likewise, `FlagsFollowSigns` states the flag is Eastern exactly when lng ≥ 0.
- Text.ContainsIgnoringCase: it has no contract of its own. It is `Contains` of the two `LowerCase` strings, and those contracts state it.
- CountryViews.SearchMatches: it has no contract of its own; `SearchMatchesFacts` states it.
- CategoryViews.PivotRowOf: it has no contract of its own. `CountsFor` states its counts and `PivotRowTotal` its Total.
- CategoryViews.UnsortableCategories: it has no contract of its own; `UnsortableIffPartlyCategorised` and `NormalizeKeepsUnsortable` state it. The TypeError needs two or more distinct options, one of them NaN, which is what it says; the sort of a label-only list is not modelled.
- pandas index alignment in `category_counts / country_totals` is modelled by its result: one share per country that has a selected row.
