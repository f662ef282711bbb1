/** `load_data`: the row normaliser. It drops the rows whose AQI Value, lat
    or lng did not parse, renames three countries, writes the Location_Info
    label of the first 100 rows in place, and derives the Hemisphere and
    East_West columns from the signs of lat and lng. */
module Normalize {
  import opened Rows

  /** Only the rows of `df.head(100)` get a Location_Info label. */
  const LabelledRows: nat := 100

  /** The long country names the dashboard shortens. */
  const CountryMapping: map<string, string> := map[
    "United Kingdom of Great Britain and Northern Ireland" := "UK",
    "United States of America" := "USA",
    "Russian Federation" := "Russia"
  ]

  /** A row survives `dropna(subset=['AQI Value', 'lat', 'lng'])`. */
  predicate Complete(r: RawRow)
  {
    r.aqi.Some? && r.lat.Some? && r.lng.Some?
  }

  /** The rows with all three numeric fields, in their original order. */
  function DropMissing(raw: seq<RawRow>): (kept: seq<RawRow>)
    ensures |kept| <= |raw|
    ensures forall k :: 0 <= k < |kept| ==> Complete(kept[k]) && kept[k] in raw
    ensures forall i :: 0 <= i < |raw| && Complete(raw[i]) ==> raw[i] in kept
  {
    if raw == [] then []
    else (if Complete(raw[0]) then [raw[0]] else []) + DropMissing(raw[1..])
  }

  /** Dropping distributes over concatenation: the filter never reorders. */
  lemma {:induction false} DropMissingAppend(a: seq<RawRow>, b: seq<RawRow>)
    ensures DropMissing(a + b) == DropMissing(a) + DropMissing(b)
  {
    if a == [] {
      assert a + b == b;
    } else {
      assert (a + b)[1..] == a[1..] + b;
      DropMissingAppend(a[1..], b);
    }
  }

  /** How many rows before position i survive: the position row i takes in
      the cleaned table when it survives. */
  function KeptBefore(raw: seq<RawRow>, i: nat): (r: nat)
    requires i <= |raw|
  {
    |DropMissing(raw[..i])|
  }

  /** A surviving row lands at position KeptBefore(raw, i), unchanged. */
  lemma DropMissingPosition(raw: seq<RawRow>, i: nat)
    requires i < |raw| && Complete(raw[i])
    ensures KeptBefore(raw, i) < |DropMissing(raw)|
    ensures DropMissing(raw)[KeptBefore(raw, i)] == raw[i]
  {
    assert raw == raw[..i] + ([raw[i]] + raw[i + 1..]);
    DropMissingAppend(raw[..i], [raw[i]] + raw[i + 1..]);
    DropMissingAppend([raw[i]], raw[i + 1..]);
  }

  /** Surviving rows keep their relative order. */
  lemma DropMissingOrder(raw: seq<RawRow>, i: nat, j: nat)
    requires i < j <= |raw| && Complete(raw[i])
    ensures KeptBefore(raw, i) < KeptBefore(raw, j)
  {
    assert raw[..j] == raw[..i] + ([raw[i]] + raw[i + 1..j]);
    DropMissingAppend(raw[..i], [raw[i]] + raw[i + 1..j]);
    DropMissingAppend([raw[i]], raw[i + 1..j]);
  }

  /** Counting survivors before i does not look past i. */
  lemma KeptBeforePrefix(raw: seq<RawRow>, n: nat, i: nat)
    requires i <= n <= |raw|
    ensures KeptBefore(raw[..n], i) == KeptBefore(raw, i)
  {
    assert raw[..n][..i] == raw[..i];
  }

  /** Every row of the cleaned table is a surviving input row. */
  lemma {:induction false} DropMissingSource(raw: seq<RawRow>, k: nat)
    requires k < |DropMissing(raw)|
    ensures exists i :: 0 <= i < |raw| && Complete(raw[i]) && KeptBefore(raw, i) == k
  {
    var n := |raw| - 1;
    assert raw == raw[..n] + [raw[n]];
    DropMissingAppend(raw[..n], [raw[n]]);
    if k < |DropMissing(raw[..n])| {
      DropMissingSource(raw[..n], k);
      var i :| 0 <= i < n && Complete(raw[..n][i]) && KeptBefore(raw[..n], i) == k;
      KeptBeforePrefix(raw, n, i);
      assert Complete(raw[i]) && KeptBefore(raw, i) == k;
    } else {
      assert [raw[n]][1..] == [];
      assert Complete(raw[n]) && KeptBefore(raw, n) == k;
    }
  }

  /** `Series.replace(country_mapping)`: the three long names become their
      short forms and every other name is left as it is. No name it returns
      is remapped again. */
  function MapCountry(name: string): (r: string)
    ensures r !in CountryMapping
    ensures r != name <==> name in CountryMapping
    ensures name == "United Kingdom of Great Britain and Northern Ireland" ==> r == "UK"
    ensures name == "United States of America" ==> r == "USA"
    ensures name == "Russian Federation" ==> r == "Russia"
  {
    if name in CountryMapping then CountryMapping[name] else name
  }

  function RemapCountries(rows: seq<RawRow>): (r: seq<RawRow>)
  {
    seq(|rows|, i requires 0 <= i < |rows| => rows[i].(country := MapCountry(rows[i].country)))
  }

  /** The f-string `f"{City} ({Country})"`. */
  function LocationLabel(city: string, country: string): (r: string)
    ensures |r| == |city| + |country| + 3
    ensures r[..|city|] == city && r[|city|..|city| + 2] == " ("
    ensures r[|city| + 2..|r| - 1] == country && r[|r| - 1] == ')'
  {
    city + " (" + country + ")"
  }

  /** `np.where(lat >= 0, 'Northern', 'Southern')`. */
  function HemisphereOf(lat: real): (r: Hemisphere)
  {
    if lat >= 0.0 then Northern else Southern
  }

  /** `np.where(lng >= 0, 'Eastern', 'Western')`. */
  function SideOf(lng: real): (r: EastWest)
  {
    if lng >= 0.0 then Eastern else Western
  }

  /** A cleaned, remapped row with its Location_Info and derived flags. */
  function Derive(r: RawRow, locationInfo: string): (row: CityRow)
    requires Complete(r)
  {
    CityRow(r.city, r.country, r.aqi.value, r.lat.value, r.lng.value, r.category,
            locationInfo, HemisphereOf(r.lat.value), SideOf(r.lng.value))
  }

  /** `read_csv` types a column by its cells: when every PM2.5 category cell
      of a non-empty file is empty, the column is a float column of NaN, and
      the string methods applied to it later raise. */
  predicate NoTextCategories(raw: seq<RawRow>)
  {
    raw != [] && forall i :: 0 <= i < |raw| ==> raw[i].category.None?
  }

  /** The table `load_data` returns. */
  function Normalized(raw: seq<RawRow>): (t: seq<CityRow>)
  {
    var rows := RemapCountries(DropMissing(raw));
    seq(|rows|, k requires 0 <= k < |rows| =>
      Derive(rows[k], if k < LabelledRows then LocationLabel(rows[k].city, rows[k].country) else ""))
  }

  /** `load_data`. The cleaned, remapped rows are built first; Location_Info
      starts as "" on every row and the loop over the first 100 rows writes
      each label in place; the Hemisphere and East_West columns are added at
      the end. */
  method LoadData(raw: seq<RawRow>) returns (t: seq<CityRow>)
    ensures t == Normalized(raw)
    ensures |t| == |DropMissing(raw)|
    ensures forall k :: 0 <= k < |t| ==>
      t[k].locationInfo == if k < LabelledRows then LocationLabel(t[k].city, t[k].country) else ""
    ensures forall k :: 0 <= k < |t| ==> t[k].country !in CountryMapping
  {
    var rows := RemapCountries(DropMissing(raw));
    var n := |rows|;
    var locationInfo := new string[n](_ => "");
    var head := if n < LabelledRows then n else LabelledRows;
    for i := 0 to head
      invariant forall k :: 0 <= k < i ==> locationInfo[k] == LocationLabel(rows[k].city, rows[k].country)
      invariant forall k :: i <= k < n ==> locationInfo[k] == ""
    {
      locationInfo[i] := LocationLabel(rows[i].city, rows[i].country);
    }
    t := seq(n, k requires 0 <= k < n reads locationInfo => Derive(rows[k], locationInfo[k]));
  }

  /** Row i of the input, when it parses, becomes row KeptBefore(raw, i) of
      the table: the same city, AQI, coordinates and category, the remapped
      country, a label built from the remapped country exactly when the row
      is among the first 100, and flags given by the signs of lat and lng. */
  lemma NormalizedRow(raw: seq<RawRow>, i: nat)
    requires i < |raw| && Complete(raw[i])
    ensures var k := KeptBefore(raw, i);
      var t := Normalized(raw);
      && k < |t|
      && t[k].city == raw[i].city
      && t[k].country == MapCountry(raw[i].country)
      && t[k].aqi == raw[i].aqi.value
      && t[k].lat == raw[i].lat.value
      && t[k].lng == raw[i].lng.value
      && t[k].category == raw[i].category
      && t[k].locationInfo == (if k < LabelledRows then LocationLabel(raw[i].city, MapCountry(raw[i].country)) else "")
      && (t[k].hemisphere == Northern <==> raw[i].lat.value >= 0.0)
      && (t[k].eastWest == Eastern <==> raw[i].lng.value >= 0.0)
  {
    DropMissingPosition(raw, i);
  }

  /** Every row of the table comes from a parsed input row, and rows keep
      their input order. */
  lemma NormalizedSource(raw: seq<RawRow>, k: nat)
    requires k < |Normalized(raw)|
    ensures exists i :: 0 <= i < |raw| && Complete(raw[i]) && KeptBefore(raw, i) == k
  {
    DropMissingSource(raw, k);
  }

  /** The table has one row per input row whose three numeric fields parse,
      and two parsed input rows keep their relative order. */
  lemma NormalizedOrder(raw: seq<RawRow>, i: nat, j: nat)
    requires i < j < |raw| && Complete(raw[i]) && Complete(raw[j])
    ensures KeptBefore(raw, i) < KeptBefore(raw, j) < |Normalized(raw)|
  {
    DropMissingOrder(raw, i, j);
    DropMissingPosition(raw, j);
  }

  /** Such a file loads a table in which no row has a category. */
  lemma NoTextLoadsUncategorised(raw: seq<RawRow>, k: nat)
    requires NoTextCategories(raw) && k < |Normalized(raw)|
    ensures Normalized(raw)[k].category.None?
  {
    NormalizedSource(raw, k);
    var i :| 0 <= i < |raw| && Complete(raw[i]) && KeptBefore(raw, i) == k;
    NormalizedRow(raw, i);
  }

  /** Location_Info is non-empty exactly on the first 100 rows. */
  lemma LocationInfoPrefix(raw: seq<RawRow>, k: nat)
    requires k < |Normalized(raw)|
    ensures Normalized(raw)[k].locationInfo != "" <==> k < LabelledRows
  {
  }

  /** Both flags are defined for every row and follow the signs of lat and lng. */
  lemma FlagsFollowSigns(raw: seq<RawRow>, k: nat)
    requires k < |Normalized(raw)|
    ensures var row := Normalized(raw)[k];
      && (row.hemisphere == Northern <==> row.lat >= 0.0)
      && (row.hemisphere == Southern <==> row.lat < 0.0)
      && (row.eastWest == Eastern <==> row.lng >= 0.0)
      && (row.eastWest == Western <==> row.lng < 0.0)
  {
  }
}
