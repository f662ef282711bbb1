/** The rows of the air-quality table, before and after normalisation, and
    the column selections (boolean masks) the dashboard's views are built from. */
module Rows {

  datatype Option<T> = None | Some(value: T)

  /** One line of the input file. A numeric cell that does not parse as a
      number is `None` (pandas turns it into NaN); a missing PM2.5 category
      is `None` as well. */
  datatype RawRow = RawRow(
    city: string,
    country: string,
    aqi: Option<real>,
    lat: Option<real>,
    lng: Option<real>,
    category: Option<string>)

  datatype Hemisphere = Northern | Southern

  datatype EastWest = Eastern | Western

  /** A row of the normalised table: the numeric fields are present, and the
      derived columns Location_Info, Hemisphere and East_West are filled in. */
  datatype CityRow = CityRow(
    city: string,
    country: string,
    aqi: real,
    lat: real,
    lng: real,
    category: Option<string>,
    locationInfo: string,
    hemisphere: Hemisphere,
    eastWest: EastWest)

  /** The Country column. */
  function CountryColumn(t: seq<CityRow>): (r: seq<string>)
    ensures |r| == |t|
    ensures forall i :: 0 <= i < |t| ==> r[i] == t[i].country
  {
    if t == [] then [] else [t[0].country] + CountryColumn(t[1..])
  }

  /** The AQI Value column. */
  function AqiColumn(t: seq<CityRow>): (r: seq<real>)
    ensures |r| == |t|
    ensures forall i :: 0 <= i < |t| ==> r[i] == t[i].aqi
  {
    if t == [] then [] else [t[0].aqi] + AqiColumn(t[1..])
  }

  /** `t[t['Country'] == c]`: the rows of one country, in table order. */
  function OfCountry(t: seq<CityRow>, c: string): (r: seq<CityRow>)
    ensures |r| <= |t|
    ensures forall row :: row in r <==> row in t && row.country == c
  {
    if t == [] then []
    else (if t[0].country == c then [t[0]] else []) + OfCountry(t[1..], c)
  }

  /** The selection keeps every row of the country as often as the table
      holds it, and no other row: its size is the country's number of rows. */
  lemma {:induction false} OfCountryCounts(t: seq<CityRow>, c: string)
    ensures forall row :: multiset(OfCountry(t, c))[row] == if row.country == c then multiset(t)[row] else 0
  {
    if t != [] {
      OfCountryCounts(t[1..], c);
      assert t == [t[0]] + t[1..];
      assert multiset(t) == multiset{t[0]} + multiset(t[1..]);
    }
  }

  /** A country has rows exactly when it appears in the Country column. */
  lemma {:induction false} OfCountryNonEmpty(t: seq<CityRow>, c: string)
    ensures |OfCountry(t, c)| > 0 <==> c in CountryColumn(t)
  {
    if t != [] {
      OfCountryNonEmpty(t[1..], c);
      assert CountryColumn(t) == [t[0].country] + CountryColumn(t[1..]);
    }
  }

  /** Selecting a country distributes over concatenation. */
  lemma {:induction false} OfCountryAppend(a: seq<CityRow>, b: seq<CityRow>, c: string)
    ensures OfCountry(a + b, c) == OfCountry(a, c) + OfCountry(b, c)
  {
    if a == [] {
      assert a + b == b;
    } else {
      assert (a + b)[1..] == a[1..] + b;
      OfCountryAppend(a[1..], b, c);
    }
  }

  /** `t[t['AQI Value'] < threshold]`. */
  function AqiBelow(t: seq<CityRow>, threshold: real): (r: seq<CityRow>)
    ensures forall row :: row in r <==> row in t && row.aqi < threshold
  {
    if t == [] then []
    else (if t[0].aqi < threshold then [t[0]] else []) + AqiBelow(t[1..], threshold)
  }

  /** `t[t['AQI Value'] > threshold]`. */
  function AqiAbove(t: seq<CityRow>, threshold: real): (r: seq<CityRow>)
    ensures forall row :: row in r <==> row in t && row.aqi > threshold
  {
    if t == [] then []
    else (if t[0].aqi > threshold then [t[0]] else []) + AqiAbove(t[1..], threshold)
  }

  /** `t[t['AQI Value'] == threshold]`: the rows neither split keeps. */
  function AqiAt(t: seq<CityRow>, threshold: real): (r: seq<CityRow>)
    ensures forall row :: row in r <==> row in t && row.aqi == threshold
  {
    if t == [] then []
    else (if t[0].aqi == threshold then [t[0]] else []) + AqiAt(t[1..], threshold)
  }

  /** `t[t['Hemisphere'] == h]`. */
  function InHemisphere(t: seq<CityRow>, h: Hemisphere): (r: seq<CityRow>)
    ensures forall row :: row in r <==> row in t && row.hemisphere == h
  {
    if t == [] then []
    else (if t[0].hemisphere == h then [t[0]] else []) + InHemisphere(t[1..], h)
  }

  /** `t[t['East_West'] == e]`. */
  function OnSide(t: seq<CityRow>, e: EastWest): (r: seq<CityRow>)
    ensures forall row :: row in r <==> row in t && row.eastWest == e
  {
    if t == [] then []
    else (if t[0].eastWest == e then [t[0]] else []) + OnSide(t[1..], e)
  }

  /** `t[t['PM2.5 AQI Category'] == category]`; a missing category equals nothing. */
  function InCategory(t: seq<CityRow>, category: string): (r: seq<CityRow>)
    ensures forall row :: row in r <==> row in t && row.category == Some(category)
  {
    if t == [] then []
    else (if t[0].category == Some(category) then [t[0]] else []) + InCategory(t[1..], category)
  }

  /** The rows whose category is present (pandas group-by drops NaN keys). */
  function Categorised(t: seq<CityRow>): (r: seq<CityRow>)
    ensures forall row :: row in r <==> row in t && row.category.Some?
  {
    if t == [] then []
    else (if t[0].category.Some? then [t[0]] else []) + Categorised(t[1..])
  }

  /** The present values of the category column, in table order. */
  function CategoryColumn(t: seq<CityRow>): (r: seq<string>)
    ensures forall c :: c in r <==> exists row :: row in t && row.category == Some(c)
  {
    if t == [] then []
    else (if t[0].category.Some? then [t[0].category.value] else []) + CategoryColumn(t[1..])
  }
}
