/** The map's classifiers: `get_color`, the six-band AQI colour with an
    alpha pass-through, the three-band point radius, and the projection of
    the table onto map points. */
module Classify {
  import opened Rows

  /** An RGBA colour as `get_color` returns it: `[red, green, blue, alpha]`. */
  datatype Rgba = Rgba(red: int, green: int, blue: int, alpha: int)

  /** The alpha `get_color` uses when none is given. */
  const DefaultAlpha: int := 180

  /** `get_color(aqi, alpha=180)`: the colour of the band of aqi. Every
      upper bound is inclusive, and the alpha is passed through unchanged. */
  function GetColor(aqi: real, alpha: int := DefaultAlpha): (c: Rgba)
    ensures c.alpha == alpha
    ensures (c.red, c.green, c.blue) == (0, 200, 0) <==> aqi <= 50.0
    ensures (c.red, c.green, c.blue) == (255, 255, 0) <==> 50.0 < aqi <= 100.0
    ensures (c.red, c.green, c.blue) == (255, 126, 0) <==> 100.0 < aqi <= 150.0
    ensures (c.red, c.green, c.blue) == (255, 0, 0) <==> 150.0 < aqi <= 200.0
    ensures (c.red, c.green, c.blue) == (153, 0, 76) <==> 200.0 < aqi <= 300.0
    ensures (c.red, c.green, c.blue) == (126, 0, 35) <==> 300.0 < aqi
  {
    if aqi <= 50.0 then Rgba(0, 200, 0, alpha)
    else if aqi <= 100.0 then Rgba(255, 255, 0, alpha)
    else if aqi <= 150.0 then Rgba(255, 126, 0, alpha)
    else if aqi <= 200.0 then Rgba(255, 0, 0, alpha)
    else if aqi <= 300.0 then Rgba(153, 0, 76, alpha)
    else Rgba(126, 0, 35, alpha)
  }

  /** The upper bounds of the first five colour bands, in increasing order. */
  const ColorBounds: seq<real> := [50.0, 100.0, 150.0, 200.0, 300.0]

  /** The six colours, from the cleanest band to the most polluted. */
  function Palette(alpha: int): (p: seq<Rgba>)
    ensures |p| == 6
  {
    [Rgba(0, 200, 0, alpha), Rgba(255, 255, 0, alpha), Rgba(255, 126, 0, alpha),
     Rgba(255, 0, 0, alpha), Rgba(153, 0, 76, alpha), Rgba(126, 0, 35, alpha)]
  }

  /** How many of the bounds aqi exceeds. */
  function BoundsExceeded(bounds: seq<real>, aqi: real): (n: nat)
    ensures n <= |bounds|
  {
    if bounds == [] then 0
    else (if aqi > bounds[0] then 1 else 0) + BoundsExceeded(bounds[1..], aqi)
  }

  /** Exceeding more bounds takes a higher AQI. */
  lemma {:induction false} BoundsExceededMonotone(bounds: seq<real>, a: real, b: real)
    requires a <= b
    ensures BoundsExceeded(bounds, a) <= BoundsExceeded(bounds, b)
  {
    if bounds != [] {
      BoundsExceededMonotone(bounds[1..], a, b);
    }
  }

  /** `get_color` picks the palette entry indexed by the number of band
      bounds the AQI exceeds. */
  lemma GetColorByRank(aqi: real, alpha: int)
    ensures GetColor(aqi, alpha) == Palette(alpha)[BoundsExceeded(ColorBounds, aqi)]
  {
    var above := (x: real) => if aqi > x then 1 else 0;
    assert BoundsExceeded([300.0], aqi) == above(300.0) by {
      assert [300.0][1..] == [];
    }
    assert BoundsExceeded([200.0, 300.0], aqi) == above(200.0) + above(300.0) by {
      assert [200.0, 300.0][1..] == [300.0];
    }
    assert BoundsExceeded([150.0, 200.0, 300.0], aqi) == above(150.0) + above(200.0) + above(300.0) by {
      assert [150.0, 200.0, 300.0][1..] == [200.0, 300.0];
    }
    assert BoundsExceeded([100.0, 150.0, 200.0, 300.0], aqi)
        == above(100.0) + above(150.0) + above(200.0) + above(300.0) by {
      assert [100.0, 150.0, 200.0, 300.0][1..] == [150.0, 200.0, 300.0];
    }
    assert BoundsExceeded(ColorBounds, aqi)
        == above(50.0) + above(100.0) + above(150.0) + above(200.0) + above(300.0) by {
      assert ColorBounds[1..] == [100.0, 150.0, 200.0, 300.0];
    }
  }

  /** A higher AQI never gets a colour from a cleaner band. */
  lemma GetColorMonotone(a: real, b: real, alpha: int)
    requires a <= b
    ensures exists i, j ::
      && 0 <= i <= j < 6
      && GetColor(a, alpha) == Palette(alpha)[i]
      && GetColor(b, alpha) == Palette(alpha)[j]
  {
    GetColorByRank(a, alpha);
    GetColorByRank(b, alpha);
    BoundsExceededMonotone(ColorBounds, a, b);
    var i, j := BoundsExceeded(ColorBounds, a), BoundsExceeded(ColorBounds, b);
    assert GetColor(a, alpha) == Palette(alpha)[i] && GetColor(b, alpha) == Palette(alpha)[j];
  }

  /** The point radius: `np.where(aqi < 100, 2000, np.where(aqi < 200, 3000,
      4000))`. Unlike the colour bands, the upper bounds are exclusive. */
  function Radius(aqi: real): (r: int)
    ensures r == 2000 <==> aqi < 100.0
    ensures r == 3000 <==> 100.0 <= aqi < 200.0
    ensures r == 4000 <==> 200.0 <= aqi
  {
    if aqi < 100.0 then 2000 else if aqi < 200.0 then 3000 else 4000
  }

  /** A higher AQI never gets a smaller point. */
  lemma RadiusMonotone(a: real, b: real)
    requires a <= b
    ensures Radius(a) <= Radius(b)
  {
  }

  /** At 100 and 200 the two rules disagree on the side of the bound: the
      colour still belongs to the band below, the radius already to the band
      above. */
  lemma BoundsContrast(alpha: int)
    ensures GetColor(100.0, alpha) == GetColor(99.0, alpha) && Radius(100.0) != Radius(99.0)
    ensures GetColor(200.0, alpha) == GetColor(199.0, alpha) && Radius(200.0) != Radius(199.0)
  {
  }

  /** A row of `map_data`: the table's columns with `lng` renamed `lon`, plus
      the colour and radius of its AQI. */
  datatype MapPoint = MapPoint(
    city: string,
    country: string,
    lat: real,
    lon: real,
    aqi: real,
    category: Option<string>,
    hemisphere: Hemisphere,
    eastWest: EastWest,
    locationInfo: string,
    color: Rgba,
    radius: int)

  /** One point per row, in table order, coloured with the default alpha. */
  function MapPoints(t: seq<CityRow>): (m: seq<MapPoint>)
    ensures |m| == |t|
    ensures forall i :: 0 <= i < |t| ==>
      && m[i].city == t[i].city && m[i].country == t[i].country
      && m[i].lat == t[i].lat && m[i].lon == t[i].lng && m[i].aqi == t[i].aqi
      && m[i].category == t[i].category && m[i].locationInfo == t[i].locationInfo
      && m[i].hemisphere == t[i].hemisphere && m[i].eastWest == t[i].eastWest
      && m[i].color == GetColor(t[i].aqi) && m[i].radius == Radius(t[i].aqi)
  {
    seq(|t|, i requires 0 <= i < |t| =>
      var r := t[i];
      MapPoint(r.city, r.country, r.lat, r.lng, r.aqi, r.category, r.hemisphere, r.eastWest,
               r.locationInfo, GetColor(r.aqi), Radius(r.aqi)))
  }

  /** Every map point is drawn with alpha 180; the smallest points are green
      or yellow and the largest are red, purple or maroon. */
  lemma MapPointsConsistent(t: seq<CityRow>)
    ensures var m := MapPoints(t);
      forall i :: 0 <= i < |m| ==>
        && m[i].color.alpha == DefaultAlpha
        && (m[i].radius == 2000 ==> m[i].color in Palette(DefaultAlpha)[..2])
        && (m[i].radius == 4000 ==> m[i].color in Palette(DefaultAlpha)[3..])
  {
    var m := MapPoints(t);
    var p := Palette(DefaultAlpha);
    forall i | 0 <= i < |m|
      ensures m[i].radius == 2000 ==> m[i].color in p[..2]
      ensures m[i].radius == 4000 ==> m[i].color in p[3..]
    {
      var aqi := t[i].aqi;
      if aqi <= 50.0 {
        assert m[i].color == p[..2][0];
      } else if aqi < 100.0 {
        assert m[i].color == p[..2][1];
      } else if 200.0 <= aqi {
        if aqi == 200.0 {
          assert m[i].color == p[3..][0];
        } else if aqi <= 300.0 {
          assert m[i].color == p[3..][1];
        } else {
          assert m[i].color == p[3..][2];
        }
      }
    }
  }
}
