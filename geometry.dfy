/** The geometry unit: the initial compass bearing from one route point to the next. */
module Geometry {
  import opened JsMath

  /** A route point `[lat, lon]`, in degrees. Nothing checks the ranges. */
  datatype Coordinate = Coordinate(lat: real, lon: real)

  /** The forward-azimuth formula, before normalisation: atan2(y, x) in degrees. */
  function Azimuth(trig: Trig, from: Coordinate, to: Coordinate): (r: real)
    ensures from == to && trig.sin(0.0) == 0.0 && trig.cos(0.0) == 1.0 ==> r == trig.atan2(0.0, 0.0)
  {
    var dLon := to.lon - from.lon;
    var y := trig.sin(dLon) * trig.cos(to.lat);
    var x := trig.cos(from.lat) * trig.sin(to.lat)
           - trig.sin(from.lat) * trig.cos(to.lat) * trig.cos(dLon);
    assert from == to && trig.sin(0.0) == 0.0 && trig.cos(0.0) == 1.0 ==> y == 0.0 && x == 0.0 by {
      if from == to && trig.sin(0.0) == 0.0 && trig.cos(0.0) == 1.0 {
        assert dLon == 0.0;
        assert trig.sin(dLon) == 0.0;
        assert trig.cos(dLon) == 1.0;
        ProductFacts(trig.sin(dLon), trig.cos(to.lat), trig.sin(to.lat), trig.cos(dLon));
      }
    }
    trig.atan2(y, x)
  }

  lemma ProductFacts(zero: real, c: real, s: real, one: real)
    requires zero == 0.0 && one == 1.0
    ensures zero * c == 0.0
    ensures c * s - s * c * one == 0.0
  {
  }

  /**
   * `bearing(lat1, lon1, lat2, lon2)`: the azimuth shifted by a turn and reduced
   * with `% 360`. Whenever atan2 answers in [-180, 180], as Math.atan2 does, the
   * result is a compass direction in [0, 360); it always names the same direction
   * as the azimuth.
   */
  function Bearing(trig: Trig, from: Coordinate, to: Coordinate): (r: real)
    ensures -180.0 <= Azimuth(trig, from, to) <= 180.0 ==> 0.0 <= r < 360.0
    ensures WholeTurns(r - Azimuth(trig, from, to))
  {
    var az := Azimuth(trig, from, to);
    var r := Rem360(az + 360.0);
    ghost var k :| Turns(k) == az + 360.0 - r;
    assert Turns(1 - k) == r - az;
    r
  }

  /**
   * From a point to itself the formula degenerates to atan2(0, 0), which
   * Math.atan2 answers with 0: the bearing is then 0, not NaN.
   */
  lemma BearingToSelf(trig: Trig, p: Coordinate)
    requires trig.sin(0.0) == 0.0 && trig.cos(0.0) == 1.0 && trig.atan2(0.0, 0.0) == 0.0
    ensures Bearing(trig, p, p) == 0.0
  {
    assert Azimuth(trig, p, p) == 0.0;
    assert Trunc(360.0 / 360.0) == 1;
  }
}
