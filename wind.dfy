/** The wind projection unit: how much of the wind acts along the direction of travel. */
module Wind {
  import opened JsMath

  /** A direction on the compass, in [0, 360). */
  predicate OnCompass(deg: real)
  {
    0.0 <= deg < 360.0
  }

  /**
   * `relative = min(|b - d|, 360 - |b - d|)`: the angle between the route bearing
   * and the wind direction, taken the short way round. It never exceeds 180; for
   * two compass directions it is not negative and is 0 exactly when they agree.
   */
  function RelativeAngle(routeBearing: real, windDirection: real): (r: real)
    ensures r <= 180.0
    ensures OnCompass(routeBearing) && OnCompass(windDirection) ==> 0.0 <= r
    ensures OnCompass(routeBearing) && OnCompass(windDirection) ==>
              (r == 0.0 <==> routeBearing == windDirection)
    ensures OnCompass(routeBearing) && OnCompass(windDirection) ==>
              (r == 180.0 <==> Abs(routeBearing - windDirection) == 180.0)
  {
    var angleDiff := Abs(routeBearing - windDirection);
    Min(angleDiff, 360.0 - angleDiff)
  }

  /** Swapping the bearing and the wind direction gives the same angle. */
  lemma RelativeAngleSymmetric(routeBearing: real, windDirection: real)
    ensures RelativeAngle(routeBearing, windDirection) == RelativeAngle(windDirection, routeBearing)
  {
    assert Abs(routeBearing - windDirection) == Abs(windDirection - routeBearing);
  }

  /**
   * For compass directions the relative angle is the shortest arc between them:
   * no representative `b - d + 360k` of their difference is shorter, and one of
   * them has exactly that length.
   */
  lemma RelativeAngleIsShortestArc(routeBearing: real, windDirection: real)
    requires OnCompass(routeBearing) && OnCompass(windDirection)
    ensures forall k: int :: RelativeAngle(routeBearing, windDirection) <= Abs(routeBearing - windDirection + Turns(k))
    ensures exists k: int :: RelativeAngle(routeBearing, windDirection) == Abs(routeBearing - windDirection + Turns(k))
  {
    var delta := routeBearing - windDirection;
    var r := RelativeAngle(routeBearing, windDirection);
    forall k: int ensures r <= Abs(delta + Turns(k)) {
      if k >= 1 {
        assert Turns(k) >= 360.0;
      } else if k <= -1 {
        assert Turns(k) <= -360.0;
      }
    }
    if r == Abs(delta) {
      assert r == Abs(delta + Turns(0));
    } else if delta >= 0.0 {
      assert r == Abs(delta + Turns(-1));
    } else {
      assert r == Abs(delta + Turns(1));
    }
  }

  /**
   * `windImpact(routeBearing, windDirection, windSpeed)`: the wind speed scaled by
   * the cosine of the relative angle. With a cosine in [-1, 1] and a speed that is
   * not negative, the impact lies in [-speed, speed].
   */
  function WindImpact(cos: real -> real, routeBearing: real, windDirection: real, windSpeed: real): (r: real)
    ensures CosBounded(cos) && 0.0 <= windSpeed ==> -windSpeed <= r <= windSpeed
  {
    var c := cos(RelativeAngle(routeBearing, windDirection));
    ScaledBound(windSpeed, c);
    windSpeed * c
  }

  lemma ScaledBound(s: real, c: real)
    ensures 0.0 <= s && -1.0 <= c <= 1.0 ==> -s <= s * c <= s
  {
    if 0.0 <= s && -1.0 <= c <= 1.0 {
      assert s * c - s == s * (c - 1.0);
      assert s * c + s == s * (c + 1.0);
    }
  }

  /**
   * With the true cosine, the impact is the projection of the wind on the
   * direction of travel, `speed * cos(b - d)`, for every bearing and direction,
   * including ones outside [0, 360) where `relative` turns negative.
   */
  lemma WindImpactIsProjection(cos: real -> real, routeBearing: real, windDirection: real, windSpeed: real)
    requires CosEven(cos) && CosPeriodic(cos)
    ensures WindImpact(cos, routeBearing, windDirection, windSpeed) == windSpeed * cos(routeBearing - windDirection)
  {
    var delta := routeBearing - windDirection;
    var a := Abs(delta);
    var rel := RelativeAngle(routeBearing, windDirection);
    if rel == a {
      assert cos(a) == cos(delta) by {
        if a != delta { assert a + delta == 0.0; }
      }
    } else {
      assert rel == 360.0 - a;
      assert cos(-a) == cos(rel) by { assert rel - (-a) == 360.0; }
      assert cos(-a) == cos(delta) by {
        if -a != delta { assert -a + delta == 0.0; }
      }
    }
  }

  /** Turning the wind direction by whole turns does not change the impact. */
  lemma {:induction false} WindImpactPeriodic(cos: real -> real, routeBearing: real, windDirection: real,
                                               windSpeed: real, k: int)
    requires CosEven(cos) && CosPeriodic(cos)
    ensures WindImpact(cos, routeBearing, windDirection + Turns(k), windSpeed)
         == WindImpact(cos, routeBearing, windDirection, windSpeed)
  {
    WindImpactIsProjection(cos, routeBearing, windDirection + Turns(k), windSpeed);
    WindImpactIsProjection(cos, routeBearing, windDirection, windSpeed);
    CosWholeTurns(cos, routeBearing - windDirection - Turns(k), k);
    assert routeBearing - windDirection - Turns(k) + Turns(k) == routeBearing - windDirection;
  }
}
