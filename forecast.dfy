/**
 * The `/forecast` handler: for each route coordinate in order, fetch the hourly
 * forecast, pick the sample for the requested time, and record the wind and its
 * impact on that leg of the route.
 */
module Forecast {
  import opened Wrappers
  import opened JsMath
  import opened Geometry
  import opened Wind
  import opened Hourly

  /** One element of the response array. */
  datatype ForecastPoint = ForecastPoint(lat: real, lon: real, windSpeed: real, windDirection: real,
                                         bearing: real, impact: real)

  /** The single failure the handler reports, whatever went wrong inside the loop. */
  datatype ForecastError = ForecastFetchFailed

  /** The request body: `{ coordinates, timeISO }`. */
  datatype Request = Request(coordinates: seq<Coordinate>, timeISO: string)

  /**
   * What the handler depends on but does not compute: the trigonometry, and the
   * forecast provider, which answers the request issued for coordinate i with an
   * hourly timeline, or fails (network error, error status, or a response without
   * `timelines.hourly`).
   */
  datatype World = World(trig: Trig, fetch: nat -> Result<seq<Sample>, string>)

  /** `value || 0` for a wind field that may be missing. */
  function OrZero(v: Option<real>): (r: real)
    ensures v.None? ==> r == 0.0
  {
    match v
    case Some(x) => x
    case None => 0.0
  }

  /** The bearing recorded for index i: towards the next input coordinate, 0 for the last. */
  function LegBearing(trig: Trig, coordinates: seq<Coordinate>, i: nat): (r: real)
    requires i < |coordinates|
    ensures i == |coordinates| - 1 ==> r == 0.0
  {
    if i < |coordinates| - 1 then Bearing(trig, coordinates[i], coordinates[i + 1]) else 0.0
  }

  /**
   * What index i contributes once its timeline has arrived: nothing when no sample
   * is at or after the target time, a failure when the chosen sample has no
   * `values` object (reading a field of undefined throws), and otherwise the
   * record for that coordinate.
   */
  function Step(trig: Trig, coordinates: seq<Coordinate>, i: nat, hourly: seq<Sample>, timeISO: string)
    : Result<Option<ForecastPoint>, ForecastError>
    requires i < |coordinates|
  {
    match FindIndex(hourly, timeISO)
    case None => Success(None)
    case Some(k) =>
      match hourly[k].values
      case None => Failure(ForecastFetchFailed)
      case Some(values) =>
        var windSpeed := OrZero(values.windSpeed);
        var windDirection := OrZero(values.windDirection);
        var bearingDeg := LegBearing(trig, coordinates, i);
        var impact := WindImpact(trig.cos, bearingDeg, windDirection, windSpeed);
        Success(Some(ForecastPoint(coordinates[i].lat, coordinates[i].lon, windSpeed, windDirection,
                                   bearingDeg, impact)))
  }

  /**
   * What a step means: index i contributes nothing iff every sample is before the
   * target time; it fails iff the chosen sample has no `values`; a record keeps
   * the coordinate's own position, the bearing of its leg, each wind field of the
   * chosen sample (0 when missing, independently of the other) and their impact.
   */
  lemma StepMeaning(trig: Trig, coordinates: seq<Coordinate>, i: nat, hourly: seq<Sample>, timeISO: string)
    requires i < |coordinates|
    ensures var r := Step(trig, coordinates, i, hourly, timeISO);
            r == Success(None) <==> forall j :: 0 <= j < |hourly| ==> StrLess(hourly[j].time, timeISO)
    ensures var r := Step(trig, coordinates, i, hourly, timeISO);
            r.Failure? <==> FindIndex(hourly, timeISO).Some? && hourly[FindIndex(hourly, timeISO).value].values.None?
    ensures var r := Step(trig, coordinates, i, hourly, timeISO);
            r.Success? && r.value.Some? ==>
              && r.value.value.lat == coordinates[i].lat && r.value.value.lon == coordinates[i].lon
              && r.value.value.bearing == LegBearing(trig, coordinates, i)
              && r.value.value.impact
                 == WindImpact(trig.cos, r.value.value.bearing, r.value.value.windDirection, r.value.value.windSpeed)
    ensures var r := Step(trig, coordinates, i, hourly, timeISO);
            r.Success? && r.value.Some? ==>
              && FindIndex(hourly, timeISO).Some?
              && var values := hourly[FindIndex(hourly, timeISO).value].values;
              && values.Some?
              && r.value.value.windSpeed == OrZero(values.value.windSpeed)
              && r.value.value.windDirection == OrZero(values.value.windDirection)
  {
  }

  /**
   * Folding the per-index outcomes in order, as the loop does: the first failure
   * is the result, a skipped index adds nothing, any other appends its record.
   */
  function Collect<P, E>(outcomes: seq<Result<Option<P>, E>>): Result<seq<P>, E>
  {
    if outcomes == [] then Success([])
    else match Collect(outcomes[..|outcomes| - 1])
      case Failure(e) => Failure(e)
      case Success(done) =>
        match outcomes[|outcomes| - 1]
        case Failure(e) => Failure(e)
        case Success(None) => Success(done)
        case Success(Some(p)) => Success(done + [p])
  }

  lemma CollectSnoc<P, E>(outcomes: seq<Result<Option<P>, E>>, last: Result<Option<P>, E>)
    ensures Collect(outcomes + [last])
         == match Collect(outcomes)
            case Failure(e) => Failure(e)
            case Success(done) =>
              match last
              case Failure(e) => Failure(e)
              case Success(None) => Success(done)
              case Success(Some(p)) => Success(done + [p])
  {
    assert (outcomes + [last])[..|outcomes|] == outcomes;
  }

  /** The fold fails exactly when some outcome is a failure. */
  lemma {:induction false} CollectFailsIff<P, E>(outcomes: seq<Result<Option<P>, E>>)
    ensures Collect(outcomes).Failure? <==> exists i :: 0 <= i < |outcomes| && outcomes[i].Failure?
  {
    if outcomes != [] {
      var front := outcomes[..|outcomes| - 1];
      CollectFailsIff(front);
      if exists i :: 0 <= i < |front| && front[i].Failure? {
        var i :| 0 <= i < |front| && front[i].Failure?;
        assert outcomes[i].Failure?;
      }
      if exists i :: 0 <= i < |outcomes| && outcomes[i].Failure? {
        var i :| 0 <= i < |outcomes| && outcomes[i].Failure?;
        if i < |front| { assert front[i].Failure?; }
      }
    }
  }

  /** A failure of a prefix is a failure of the whole, with its error. */
  lemma {:induction false} CollectFailureIsSticky<P, E>(outcomes: seq<Result<Option<P>, E>>, m: nat)
    requires m <= |outcomes| && Collect(outcomes[..m]).Failure?
    ensures Collect(outcomes) == Collect(outcomes[..m])
    decreases |outcomes| - m
  {
    if m < |outcomes| {
      CollectSnoc(outcomes[..m], outcomes[m]);
      assert outcomes[..m + 1] == outcomes[..m] + [outcomes[m]];
      CollectFailureIsSticky(outcomes, m + 1);
    } else {
      assert outcomes[..m] == outcomes;
    }
  }

  /** The positions of the outcomes that carry a record, in increasing order. */
  ghost function Kept<P, E>(outcomes: seq<Result<Option<P>, E>>): seq<nat>
  {
    if outcomes == [] then []
    else
      var last := |outcomes| - 1;
      Kept(outcomes[..last]) + if outcomes[last].Success? && outcomes[last].value.Some? then [last] else []
  }

  /** Kept, one outcome at a time: the last position is added when it carries a record. */
  lemma KeptStep<P, E>(outcomes: seq<Result<Option<P>, E>>)
    requires outcomes != []
    ensures var last := |outcomes| - 1;
            Kept(outcomes)
            == Kept(outcomes[..last]) + if outcomes[last].Success? && outcomes[last].value.Some? then [last] else []
  {
  }

  /** Every kept position is in range and carries a record. */
  lemma {:induction false} KeptCarriesRecords<P, E>(outcomes: seq<Result<Option<P>, E>>)
    ensures forall k :: 0 <= k < |Kept(outcomes)| ==>
              Kept(outcomes)[k] < |outcomes| && outcomes[Kept(outcomes)[k]].Success? && outcomes[Kept(outcomes)[k]].value.Some?
  {
    if outcomes != [] {
      var last := |outcomes| - 1;
      var front := outcomes[..last];
      KeptStep(outcomes);
      KeptCarriesRecords(front);
      forall k | 0 <= k < |Kept(front)| ensures outcomes[Kept(front)[k]] == front[Kept(front)[k]] {
      }
    }
  }

  /** Kept positions increase strictly: the selection keeps the input order. */
  lemma {:induction false} KeptIncreases<P, E>(outcomes: seq<Result<Option<P>, E>>)
    ensures forall k, l :: 0 <= k < l < |Kept(outcomes)| ==> Kept(outcomes)[k] < Kept(outcomes)[l]
  {
    if outcomes != [] {
      var last := |outcomes| - 1;
      var front := outcomes[..last];
      KeptStep(outcomes);
      KeptIncreases(front);
      KeptCarriesRecords(front);
    }
  }

  /** No position carrying a record is left out. */
  lemma {:induction false} KeptIsComplete<P, E>(outcomes: seq<Result<Option<P>, E>>)
    ensures forall i :: 0 <= i < |outcomes| && outcomes[i].Success? && outcomes[i].value.Some? ==> i in Kept(outcomes)
  {
    if outcomes != [] {
      var last := |outcomes| - 1;
      var front := outcomes[..last];
      KeptStep(outcomes);
      KeptIsComplete(front);
      forall i | 0 <= i < |outcomes| && outcomes[i].Success? && outcomes[i].value.Some? ensures i in Kept(outcomes) {
        if i < last { assert front[i] == outcomes[i]; }
      }
    }
  }

  /** A successful fold, one outcome at a time: its prefix succeeded and the last record, if any, is appended. */
  lemma CollectStep<P, E>(outcomes: seq<Result<Option<P>, E>>)
    requires outcomes != [] && Collect(outcomes).Success?
    ensures var last := |outcomes| - 1;
            && Collect(outcomes[..last]).Success?
            && outcomes[last].Success?
            && Collect(outcomes).value
               == Collect(outcomes[..last]).value + if outcomes[last].value.Some? then [outcomes[last].value.value] else []
  {
  }

  /** A successful fold is exactly the records at the kept positions. */
  lemma {:induction false} CollectIsKept<P, E>(outcomes: seq<Result<Option<P>, E>>)
    requires Collect(outcomes).Success?
    ensures |Collect(outcomes).value| == |Kept(outcomes)|
    ensures forall k :: 0 <= k < |Kept(outcomes)| ==>
              Kept(outcomes)[k] < |outcomes| && outcomes[Kept(outcomes)[k]].Success? && outcomes[Kept(outcomes)[k]].value.Some? &&
              Collect(outcomes).value[k] == outcomes[Kept(outcomes)[k]].value.value
  {
    KeptCarriesRecords(outcomes);
    if outcomes != [] {
      var front := outcomes[..|outcomes| - 1];
      KeptStep(outcomes);
      CollectStep(outcomes);
      CollectIsKept(front);
      forall k | 0 <= k < |Kept(front)|
        ensures Collect(outcomes).value[k] == outcomes[Kept(outcomes)[k]].value.value
      {
        assert front[Kept(front)[k]] == outcomes[Kept(front)[k]];
      }
    }
  }

  /** At most one position is kept per outcome. */
  lemma {:induction false} KeptLength<P, E>(outcomes: seq<Result<Option<P>, E>>)
    ensures |Kept(outcomes)| <= |outcomes|
  {
    if outcomes != [] { KeptLength(outcomes[..|outcomes| - 1]); }
  }

  /**
   * On success the fold keeps the records of the outcomes that carry one, in
   * order: `src` lists their positions increasingly, misses none, and entry k
   * is the record at position src[k].
   */
  lemma CollectSelection<P, E>(outcomes: seq<Result<Option<P>, E>>) returns (src: seq<nat>)
    requires Collect(outcomes).Success?
    ensures |src| == |Collect(outcomes).value| <= |outcomes|
    ensures forall k :: 0 <= k < |src| ==> src[k] < |outcomes| && outcomes[src[k]].Success? && outcomes[src[k]].value.Some?
    ensures forall k, l :: 0 <= k < l < |src| ==> src[k] < src[l]
    ensures forall i :: 0 <= i < |outcomes| && outcomes[i].Success? && outcomes[i].value.Some? ==> i in src
    ensures forall k :: 0 <= k < |src| ==> Collect(outcomes).value[k] == outcomes[src[k]].value.value
  {
    src := Kept(outcomes);
    KeptCarriesRecords(outcomes);
    KeptIncreases(outcomes);
    KeptIsComplete(outcomes);
    CollectIsKept(outcomes);
    KeptLength(outcomes);
  }

  /** What index i contributes: a failed fetch fails, otherwise its step decides. */
  ghost function Contribution(w: World, req: Request, i: nat): Result<Option<ForecastPoint>, ForecastError>
    requires i < |req.coordinates|
  {
    match w.fetch(i)
    case Failure(_) => Failure(ForecastFetchFailed)
    case Success(hourly) => Step(w.trig, req.coordinates, i, hourly, req.timeISO)
  }

  /** The contributions of the first n indices, in order. */
  ghost function Contributions(w: World, req: Request, n: nat): (cs: seq<Result<Option<ForecastPoint>, ForecastError>>)
    requires n <= |req.coordinates|
    ensures |cs| == n && forall i :: 0 <= i < n ==> cs[i] == Contribution(w, req, i)
  {
    seq(n, i requires 0 <= i < n => Contribution(w, req, i))
  }

  /** Index i aborts the whole call: its fetch fails, or its step does. */
  ghost predicate StepFails(w: World, req: Request, i: nat)
    requires i < |req.coordinates|
  {
    Contribution(w, req, i).Failure?
  }

  /** Index i produces a record. */
  ghost predicate Emits(w: World, req: Request, i: nat)
    requires i < |req.coordinates|
  {
    Contribution(w, req, i).Success? && Contribution(w, req, i).value.Some?
  }

  /** The record index i produces. */
  ghost function Emitted(w: World, req: Request, i: nat): ForecastPoint
    requires i < |req.coordinates| && Emits(w, req, i)
  {
    Contribution(w, req, i).value.value
  }

  /** The outcome of running the loop over the first n coordinates. */
  ghost function Series(w: World, req: Request, n: nat): Result<seq<ForecastPoint>, ForecastError>
    requires n <= |req.coordinates|
  {
    Collect(Contributions(w, req, n))
  }

  lemma ContributionsPrefix(w: World, req: Request, m: nat, n: nat)
    requires m <= n <= |req.coordinates|
    ensures Contributions(w, req, n)[..m] == Contributions(w, req, m)
  {
  }

  /** One iteration of the loop, from what the first i coordinates produced. */
  lemma SeriesAdvance(w: World, req: Request, i: nat, done: seq<ForecastPoint>)
    requires i < |req.coordinates| && Series(w, req, i) == Success(done)
    ensures StepFails(w, req, i) ==> Series(w, req, i + 1).Failure?
    ensures !StepFails(w, req, i) ==>
              Series(w, req, i + 1) == Success(done + if Emits(w, req, i) then [Emitted(w, req, i)] else [])
  {
    assert Contributions(w, req, i + 1) == Contributions(w, req, i) + [Contribution(w, req, i)];
    CollectSnoc(Contributions(w, req, i), Contribution(w, req, i));
    assert done + [] == done;
  }

  /** Once the loop has failed, running it further never recovers: the call ends in the one error. */
  lemma SeriesFailureIsSticky(w: World, req: Request, m: nat, n: nat)
    requires m <= n <= |req.coordinates|
    requires Series(w, req, m).Failure?
    ensures Series(w, req, n) == Failure(ForecastFetchFailed)
  {
    ContributionsPrefix(w, req, m, n);
    CollectFailureIsSticky(Contributions(w, req, n), m);
    match Series(w, req, n).error
    case ForecastFetchFailed =>
  }

  /** All or error: the loop fails exactly when some index fails. */
  lemma SeriesFailsIffSomeStepFails(w: World, req: Request, n: nat)
    requires n <= |req.coordinates|
    ensures Series(w, req, n).Failure? <==> exists i :: 0 <= i < n && StepFails(w, req, i)
  {
    var cs := Contributions(w, req, n);
    CollectFailsIff(cs);
    if exists i :: 0 <= i < n && StepFails(w, req, i) {
      var i :| 0 <= i < n && StepFails(w, req, i);
      assert cs[i].Failure?;
    }
    if exists i :: 0 <= i < |cs| && cs[i].Failure? {
      var i :| 0 <= i < |cs| && cs[i].Failure?;
      assert StepFails(w, req, i);
    }
  }

  /**
   * On success the output is the records of the indices that produce one, in
   * input order: `src` lists those indices increasingly, every index that
   * produces a record is among them, and entry k is the record of coordinate
   * src[k].
   */
  lemma SeriesIsOrderedSelection(w: World, req: Request, n: nat) returns (src: seq<nat>)
    requires n <= |req.coordinates|
    requires Series(w, req, n).Success?
    ensures |src| == |Series(w, req, n).value| <= n
    ensures forall k :: 0 <= k < |src| ==> src[k] < n && Emits(w, req, src[k])
    ensures forall k, l :: 0 <= k < l < |src| ==> src[k] < src[l]
    ensures forall i :: 0 <= i < n && Emits(w, req, i) ==> i in src
    ensures forall k :: 0 <= k < |src| ==> Series(w, req, n).value[k] == Emitted(w, req, src[k])
  {
    src := CollectSelection(Contributions(w, req, n));
  }

  /**
   * Each output entry carries the position of its own input coordinate, the
   * bearing towards the next input coordinate (0 for the last one), whether or
   * not that next coordinate produced a record itself, and the wind impact of
   * its own wind on that bearing.
   */
  lemma SeriesEntries(w: World, req: Request, n: nat) returns (src: seq<nat>)
    requires n <= |req.coordinates|
    requires Series(w, req, n).Success?
    ensures |src| == |Series(w, req, n).value|
    ensures forall k, l :: 0 <= k < l < |src| ==> src[k] < src[l]
    ensures forall k :: 0 <= k < |src| ==> src[k] < n
    ensures forall k :: 0 <= k < |src| ==>
              var p := Series(w, req, n).value[k];
              && p.lat == req.coordinates[src[k]].lat && p.lon == req.coordinates[src[k]].lon
              && p.bearing == LegBearing(w.trig, req.coordinates, src[k])
              && p.impact == WindImpact(w.trig.cos, p.bearing, p.windDirection, p.windSpeed)
  {
    src := SeriesIsOrderedSelection(w, req, n);
    forall k | 0 <= k < |src|
      ensures var p := Series(w, req, n).value[k];
              && p.lat == req.coordinates[src[k]].lat && p.lon == req.coordinates[src[k]].lon
              && p.bearing == LegBearing(w.trig, req.coordinates, src[k])
              && p.impact == WindImpact(w.trig.cos, p.bearing, p.windDirection, p.windSpeed)
    {
      StepMeaning(w.trig, req.coordinates, src[k], w.fetch(src[k]).value, req.timeISO);
    }
  }

  /**
   * A three-point route whose middle forecast has no sample at or after the
   * target time yields two entries, for the first and the last point, in that
   * order; the first keeps its bearing towards the dropped middle point and the
   * last has bearing 0.
   */
  lemma MiddleWithoutSampleIsDropped(w: World, req: Request)
    requires |req.coordinates| == 3
    requires Emits(w, req, 0) && Emits(w, req, 2)
    requires w.fetch(1).Success?
    requires forall s :: s in w.fetch(1).value ==> StrLess(s.time, req.timeISO)
    ensures Series(w, req, 3).Success?
    ensures var out := Series(w, req, 3).value;
            && |out| == 2
            && out[0] == Emitted(w, req, 0) && out[1] == Emitted(w, req, 2)
            && out[0].lat == req.coordinates[0].lat && out[0].lon == req.coordinates[0].lon
            && out[1].lat == req.coordinates[2].lat && out[1].lon == req.coordinates[2].lon
            && out[0].bearing == Bearing(w.trig, req.coordinates[0], req.coordinates[1])
            && out[1].bearing == 0.0
  {
    var hourly := w.fetch(1).value;
    assert forall j :: 0 <= j < |hourly| ==> StrLess(hourly[j].time, req.timeISO) by {
      forall j | 0 <= j < |hourly| ensures StrLess(hourly[j].time, req.timeISO) {
        assert hourly[j] in hourly;
      }
    }
    assert !StepFails(w, req, 1) && !Emits(w, req, 1);
    assert Series(w, req, 0) == Success([]);
    SeriesAdvance(w, req, 0, []);
    SeriesAdvance(w, req, 1, Series(w, req, 1).value);
    SeriesAdvance(w, req, 2, Series(w, req, 2).value);
  }

  /**
   * A failing index ends the call: the whole series is the error, and no earlier
   * index failed, since the loop got this far.
   */
  lemma StopsAt(w: World, req: Request, i: nat, done: seq<ForecastPoint>)
    requires i < |req.coordinates|
    requires Series(w, req, i) == Success(done) && StepFails(w, req, i)
    ensures Series(w, req, |req.coordinates|) == Failure(ForecastFetchFailed)
    ensures forall j :: 0 <= j < i ==> !StepFails(w, req, j)
  {
    SeriesAdvance(w, req, i, done);
    SeriesFailureIsSticky(w, req, i + 1, |req.coordinates|);
    SeriesFailsIffSomeStepFails(w, req, i);
  }

  /**
   * The `/forecast` loop. It requests the forecast of each coordinate in turn
   * and stops at the first index that fails, returning the error and no array;
   * otherwise it returns the records.
   *
   * `requested` stands for the trace of provider requests. The oracle `w.fetch`
   * records no calls, so the method reports how many it made: the loop calls
   * `w.fetch(i)` once per index, in increasing order, so the requests issued
   * are exactly those for the indices below `requested`.
   */
  method HandleForecast(w: World, req: Request) returns (result: Result<seq<ForecastPoint>, ForecastError>, requested: nat)
    ensures result == Series(w, req, |req.coordinates|)
    ensures requested <= |req.coordinates|
    ensures result.Success? ==> requested == |req.coordinates|
    ensures result.Failure? ==> 0 < requested && StepFails(w, req, requested - 1)
    ensures forall j :: 0 <= j < requested - 1 ==> !StepFails(w, req, j)
  {
    var coordinates := req.coordinates;
    var forecasts: seq<ForecastPoint> := [];
    for i := 0 to |coordinates|
      invariant Series(w, req, i) == Success(forecasts)
    {
      var response := w.fetch(i);
      SeriesAdvance(w, req, i, forecasts);
      if response.Failure? {
        StopsAt(w, req, i, forecasts);
        return Failure(ForecastFetchFailed), i + 1;
      }
      var hourly := response.value;
      var found := FindIndex(hourly, req.timeISO);
      if found.None? {
        assert Contribution(w, req, i) == Success(None);
        assert forecasts + [] == forecasts;
        continue;
      }
      var hourData := hourly[found.value];
      if hourData.values.None? {
        StopsAt(w, req, i, forecasts);
        return Failure(ForecastFetchFailed), i + 1;
      }
      var windSpeed := OrZero(hourData.values.value.windSpeed);
      var windDirection := OrZero(hourData.values.value.windDirection);
      var bearingDeg := LegBearing(w.trig, coordinates, i);
      var impact := WindImpact(w.trig.cos, bearingDeg, windDirection, windSpeed);
      var point := ForecastPoint(coordinates[i].lat, coordinates[i].lon, windSpeed, windDirection, bearingDeg, impact);
      assert Contribution(w, req, i) == Success(Some(point));
      forecasts := forecasts + [point];
    }
    SeriesFailsIffSomeStepFails(w, req, |coordinates|);
    return Success(forecasts), |coordinates|;
  }
}
