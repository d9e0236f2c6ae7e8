# Wind impact along a route: a Dafny model of `server.js`

The backend answers `POST /forecast` with `{coordinates, timeISO}`. It walks the
route points in order. For each point it asks a weather provider for an hourly
timeline and takes the first sample whose time is at or after `timeISO`. It
records the wind at that point, the bearing to the next route point, and a
signed "wind impact" (the wind speed scaled by the cosine of the angle between
travel and wind). Points without such a sample are dropped. Any failed request
turns the whole answer into one error. Before its Strava calls the backend also
refreshes its OAuth credential when the stored one has expired.

The model has seven modules:

- `Wrappers` (wrappers.dfy): `Option` and `Result`.
- `JsMath` (jsmath.dfy): `Math.abs`, `Math.min` and the `%` operator over reals.
  It also holds `Trig`, a record of uninterpreted `sin`/`cos`/`atan2` in degree
  form, with predicates naming the properties of the true functions that a lemma
  needs (cosine bounded, even, 360-periodic).
- `Geometry` (geometry.dfy): `bearing`. The forward-azimuth formula uses the
  abstract trig functions. The `(deg + 360) % 360` normalisation is exact.
- `Wind` (wind.dfy): `windImpact` and its `relative` angle.
- `Hourly` (hourly.dfy): hourly samples, JavaScript string order, and the
  `.find` that picks the sample.
- `Forecast` (forecast.dfy): the `/forecast` loop. This is a method with a `for`
  loop that appends to a sequence. It is proved equal to the specification
  function `Series`, and the lemmas about `Series` state what the loop promises.
  The weather provider is an oracle `fetch(i)` answering the request issued for
  coordinate i.
- `Tokens` (tokens.dfy): the module-level `tokens` variable is a `TokenStore`
  class. `ensureAccessTokenValid` is its method, and the refresh-token grant is
  an oracle.

Three behaviours of the code are worth knowing; the model states each as the
code has it:

- Sign of the impact. Under the meteorological convention a wind direction
  names where the wind blows from, so a wind direction equal to the bearing is
  a headwind. The code nevertheless gives `+speed` in that case
  (`relative = 0`, `cos 0 = 1`). `Wind.WindImpactIsProjection` states the
  code's value: impact = `speed * cos(bearing - direction)`.
- A failure that is not a fetch failure. The chosen hourly sample may have no
  `values` object. Reading `values.windSpeed` then throws inside the `try`, and
  the whole call fails like a failed fetch. `Forecast.StepMeaning` states this case.
- Pauses. The code pauses after every appended entry, including the last one,
  and never after a skipped coordinate.

## Model

| member | source | states |
|---|---|---|
| JsMath.Abs | server.js:98 | `Math.abs`: the result is not negative and is x or -x |
| JsMath.Min | server.js:99 | `Math.min`: the result is at most both arguments and equals one of them |
| JsMath.Rem360 | server.js:94 | JavaScript `x % 360`: in [0, 360) for x ≥ 0, in (-360, 0] for x ≤ 0, and x minus the result is a whole number of turns |
| Geometry.Azimuth | server.js:89-94 | the forward-azimuth formula; from a point to itself (sin 0 = 0, cos 0 = 1) it degenerates to atan2(0, 0) |
| Geometry.Bearing | server.js:89-95 | whenever atan2 answers in [-180, 180], the bearing is a compass direction in [0, 360); it always differs from the azimuth by whole turns |
| Geometry.BearingToSelf | server.js:89-95 | the bearing from a point to itself is 0, not NaN, with Math's values at 0 |
| Wind.RelativeAngle | server.js:98-99 | `relative` never exceeds 180; for compass directions it is ≥ 0, is 0 iff they are equal, and is 180 iff they are opposite |
| Wind.RelativeAngleSymmetric | server.js:98-99 | swapping bearing and wind direction gives the same relative angle |
| Wind.RelativeAngleIsShortestArc | server.js:98-99 | for compass directions, `relative` is the shortest arc: it is at most every `|b - d + 360k|` and equal to one of them |
| Wind.WindImpact | server.js:97-102 | with a cosine in [-1, 1] and a non-negative speed, the impact lies in [-speed, speed] |
| Wind.WindImpactIsProjection | server.js:97-101 | for every bearing and direction (even outside [0, 360)), with an even, 360-periodic cosine, the impact equals `speed * cos(bearing - direction)` |
| Wind.WindImpactPeriodic | server.js:97-101 | turning the wind direction by any whole number of turns leaves the impact unchanged |
| Hourly.StrLessIsLexicographic | server.js:116 | the string `<` used by `d.time >= timeISO` holds iff some position has equal prefixes before it and makes the left string smaller (or ends it) |
| Hourly.StrLessIrreflexive | server.js:116 | no time string is before itself |
| Hourly.StrLessTransitive | server.js:116 | string `<` is transitive |
| Hourly.StrLessTotal | server.js:116 | of two different strings, one is before the other |
| Hourly.AtOrAfterTransitive | server.js:116 | string `>=` is transitive |
| Hourly.FindIndex | server.js:116 | `.find(d => d.time >= timeISO)`: the found sample is at or after the target and every earlier one is before it; there is none iff every sample is before the target |
| Hourly.ChronologicalFindSplits | server.js:116 | on a chronologically sorted timeline every sample from the found one on is at or after the target |
| Hourly.ChronologicalFindNone | server.js:116 | on a sorted non-empty timeline nothing is found iff the last sample is before the target |
| Forecast.OrZero | server.js:118-119 | `value || 0`: a missing wind field is recorded as 0 |
| Forecast.LegBearing | server.js:120 | the last coordinate has bearing 0 |
| Forecast.StepMeaning | server.js:116-122 | index i contributes nothing iff every sample is before the target, fails iff the chosen sample has no `values`, and otherwise records its own lat/lon, each wind field from the chosen sample with 0 for a missing one (independently), bearing to the next input coordinate or 0 for the last, and impact = windImpact of these |
| Forecast.CollectFailsIff | server.js:110-128 | the in-order fold of per-index outcomes fails exactly when some outcome is a failure |
| Forecast.CollectFailureIsSticky | server.js:110-128 | a failure within a prefix decides the whole fold, with that failure's error |
| Forecast.KeptCarriesRecords | server.js:116-124 | every position the fold keeps is in range and carries a record |
| Forecast.KeptIncreases | server.js:110-124 | the kept positions are strictly increasing, so the output preserves the input order |
| Forecast.KeptIsComplete | server.js:114-124 | no position carrying a record is left out of the output |
| Forecast.KeptLength | server.js:110-124 | at most one entry per input outcome |
| Forecast.CollectIsKept | server.js:112-124 | a successful fold is exactly the records at the kept positions, entry by entry |
| Forecast.CollectSelection | server.js:112-124 | on success the output is an increasing, complete selection of the records, with entry k the record at its source position |
| Forecast.SeriesAdvance | server.js:112-124 | one loop iteration: a failing index fails the loop, any other appends its record, or nothing when it is skipped |
| Forecast.SeriesFailureIsSticky | server.js:110-128 | once an index has failed, the whole call ends in the single error `ForecastFetchFailed` with no array |
| Forecast.SeriesFailsIffSomeStepFails | server.js:110-128 | all or error: the call fails iff some index's fetch (or its chosen sample) fails |
| Forecast.SeriesIsOrderedSelection | server.js:112-124 | on success the output is exactly the records of the indices that produce one, in increasing input order, so its length is at most the input length |
| Forecast.SeriesEntries | server.js:112-122 | each output entry carries the lat/lon of its source coordinate, the bearing to the next input coordinate (0 for the last), and impact = windImpact(bearing, windDirection, windSpeed) |
| Forecast.MiddleWithoutSampleIsDropped | server.js:112-124 | a three-point route whose middle timeline has no sample at or after the target gives two entries (first and last point, in order); the first keeps its bearing towards the dropped middle point and the last has bearing 0 |
| Forecast.StopsAt | server.js:110-128 | a failing index, reached with every earlier index succeeding, makes the whole call the single error `ForecastFetchFailed`, and no earlier index failed |
| Forecast.HandleForecast | server.js:108-129 | the loop returns `Series` of all coordinates; it issues requests for indices 0, 1, … in order and stops at the first failing index, requesting nothing after it; on success it requested every coordinate |
| Tokens.AfterCheck | server.js:51-62 | the stored credential is replaced only when `expires_at * 1000 < now` and the refresh grant succeeds, and then by the grant's answer; otherwise it is unchanged; after a rejected grant the credential is kept and stays expired, so a later check asks again |
| Tokens.AfterCheckSettles | server.js:51-62 | once a check has not failed (the credential was valid, or the grant answered with one valid now), any later check at the same moment is a no-op, whatever its own grant answers |
| Tokens.TokenStore.constructor | server.js:27 | the store starts with the loaded credential |
| Tokens.TokenStore.EnsureAccessTokenValid | server.js:51-62 | it requests a refresh iff the stored credential expired (missing `expires_at` never counts as expired), with the stored refresh token; the credential is replaced iff that request succeeds |

## Left out

- Express routing, CORS, JSON body parsing and response framing (server.js:1-10, 29-32, 64-87, 131). These are web plumbing. The model starts from the parsed body and returns a `Result` in place of the JSON answer or the 500 status.
- The `/auth/strava`, `/auth/callback`, `/routes` and `/route/:id` handlers. These are forwarding calls to Strava and the authorisation-code exchange. The model has only the expiry check they rely on.
- HTTP calls and their URLs (axios, Tomorrow.io, Strava). These are network calls: the forecast request is the `World.fetch` oracle and the refresh grant is the `RefreshGrant` oracle.
- Token file persistence (`loadTokens`, `saveTokens`). This is disk I/O. The constructor takes the loaded credential. A failing `saveTokens` after a refresh would reject the check after `tokens` was already replaced, and the model does not capture this.
- Tokens.TokenStore.EnsureAccessTokenValid: the model treats the check as one atomic step, but the JavaScript function yields at `await axios.post` (server.js:53-59). Two overlapping `/routes` or `/route/:id` calls can both see the expired credential and both request a refresh, and the later answer then overwrites a credential that is no longer expired. The model does not capture this interleaving, so "replaced only when expired" holds per check, not for the stored state under concurrent requests.
- `sleep(100)` and all timing. These are asynchronous delays with no effect on the result. The current time is the parameter `nowMs`.
- Floating point. All numbers are exact reals. `Math.sin`, `Math.cos` and `Math.atan2` stay uninterpreted, and the degree/radian conversion is folded into them. `expires_at * 1000` is exact integer arithmetic.
- Geometry.Bearing: the range and due-east properties of the true formula depend on real trigonometry. The model proves the range only under the hypothesis that atan2 answers in [-180, 180].
- Malformed input: a `coordinates` value that is not an array, an element with fewer than two numbers, a non-string `timeISO`, or an hourly entry without a `time` field. In JavaScript these throw (and give the 500 answer) or compare as false. Every sample in the model has a time string.
- JavaScript compares strings by UTF-16 code units, and the model compares characters by code point. The two orders agree on the ASCII strings of ISO-8601 timestamps.
- Non-integer `expires_at` values. At server.js:52 a null `expires_at` counts as 0 and so as expired. A fractional number is compared as it is. A numeric string, a boolean, the empty string and `[]` convert to numbers (`true` to 1, the others to 0) and are compared as such. Only a value that converts to NaN (an object, a non-numeric string) is never expired. The model has only an integer expiry or a missing one (never expired).
- Falsy wind values. `value || 0` also maps `null` and `NaN` to 0. The model has only present and absent values.
