/**
 * The forecast provider's hourly timeline and the choice of the sample to use:
 * `timelines.hourly.find(d => d.time >= timeISO)`.
 */
module Hourly {
  import opened Wrappers

  /** The `values` object of an hourly entry; either wind field may be missing. */
  datatype WindValues = WindValues(windSpeed: Option<real>, windDirection: Option<real>)

  /** One hourly entry: its ISO-8601 time and its `values` object, if the entry has one. */
  datatype Sample = Sample(time: string, values: Option<WindValues>)

  /**
   * JavaScript's `a < b` on two strings: the first position where they differ
   * decides, and a proper prefix comes first.
   */
  predicate StrLess(a: string, b: string)
    decreases |a|
  {
    if b == [] then false
    else if a == [] then true
    else if a[0] != b[0] then a[0] < b[0]
    else StrLess(a[1..], b[1..])
  }

  /** JavaScript's `time >= target` on two strings. */
  predicate AtOrAfter(time: string, target: string)
  {
    !StrLess(time, target)
  }

  /** `a` and `b` agree before position k, and k is where `a` comes out smaller. */
  ghost predicate SmallerAt(a: string, b: string, k: nat)
  {
    k <= |a| && k < |b| && a[..k] == b[..k] && (k == |a| || a[k] < b[k])
  }

  /** StrLess is the lexicographic order: `a < b` iff some position makes `a` smaller. */
  lemma {:induction false} StrLessIsLexicographic(a: string, b: string)
    ensures StrLess(a, b) <==> exists k: nat :: SmallerAt(a, b, k)
    decreases |a|
  {
    if b == [] {
    } else if a == [] {
      assert SmallerAt(a, b, 0);
    } else if a[0] != b[0] {
      if a[0] < b[0] {
        assert SmallerAt(a, b, 0);
      } else {
        forall k: nat | SmallerAt(a, b, k) ensures false {
        }
      }
    } else {
      SmallerAtTail(a, b);
      StrLessIsLexicographic(a[1..], b[1..]);
      if StrLess(a[1..], b[1..]) {
        var k: nat :| SmallerAt(a[1..], b[1..], k);
        assert a[..k + 1] == [a[0]] + a[1..][..k];
        assert b[..k + 1] == [b[0]] + b[1..][..k];
        assert SmallerAt(a, b, k + 1);
      }
    }
  }

  /** Past an equal first character, the deciding position moves one to the left. */
  lemma SmallerAtTail(a: string, b: string)
    requires a != [] && b != [] && a[0] == b[0]
    ensures forall k: nat :: SmallerAt(a, b, k) ==> k > 0 && SmallerAt(a[1..], b[1..], k - 1)
  {
    forall k: nat | SmallerAt(a, b, k) ensures k > 0 && SmallerAt(a[1..], b[1..], k - 1) {
      assert a[1..][..k - 1] == a[..k][1..];
      assert b[1..][..k - 1] == b[..k][1..];
    }
  }

  lemma {:induction false} StrLessIrreflexive(a: string)
    ensures !StrLess(a, a)
    decreases |a|
  {
    if a != [] { StrLessIrreflexive(a[1..]); }
  }

  lemma {:induction false} StrLessTransitive(a: string, b: string, c: string)
    requires StrLess(a, b) && StrLess(b, c)
    ensures StrLess(a, c)
    decreases |a|
  {
    if a != [] && a[0] == b[0] && b[0] == c[0] {
      StrLessTransitive(a[1..], b[1..], c[1..]);
    }
  }

  lemma {:induction false} StrLessTotal(a: string, b: string)
    requires a != b
    ensures StrLess(a, b) || StrLess(b, a)
    decreases |a|
  {
    if a != [] && b != [] && a[0] == b[0] {
      assert a == [a[0]] + a[1..] && b == [b[0]] + b[1..];
      StrLessTotal(a[1..], b[1..]);
    }
  }

  /** `>=` on strings is transitive: a later time than a time at or after the target is too. */
  lemma AtOrAfterTransitive(a: string, b: string, c: string)
    requires AtOrAfter(a, b) && AtOrAfter(b, c)
    ensures AtOrAfter(a, c)
  {
    if StrLess(a, c) {
      if a == b {
      } else {
        StrLessTotal(a, b);
        StrLessTransitive(b, a, c);
      }
    }
  }

  /**
   * `Array.prototype.find` with the predicate `d.time >= timeISO`: the position of
   * the first sample at or after the target, every earlier one being before it;
   * none exactly when every sample is before the target.
   */
  function FindIndex(hourly: seq<Sample>, timeISO: string): (r: Option<nat>)
    ensures r.Some? ==> r.value < |hourly| && AtOrAfter(hourly[r.value].time, timeISO)
    ensures r.Some? ==> forall j :: 0 <= j < r.value ==> StrLess(hourly[j].time, timeISO)
    ensures r.None? <==> forall j :: 0 <= j < |hourly| ==> StrLess(hourly[j].time, timeISO)
  {
    if hourly == [] then None
    else if AtOrAfter(hourly[0].time, timeISO) then Some(0)
    else match FindIndex(hourly[1..], timeISO)
      case None => None
      case Some(k) => Some(k + 1)
  }

  /** The provider lists its samples in order of time. */
  ghost predicate Chronological(hourly: seq<Sample>)
  {
    forall i, j :: 0 <= i < j < |hourly| ==> AtOrAfter(hourly[j].time, hourly[i].time)
  }

  /**
   * On a chronological timeline the first match is where the timeline crosses the
   * target: every sample from it on is at or after the target, every one before
   * it is earlier.
   */
  lemma ChronologicalFindSplits(hourly: seq<Sample>, timeISO: string)
    requires Chronological(hourly)
    requires FindIndex(hourly, timeISO).Some?
    ensures forall j :: FindIndex(hourly, timeISO).value <= j < |hourly| ==> AtOrAfter(hourly[j].time, timeISO)
  {
    var k := FindIndex(hourly, timeISO).value;
    forall j | k <= j < |hourly| ensures AtOrAfter(hourly[j].time, timeISO) {
      if j > k { AtOrAfterTransitive(hourly[j].time, hourly[k].time, timeISO); }
    }
  }

  /** On a chronological timeline, no sample matches exactly when the last one is before the target. */
  lemma ChronologicalFindNone(hourly: seq<Sample>, timeISO: string)
    requires Chronological(hourly) && hourly != []
    ensures FindIndex(hourly, timeISO).None? <==> StrLess(hourly[|hourly| - 1].time, timeISO)
  {
    if StrLess(hourly[|hourly| - 1].time, timeISO) && FindIndex(hourly, timeISO).Some? {
      ChronologicalFindSplits(hourly, timeISO);
    }
  }
}
