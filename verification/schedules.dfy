/** The occurrence enumerator behind `next_schedules`: walk the minutes of the
    half-open window [start, stop) in ascending order, keep those the crontab
    expression matches, and drop a match that comes less than `resolution`
    seconds after the previously emitted occurrence. */
module Scheduler {
  import opened Wrappers
  import opened Cron

  const SecondsPerMinute: nat := 60

  predicate StrictlyIncreasing(s: seq<nat>) {
    forall i, j :: 0 <= i < j < |s| ==> s[i] < s[j]
  }

  lemma AppendIncreasing(s: seq<nat>, x: nat)
    ensures StrictlyIncreasing(s) && (forall t :: t in s ==> t < x) ==> StrictlyIncreasing(s + [x])
  {
    if StrictlyIncreasing(s) && (forall t :: t in s ==> t < x) {
      forall i, j | 0 <= i < j < |s| + 1 ensures (s + [x])[i] < (s + [x])[j] {
        if j == |s| {
          assert s[i] in s;
        }
      }
    }
  }

  /** Every minute of [a, b) that satisfies `p`, in ascending order. */
  function Select(p: nat -> bool, a: nat, b: nat): seq<nat>
    decreases b
  {
    if b <= a then [] else Select(p, a, b - 1) + (if p(b - 1) then [b - 1] else [])
  }

  /** Select keeps exactly the minutes of [a, b) satisfying `p`, ascending. */
  lemma {:induction false} SelectSpec(p: nat -> bool, a: nat, b: nat)
    ensures StrictlyIncreasing(Select(p, a, b))
    ensures forall t :: t in Select(p, a, b) <==> a <= t < b && p(t)
    decreases b
  {
    if b > a {
      var init := Select(p, a, b - 1);
      SelectSpec(p, a, b - 1);
      AppendIncreasing(init, b - 1);
      assert Select(p, a, b) == init + (if p(b - 1) then [b - 1] else []);
    }
  }

  /** The firing test of expression `e`, as a predicate on minutes. */
  function Fires(e: CronSpec): nat -> bool {
    (t: nat) => Matches(e, t)
  }

  /** Every minute of [a, b) at which `e` fires, in ascending order. */
  function Matching(e: CronSpec, a: nat, b: nat): (r: seq<nat>)
  {
    Select(Fires(e), a, b)
  }

  lemma MatchingStep(e: CronSpec, a: nat, b: nat)
    requires a <= b
    ensures Matching(e, a, b + 1) == Matching(e, a, b) + (if Matches(e, b) then [b] else [])
  {
  }

  lemma MatchingSpec(e: CronSpec, a: nat, b: nat)
    ensures StrictlyIncreasing(Matching(e, a, b))
    ensures forall t :: t in Matching(e, a, b) <==> a <= t < b && Matches(e, t)
  {
    SelectSpec(Fires(e), a, b);
  }

  /** Whether a match at minute `t` may be emitted after the occurrences `emitted`:
      nothing was emitted yet, or at least `resolution` seconds have passed since the last one. */
  predicate FarEnough(emitted: seq<nat>, t: nat, resolution: nat) {
    emitted == [] || (t - emitted[|emitted| - 1]) * SecondsPerMinute >= resolution
  }

  /** The matches `s` thinned by `resolution`: scanning in order, a match is
      kept when it is far enough from the last kept one. */
  function Thin(s: seq<nat>, resolution: nat): seq<nat>
    decreases |s|
  {
    if s == [] then []
    else
      var p := Thin(s[..|s| - 1], resolution);
      var t := s[|s| - 1];
      if FarEnough(p, t, resolution) then p + [t] else p
  }

  /** Thinning keeps a subsequence: only matches survive, still ascending. */
  lemma {:induction false} ThinSpec(s: seq<nat>, resolution: nat)
    ensures forall t :: t in Thin(s, resolution) ==> t in s
    ensures StrictlyIncreasing(s) ==> StrictlyIncreasing(Thin(s, resolution))
    decreases |s|
  {
    if s != [] {
      var init := s[..|s| - 1];
      var p := Thin(init, resolution);
      var t := s[|s| - 1];
      ThinSpec(init, resolution);
      assert forall x :: x in p ==> x in s;
      if StrictlyIncreasing(s) {
        assert StrictlyIncreasing(init);
        forall x | x in p ensures x < t {
          var i :| 0 <= i < |init| && init[i] == x;
        }
        AppendIncreasing(p, t);
      }
    }
  }

  lemma ThinStep(s: seq<nat>, t: nat, resolution: nat)
    ensures Thin(s + [t], resolution)
      == if FarEnough(Thin(s, resolution), t, resolution) then Thin(s, resolution) + [t] else Thin(s, resolution)
  {
    assert (s + [t])[..|s|] == s;
  }

  /** The occurrences `next_schedules` yields for expression `e` over [start, stop). */
  function Schedules(e: CronSpec, start: nat, stop: nat, resolution: nat): seq<nat> {
    Thin(Matching(e, start, stop), resolution)
  }

  /** One step of the generator loop: the minute `t` is kept exactly when it
      satisfies `p` and is far enough from the last occurrence kept before it. */
  lemma SelectThinStep(p: nat -> bool, a: nat, t: nat, resolution: nat)
    requires a <= t
    ensures Thin(Select(p, a, t + 1), resolution)
      == if p(t) && FarEnough(Thin(Select(p, a, t), resolution), t, resolution)
         then Thin(Select(p, a, t), resolution) + [t]
         else Thin(Select(p, a, t), resolution)
  {
    var m := Select(p, a, t);
    if p(t) {
      assert Select(p, a, t + 1) == m + [t];
      ThinStep(m, t, resolution);
    } else {
      assert Select(p, a, t + 1) == m;
    }
  }

  /** The generator loop: step minute by minute through the window [start, stop),
      emitting a minute at which the schedule `fires` when it is far enough
      from the last one emitted. */
  method Enumerate(fires: nat -> bool, start: nat, stop: nat, resolution: nat) returns (emitted: seq<nat>)
    ensures emitted == Thin(Select(fires, start, stop), resolution)
  {
    emitted := [];
    var t := start;
    while t < stop
      invariant start <= t && (t <= stop || t == start)
      invariant emitted == Thin(Select(fires, start, t), resolution)
    {
      SelectThinStep(fires, start, t, resolution);
      if fires(t) && FarEnough(emitted, t, resolution) {
        emitted := emitted + [t];
      }
      t := t + 1;
    }
  }

  /** `next_schedules`: parse the crontab text, then enumerate the minutes at
      which it fires.  A malformed crontab yields None. */
  method NextSchedules(crontab: string, start: nat, stop: nat, resolution: nat) returns (r: Option<seq<nat>>)
    ensures Parse(crontab).None? ==> r.None?
    ensures Parse(crontab).Some? ==> r == Some(Schedules(Parse(crontab).value, start, stop, resolution))
  {
    var parsed := Parse(crontab);
    if parsed.None? {
      return None;
    }
    var emitted := Enumerate(Fires(parsed.value), start, stop, resolution);
    return Some(emitted);
  }

  // ---------------------------------------------------------------- properties

  /** Every occurrence lies in the window, matches the expression, and they ascend. */
  lemma SchedulesSound(e: CronSpec, start: nat, stop: nat, resolution: nat)
    ensures StrictlyIncreasing(Schedules(e, start, stop, resolution))
    ensures forall t :: t in Schedules(e, start, stop, resolution) ==> start <= t < stop && Matches(e, t)
  {
    MatchingSpec(e, start, stop);
    ThinSpec(Matching(e, start, stop), resolution);
  }

  /** Consecutive occurrences are at least `resolution` seconds apart. */
  lemma {:induction false} ThinGaps(s: seq<nat>, resolution: nat)
    ensures forall i :: 0 <= i < |Thin(s, resolution)| - 1 ==>
      (Thin(s, resolution)[i + 1] - Thin(s, resolution)[i]) * SecondsPerMinute >= resolution
    decreases |s|
  {
    if s != [] {
      ThinGaps(s[..|s| - 1], resolution);
    }
  }

  /** Any two occurrences, not only consecutive ones, are at least `resolution` seconds apart. */
  lemma {:induction false} ThinSpaced(s: seq<nat>, resolution: nat)
    requires StrictlyIncreasing(s)
    ensures forall i, j :: 0 <= i < j < |Thin(s, resolution)| ==>
      (Thin(s, resolution)[j] - Thin(s, resolution)[i]) * SecondsPerMinute >= resolution
  {
    var r := Thin(s, resolution);
    ThinGaps(s, resolution);
    forall i, j | 0 <= i < j < |r| ensures (r[j] - r[i]) * SecondsPerMinute >= resolution {
      var k := j - 1;
      while k > i
        invariant i <= k < j
        invariant (r[j] - r[k]) * SecondsPerMinute >= resolution
        decreases k
      {
        assert (r[k] - r[k - 1]) * SecondsPerMinute >= 0;
        k := k - 1;
      }
    }
  }

  /** The first match is always emitted. */
  lemma {:induction false} ThinKeepsFirst(s: seq<nat>, resolution: nat)
    requires |s| > 0
    ensures |Thin(s, resolution)| > 0 && Thin(s, resolution)[0] == s[0]
    decreases |s|
  {
    if |s| > 1 {
      ThinKeepsFirst(s[..|s| - 1], resolution);
    }
  }

  /** A match that is not emitted comes less than `resolution` seconds after an emitted one. */
  lemma {:induction false} ThinDropsOnlyClose(s: seq<nat>, resolution: nat, x: nat)
    requires StrictlyIncreasing(s) && x in s && x !in Thin(s, resolution)
    ensures exists y :: y in Thin(s, resolution) && y < x && (x - y) * SecondsPerMinute < resolution
    decreases |s|
  {
    var init := s[..|s| - 1];
    var p := Thin(init, resolution);
    var t := s[|s| - 1];
    ThinSpec(init, resolution);
    if x == t {
      assert !FarEnough(p, t, resolution);
      var y := p[|p| - 1];
      assert y in init;
      assert y in Thin(s, resolution);
    } else {
      assert x in init;
      assert x !in p;
      ThinDropsOnlyClose(init, resolution, x);
      var y :| y in p && y < x && (x - y) * SecondsPerMinute < resolution;
      assert y in Thin(s, resolution);
    }
  }

  /** At a resolution of one minute or less nothing is dropped. */
  lemma {:induction false} ThinFine(s: seq<nat>, resolution: nat)
    requires StrictlyIncreasing(s) && resolution <= SecondsPerMinute
    ensures Thin(s, resolution) == s
    decreases |s|
  {
    if |s| > 0 {
      var init := s[..|s| - 1];
      ThinFine(init, resolution);
      assert init + [s[|s| - 1]] == s;
    }
  }

  /** Two ascending sequences with the same elements are equal. */
  lemma {:induction false} IncreasingUnique(x: seq<nat>, y: seq<nat>)
    requires StrictlyIncreasing(x) && StrictlyIncreasing(y)
    requires forall t :: t in x <==> t in y
    ensures x == y
    decreases |x|
  {
    if |x| > 0 {
      assert x[0] in y;
    }
    if |y| > 0 {
      assert y[0] in x;
    }
    if |x| > 0 {
      assert x[0] == y[0] by {
        assert y[0] in x && x[0] in y;
      }
      forall t | t in x[1..] ensures t in y[1..] {
        assert t in y && t != y[0];
      }
      forall t | t in y[1..] ensures t in x[1..] {
        assert t in x && t != x[0];
      }
      IncreasingUnique(x[1..], y[1..]);
      assert x == [x[0]] + x[1..] && y == [y[0]] + y[1..];
    }
  }
}
