// Which exact miners are ramped without end: the number of ramps of a run is
// bounded unless the equilibrium lies beyond a limit and no measurement on the
// way to that limit, nor the one at it, falls into the hard stable zone.

module VardiffRunaway {
  import opened Common
  import opened Vardiff
  import opened VardiffRuns
  import opened VardiffSettling

  // The rate the controller leaves alone, whatever the target rate is.
  predicate InZone(s: State, k: real)
    requires Valid(s)
  {
    10.0 <= k / s.difficulty <= 50.0
  }

  // Too fast for the highest difficulty, and slower than the zone already or
  // faster than it even there; or the same at the other end.
  predicate RunsUp(s: State, k: real)
    requires Valid(s)
  {
    Equilibrium(s, k) > 4.0 * s.max && (k / s.difficulty < 10.0 || k / s.max > 50.0)
  }

  predicate RunsDown(s: State, k: real)
    requires Valid(s)
  {
    Equilibrium(s, k) < 0.25 * s.min && (k / s.difficulty > 50.0 || k / s.min < 10.0)
  }

  predicate Runaway(s: State, k: real)
    requires Valid(s)
  {
    RunsUp(s, k) || RunsDown(s, k)
  }

  lemma QuotientShrinks(k: real, a: real, b: real)
    requires k > 0.0 && 0.0 < a <= b
    ensures k / b <= k / a
    ensures b <= 2.0 * a ==> k / a <= 2.0 * (k / b)
  {
    var x, y := k / a, k / b;
    assert x * a == k == y * b;
    assert y * (b - a) >= 0.0;
    assert (x - y) * a >= 0.0;
    if b <= 2.0 * a {
      assert y * (2.0 * a - b) >= 0.0;
      assert (2.0 * y - x) * a >= 0.0;
    }
  }

  // ----- how many measurements a run makes

  function Measured(s: State, es: seq<Event>): nat
    requires Valid(s)
    decreases es
  {
    if es == [] then 0
    else
      StepKeepsValid(s, es[0]);
      (if Measures(s, es[0]) then 1 else 0) + Measured(Step(s, es[0]).0, es[1..])
  }

  // Outside the band and outside the zone, every measurement ramps.
  lemma OutsideRamps(s: State, e: Event, k: real)
    requires Valid(s) && k > 0.0 && Outside(s, k) && !InZone(s, k)
    requires Measures(s, e) && SharesPerMinute(Count(s), e.at) == k / s.difficulty
    ensures var (t, c) := Step(s, e);
      Valid(t) && Adjusts(s, k, t, c) && c.Some? && c.value.phase == Ramp
  {
    StepKeepsValid(s, e);
    ExactStep(s, e, k);
    RampLanding(s, k);
  }

  // ----- beyond a limit and never in the zone: every measurement ramps

  lemma RunawayIsOutside(s: State, k: real)
    requires Valid(s) && k > 0.0 && Runaway(s, k)
    ensures Outside(s, k) && !InZone(s, k)
  {
    RatioAgainst(s, k, 4.0);
    RatioAgainst(s, k, 0.25);
    QuotientShrinks(k, s.difficulty, s.max);
    QuotientShrinks(k, s.min, s.difficulty);
  }

  lemma RunawayStep(s: State, e: Event, k: real)
    requires Valid(s) && k > 0.0 && Runaway(s, k)
    requires Measures(s, e) && SharesPerMinute(Count(s), e.at) == k / s.difficulty
    ensures var (t, c) := Step(s, e);
      Valid(t) && Runaway(t, k) && c.Some? && c.value.phase == Ramp
  {
    RunawayIsOutside(s, k);
    OutsideRamps(s, e, k);
    var (t, c) := Step(s, e);
    RampApproaches(s, k, t, c);
    if RunsUp(s, k) { QuotientShrinks(k, s.difficulty, t.difficulty); }
    else { QuotientShrinks(k, t.difficulty, s.difficulty); }
  }

  lemma {:induction false} RunawayRamps(s: State, es: seq<Event>, k: real)
    requires Valid(s) && k > 0.0 && Runaway(s, k) && Exact(s, es, k)
    ensures Ramps(Changes(s, es)) == Measured(s, es)
    decreases es
  {
    if es != [] {
      StepKeepsValid(s, es[0]);
      ExactStep(s, es[0], k);
      var (t, c) := Step(s, es[0]);
      if Measures(s, es[0]) { RunawayStep(s, es[0], k); }
      RunawayRamps(t, es[1..], k);
      RampsOfCons(c, Changes(t, es[1..]));
    }
  }

  // ----- runs with as many measurements as one likes

  // Nobody forces a measurement.
  predicate OnlyShares(es: seq<Event>) {
    forall i | 0 <= i < |es| :: es[i].Share?
  }

  // The run is exact, of shares alone, its clock never runs backwards, and it
  // measures n times.
  ghost predicate Fits(s: State, es: seq<Event>, k: real, n: nat)
    requires Valid(s)
  {
    Exact(s, es, k) && OnlyShares(es) && Monotone(s.windowStart, es) && Measured(s, es) == n
  }

  // A share at the very start of the window is counted without a measurement.
  predicate Waits(s: State) {
    s.interval > 0.0 || s.windowStart == s.lastRetarget
  }

  function Shares(n: nat, at: real): seq<Event> {
    if n == 0 then [] else [Share(at)] + Shares(n - 1, at)
  }

  lemma {:induction false} AfterShares(s: State, m: nat, es: seq<Event>, k: real, n: nat)
    requires Valid(s) && Waits(s) && Fits(s.(shares := s.shares + m), es, k, n)
    ensures Fits(s, Shares(m, s.windowStart) + es, k, n)
    ensures Changes(s, Shares(m, s.windowStart) + es) == Changes(s.(shares := s.shares + m), es)
    decreases m
  {
    if m == 0 {
      assert [] + es == es && s.(shares := s.shares) == s;
    } else {
      var all := Shares(m, s.windowStart) + es;
      assert all[0] == Share(s.windowStart) && all[1..] == Shares(m - 1, s.windowStart) + es;
      assert Step(s, all[0]) == (Count(s), None) && !Measures(s, all[0]);
      assert Count(s).(shares := s.shares + 1 + (m - 1)) == s.(shares := s.shares + m);
      AfterShares(Count(s), m - 1, es, k, n);
    }
  }

  // How many shares to wait for, and until when, to measure the exact rate.
  lemma ExactMoment(s: State, k: real) returns (m: nat, at: real)
    requires Valid(s) && k > 0.0
    ensures at >= s.windowStart && at - s.windowStart >= s.interval && at - s.lastRetarget >= MIN_RETARGET_INTERVAL
    ensures Rate(s.shares + m + 1, at - s.windowStart) == k / s.difficulty
  {
    var rate := k / s.difficulty;
    var guard := RealMax(MIN_RETARGET_INTERVAL, MIN_RETARGET_INTERVAL + s.lastRetarget - s.windowStart);
    var wait := RealMax(guard, s.interval);
    assert wait * rate / 60.0 >= 0.0;
    m := (wait * rate / 60.0).Floor + 1;
    var n := (s.shares + m + 1) as real;
    var elapsed := n * 60.0 / rate;
    RateInverts(n, rate);
    LongEnough(n, rate, wait);
    at := s.windowStart + elapsed;
  }

  lemma LongEnough(n: real, rate: real, wait: real)
    requires rate > 0.0 && n >= wait * rate / 60.0
    ensures n * 60.0 / rate >= wait
  {
    var t := n * 60.0 / rate;
    assert t * rate == n * 60.0;
    assert (t - wait) * rate >= 0.0;
  }

  lemma MeasuringRun(s: State, k: real, n: nat) returns (es: seq<Event>)
    requires Valid(s) && k > 0.0
    requires s.interval > 0.0 || (s.windowStart == s.lastRetarget && Runaway(s, k))
    ensures Fits(s, es, k, n)
    decreases n
  {
    es := [];
    if n > 0 {
      var m, at := ExactMoment(s, k);
      var t, e := s.(shares := s.shares + m), Share(at);
      var (u, c) := Step(t, e);
      StepKeepsValid(t, e);
      MeasurementClosesWindow(t, e);
      if s.interval <= 0.0 {
        RunawayStep(t, e, k);
        StepTimes(t, e);
      }
      var rest := MeasuringRun(u, k, n - 1);
      assert ([e] + rest)[1..] == rest;
      AfterShares(s, m, [e] + rest, k, n);
      es := Shares(m, s.windowStart) + ([e] + rest);
    }
  }

  // ----- otherwise the ramps are bounded

  ghost predicate RampsAtMost(s: State, k: real, n: nat)
    requires Valid(s)
  {
    forall es | Exact(s, es, k) :: Ramps(Changes(s, es)) <= n
  }

  // Some number of doublings takes one difficulty past another.
  lemma EnoughDoublings(a: real, b: real) returns (n: nat)
    requires a > 0.0
    ensures b <= Doubled(a, n)
  {
    var q := RealMax(b / a, 0.0);
    assert b / a * a == b;
    SignOfProduct(q - b / a, a);
    n := q.Floor + 1;
    DoubledIsLarge(a, n);
    SignOfProduct(n as real - q, a);
  }

  lemma SomeNear(d: real, e: real) returns (n: nat)
    requires d > 0.0 && e > 0.0
    ensures Near(d, e, n)
  {
    var i := EnoughDoublings(4.0 * d, e);
    var j := EnoughDoublings(4.0 * e, d);
    DoubledGrows(4.0 * d, 4.0 * d, i, i + j);
    DoubledGrows(4.0 * e, 4.0 * e, j, i + j);
    n := i + j;
  }

  lemma {:induction false} DoubledIsLarge(a: real, n: nat)
    requires a > 0.0
    ensures Doubled(a, n) >= a && Doubled(a, n) >= n as real * a
  {
    if n > 0 { DoubledIsLarge(a, n - 1); }
  }

  // Upward, from above the zone: at or before the limit the rate enters it.
  lemma {:induction false} UpIsBounded(s: State, es: seq<Event>, k: real, n: nat)
    requires Valid(s) && k > 0.0 && Exact(s, es, k)
    requires Equilibrium(s, k) > 4.0 * s.max && k / s.difficulty >= 10.0 && k / s.max <= 50.0
    requires s.max <= Doubled(s.difficulty, n)
    ensures Ramps(Changes(s, es)) <= n + Detour(s, k)
    decreases es
  {
    if InZone(s, k) {
      StableZoneFreezes(s, es, k);
    } else if es != [] {
      StepKeepsValid(s, es[0]);
      ExactStep(s, es[0], k);
      var (t, c) := Step(s, es[0]);
      RampsOfCons(c, Changes(t, es[1..]));
      if !Measures(s, es[0]) {
        UpIsBounded(t, es[1..], k, n);
      } else {
        RatioAgainst(s, k, 4.0);
        OutsideRamps(s, es[0], k);
        UpRamp(s, k, t, c, n);
        UpIsBounded(t, es[1..], k, if Detour(s, k) == 1 then n else n - 1);
      }
    }
  }

  lemma UpRamp(s: State, k: real, t: State, c: Option<Change>, n: nat)
    requires Valid(s) && Valid(t) && k > 0.0 && Adjusts(s, k, t, c) && !InZone(s, k)
    requires Equilibrium(s, k) > 4.0 * s.max && k / s.difficulty >= 10.0 && k / s.max <= 50.0
    requires s.max <= Doubled(s.difficulty, n)
    ensures k / t.difficulty >= 10.0 && Detour(t, k) == 0
    ensures Detour(s, k) == 1 ==> s.max <= Doubled(t.difficulty, n)
    ensures Detour(s, k) == 0 ==> n >= 1 && s.max <= Doubled(t.difficulty, n - 1)
  {
    var d := s.difficulty;
    RatioAgainst(s, k, 4.0);
    RampLanding(s, k);
    assert d < s.max && d < t.difficulty <= 2.0 * d;
    QuotientShrinks(k, d, t.difficulty);
    DoubledGrows(d, t.difficulty, n, n);
    if Detour(s, k) == 0 {
      DoubledOnce(d, n - 1);
      DoubledGrows(t.difficulty, t.difficulty, 0, n - 1);
    }
  }

  // Downward, from below the zone.
  lemma {:induction false} DownIsBounded(s: State, es: seq<Event>, k: real, n: nat)
    requires Valid(s) && k > 0.0 && Exact(s, es, k)
    requires Equilibrium(s, k) < 0.25 * s.min && k / s.difficulty <= 50.0 && k / s.min >= 10.0
    requires s.difficulty <= Doubled(s.min, n)
    ensures Ramps(Changes(s, es)) <= n + Detour(s, k)
    decreases es
  {
    if InZone(s, k) {
      StableZoneFreezes(s, es, k);
    } else if es != [] {
      StepKeepsValid(s, es[0]);
      ExactStep(s, es[0], k);
      var (t, c) := Step(s, es[0]);
      RampsOfCons(c, Changes(t, es[1..]));
      if !Measures(s, es[0]) {
        DownIsBounded(t, es[1..], k, n);
      } else {
        RatioAgainst(s, k, 0.25);
        OutsideRamps(s, es[0], k);
        DownRamp(s, k, t, c, n);
        DownIsBounded(t, es[1..], k, if Detour(s, k) == 1 then n else n - 1);
      }
    }
  }

  lemma DownRamp(s: State, k: real, t: State, c: Option<Change>, n: nat)
    requires Valid(s) && Valid(t) && k > 0.0 && Adjusts(s, k, t, c) && !InZone(s, k)
    requires Equilibrium(s, k) < 0.25 * s.min && k / s.difficulty <= 50.0 && k / s.min >= 10.0
    requires s.difficulty <= Doubled(s.min, n)
    ensures k / t.difficulty <= 50.0 && Detour(t, k) == 0
    ensures Detour(s, k) == 1 ==> t.difficulty <= Doubled(s.min, n)
    ensures Detour(s, k) == 0 ==> n >= 1 && t.difficulty <= Doubled(s.min, n - 1)
  {
    var d := s.difficulty;
    RatioAgainst(s, k, 0.25);
    RampLanding(s, k);
    assert s.min < d && t.difficulty < d <= 2.0 * t.difficulty;
    QuotientShrinks(k, t.difficulty, d);
    if Detour(s, k) == 0 { DoubledGrows(s.min, s.min, 0, n - 1); }
  }

  // In the band nothing ramps; a move of the average can leave it again, but
  // then a single doubling separates the difficulty from it.
  lemma BandStep(s: State, e: Event, k: real)
    requires Valid(s) && k > 0.0 && !Outside(s, k)
    requires Measures(s, e) ==> SharesPerMinute(Count(s), e.at) == k / s.difficulty
    ensures var (t, c) := Step(s, e);
      && Valid(t) && t.target == s.target && t.min == s.min && t.max == s.max
      && (c.Some? ==> c.value.phase == Ema)
      && (c == None ==> t.difficulty == s.difficulty)
      && Reachable(t, k) && Near(t.difficulty, Equilibrium(t, k), 1)
  {
    StepKeepsValid(s, e);
    ExactStep(s, e, k);
    RatioAgainst(s, k, 4.0);
    RatioAgainst(s, k, 0.25);
    NearByOne(s.difficulty, Step(s, e).0.difficulty, Equilibrium(s, k));
  }

  lemma NearByOne(d: real, d': real, e: real)
    requires 0.0 < d <= 2.0 * d' && d' <= 2.0 * d && 0.25 * d <= e <= 4.0 * d
    ensures Near(d', e, 1)
  {
    assert Doubled(4.0 * d', 1) == 8.0 * d' && Doubled(4.0 * e, 1) == 8.0 * e;
  }

  lemma {:induction false} InBandRamps(s: State, es: seq<Event>, k: real)
    requires Valid(s) && k > 0.0 && Exact(s, es, k) && !Outside(s, k)
    ensures Ramps(Changes(s, es)) <= 2
    decreases es
  {
    if es != [] {
      BandStep(s, es[0], k);
      var (t, c) := Step(s, es[0]);
      RampsOfCons(c, Changes(t, es[1..]));
      if Outside(t, k) { RampsAreBounded(t, es[1..], k, 1); }
      else { InBandRamps(t, es[1..], k); }
    }
  }

  lemma BoundedUnlessRunaway(s: State, k: real) returns (n: nat)
    requires Valid(s) && k > 0.0 && !Runaway(s, k)
    ensures RampsAtMost(s, k, n)
  {
    var d, e := s.difficulty, Equilibrium(s, k);
    RatioTimesDifficulty(s, k);
    if !Outside(s, k) {
      forall es | Exact(s, es, k) ensures Ramps(Changes(s, es)) <= 2 { InBandRamps(s, es, k); }
      n := 2;
    } else if Reachable(s, k) {
      var i := SomeNear(d, e);
      forall es | Exact(s, es, k) ensures Ramps(Changes(s, es)) <= i + 1 { RampsAreBounded(s, es, k, i); }
      n := i + 1;
    } else if e > 4.0 * s.max {
      var i := EnoughDoublings(d, s.max);
      forall es | Exact(s, es, k) ensures Ramps(Changes(s, es)) <= i + 1 { UpIsBounded(s, es, k, i); }
      n := i + 1;
    } else {
      var i := EnoughDoublings(s.min, d);
      forall es | Exact(s, es, k) ensures Ramps(Changes(s, es)) <= i + 1 { DownIsBounded(s, es, k, i); }
      n := i + 1;
    }
  }

  // ----- exactly when

  // Runs with any given number of ramps, all of them possible with shares alone
  // and a clock that never runs backwards.
  lemma RunawayRampsForever(s: State, k: real, n: nat) returns (es: seq<Event>)
    requires Valid(s) && k > 0.0 && Waits(s) && Runaway(s, k)
    ensures Exact(s, es, k) && OnlyShares(es) && Monotone(s.windowStart, es) && Ramps(Changes(s, es)) == n
  {
    es := MeasuringRun(s, k, n);
    RunawayRamps(s, es, k);
  }

  // From any state, the ramps of a constant miner are bounded exactly when it
  // does not run away.
  lemma RampsBoundedExactly(s: State, k: real)
    requires Valid(s) && k > 0.0 && Waits(s)
    ensures (exists n: nat :: RampsAtMost(s, k, n)) <==> !Runaway(s, k)
  {
    if Runaway(s, k) {
      forall n: nat ensures !RampsAtMost(s, k, n) {
        var es := RunawayRampsForever(s, k, n + 1);
      }
    } else {
      var n := BoundedUnlessRunaway(s, k);
    }
  }

  // For a fresh tracker this can be read off its parameters.
  lemma FreshBoundedExactly(target: real, interval: real, initial: real, now: real, k: real)
    requires target > 0.0 && 0.0 < initial <= MAX_DIFFICULTY && k > 0.0
    ensures var s := Fresh(target, interval, initial, now);
      (forall n: nat :: !RampsAtMost(s, k, n)) <==>
        || (k / target > 4.0 * MAX_DIFFICULTY && (k / initial < 10.0 || k / MAX_DIFFICULTY > 50.0))
        || (k / target < 0.25 * RealMin(initial, 1.0) && (k / initial > 50.0 || k / RealMin(initial, 1.0) < 10.0))
  {
    RampsBoundedExactly(Fresh(target, interval, initial, now), k);
  }

  // When a miner changes its rate to k after any run at all, the ramps that
  // follow are bounded unless the new rate runs away from the difficulty reached.
  lemma RateChange(s: State, es: seq<Event>, k: real)
    requires Valid(s) && k > 0.0
    ensures var t := Final(s, es);
      && Valid(t) && t.min == s.min && t.max == s.max && t.target == s.target
      && (!Runaway(t, k) ==> exists n: nat :: RampsAtMost(t, k, n))
      && (s.interval > 0.0 && Runaway(t, k) ==> forall n: nat :: !RampsAtMost(t, k, n))
      && (Reachable(s, k) ==> !Runaway(t, k))
  {
    RunKeepsLimits(s, es);
    IntervalStays(s, es);
    var t := Final(s, es);
    if !Runaway(t, k) { var n := BoundedUnlessRunaway(t, k); }
    else if s.interval > 0.0 { RampsBoundedExactly(t, k); }
  }

  lemma {:induction false} IntervalStays(s: State, es: seq<Event>)
    requires Valid(s)
    ensures Final(s, es).interval == s.interval
    decreases es
  {
    if es != [] {
      StepKeepsValid(s, es[0]);
      IntervalStays(Step(s, es[0]).0, es[1..]);
    }
  }
}
