// The difficulty of an exact miner does not only stop ramping: after enough
// measurements it has arrived in the steady band, unless the hard stable zone
// holds it somewhere else.

module VardiffArrival {
  import opened Common
  import opened Vardiff
  import opened VardiffRuns
  import opened VardiffRegion
  import opened VardiffSettling
  import opened VardiffRunaway

  // No measurement made outside the band reads 10 to 50 shares a minute.
  ghost predicate Unobstructed(s: State, es: seq<Event>, k: real)
    requires Valid(s)
    decreases es
  {
    es != [] ==>
      && (Measures(s, es[0]) && Outside(s, k) ==> !InZone(s, k))
      && (StepKeepsValid(s, es[0]); Unobstructed(Step(s, es[0]).0, es[1..], k))
  }

  lemma NotOutsideAtZero(s: State, k: real)
    requires Valid(s) && k > 0.0 && Near(s.difficulty, Equilibrium(s, k), 0)
    ensures !Outside(s, k)
  {
    RatioAgainst(s, k, 4.0);
    RatioAgainst(s, k, 0.25);
  }

  // After n doublings' worth of measurements, one more if the first move was a
  // reversal, a miner whose equilibrium is in reach has settled.
  lemma {:induction false} Arrives(s: State, es: seq<Event>, k: real, n: nat)
    requires Valid(s) && k > 0.0 && Exact(s, es, k) && Unobstructed(s, es, k)
    requires Reachable(s, k) && Near(s.difficulty, Equilibrium(s, k), n)
    requires Outside(s, k) || Settled(s, k)
    requires Measured(s, es) >= n + Detour(s, k)
    ensures Valid(Final(s, es)) && Settled(Final(s, es), k)
    decreases es
  {
    if Settled(s, k) {
      SettledForever(s, es, k);
    } else if es == [] {
      NotOutsideAtZero(s, k);
    } else {
      var (t, c) := Step(s, es[0]);
      StepKeepsValid(s, es[0]);
      ExactStep(s, es[0], k);
      if !Measures(s, es[0]) {
        Arrives(t, es[1..], k, n);
      } else {
        OutsideRamps(s, es[0], k);
        RampProgress(s, k, t, c, n);
        if Settled(t, k) { SettledForever(t, es[1..], k); }
        else if Detour(s, k) == 1 && Near(t.difficulty, Equilibrium(t, k), n) { Arrives(t, es[1..], k, n); }
        else { Arrives(t, es[1..], k, n - 1); }
      }
    }
  }

  // From construction, where no move has been made yet.
  lemma FreshTrackerArrives(target: real, interval: real, initial: real, now: real, es: seq<Event>, k: real, n: nat)
    requires target > 0.0 && 0.0 < initial <= MAX_DIFFICULTY && k > 0.0
    requires var s := Fresh(target, interval, initial, now);
      && Exact(s, es, k) && Unobstructed(s, es, k) && Measured(s, es) >= n
      && Reachable(s, k) && Near(initial, k / target, n)
    ensures var t := Final(Fresh(target, interval, initial, now), es); Valid(t) && Settled(t, k)
  {
    var s := Fresh(target, interval, initial, now);
    if !Outside(s, k) { ResetIsInside(Ratio(s, k)); }
    Arrives(s, es, k, n);
  }

  // ----- for which targets the zone is no obstacle

  lemma ZoneIsInside(s: State, k: real)
    requires Valid(s) && k > 0.0 && 12.5 <= s.target <= 40.0 && InZone(s, k)
    ensures !Outside(s, k)
  {
    BandInShares(k / s.difficulty, Ratio(s, k), s.target);
  }

  lemma {:induction false} NothingInTheWay(s: State, es: seq<Event>, k: real)
    requires Valid(s) && k > 0.0 && 12.5 <= s.target <= 40.0
    ensures Unobstructed(s, es, k)
    decreases es
  {
    if es != [] {
      StepKeepsValid(s, es[0]);
      if InZone(s, k) { ZoneIsInside(s, k); }
      NothingInTheWay(Step(s, es[0]).0, es[1..], k);
    }
  }

  // For such targets the exclusion holds of every run, from any state.
  lemma ArrivesWithoutExclusion(s: State, es: seq<Event>, k: real, n: nat)
    requires Valid(s) && k > 0.0 && 12.5 <= s.target <= 40.0 && Exact(s, es, k)
    requires Reachable(s, k) && Near(s.difficulty, Equilibrium(s, k), n)
    requires Outside(s, k) || Settled(s, k)
    requires Measured(s, es) >= n + Detour(s, k)
    ensures Valid(Final(s, es)) && Settled(Final(s, es), k)
  {
    NothingInTheWay(s, es, k);
    Arrives(s, es, k, n);
  }

  // A miner above the band is faster than the zone when the target is not low,
  // and it never falls below the band.
  lemma {:induction false} NothingFromAbove(s: State, es: seq<Event>, k: real)
    requires Valid(s) && k > 0.0 && s.target >= 12.5 && Exact(s, es, k)
    requires Settled(s, k) || Ratio(s, k) > 4.0
    ensures Unobstructed(s, es, k)
    decreases es
  {
    if es != [] {
      StepKeepsValid(s, es[0]);
      ExactStep(s, es[0], k);
      var (t, c) := Step(s, es[0]);
      if Settled(s, k) {
        SettledStep(s, es[0], k);
      } else {
        AboveIsFast(s, k);
        if c.Some? { RampFromAbove(s, k, t, c); }
      }
      NothingFromAbove(t, es[1..], k);
    }
  }

  lemma AboveIsFast(s: State, k: real)
    requires Valid(s) && k > 0.0 && s.target >= 12.5 && Ratio(s, k) > 4.0
    ensures k / s.difficulty > 50.0
  {
    var rate, x := k / s.difficulty, Ratio(s, k);
    assert x * s.target == rate;
    assert (x - 4.0) * s.target > 0.0;
  }

  lemma RampFromAbove(s: State, k: real, t: State, c: Option<Change>)
    requires Valid(s) && Valid(t) && k > 0.0 && Ratio(s, k) > 4.0 && !InZone(s, k)
    requires Adjusts(s, k, t, c) && c.Some?
    ensures Settled(t, k) || Ratio(t, k) > 4.0
  {
    RampLanding(s, k);
    RampApproaches(s, k, t, c);
    RatioAgainst(s, k, 4.0);
    RatioAgainst(t, k, 1.0);
    if Ratio(t, k) <= 4.0 { ResetIsInside(Ratio(t, k)); }
  }

  // No rate inside the zone is as far out as the limits reach.
  lemma TargetTooHigh(s: State, k: real)
    requires Valid(s) && k > 0.0 && s.target > 200.0 * s.max && s.min >= 1.0 && Reachable(s, k)
    ensures k / s.difficulty > 50.0
  {
    var e, rate := k / s.target, k / s.difficulty;
    assert e * s.target == k == rate * s.difficulty;
    assert (e - 0.25) * s.target >= 0.0;
    assert (rate - 50.0) * s.difficulty > 0.0;
  }

  lemma {:induction false} NothingForHighTarget(s: State, es: seq<Event>, k: real)
    requires Valid(s) && k > 0.0 && s.target > 200.0 * s.max && s.min >= 1.0 && Reachable(s, k)
    ensures Unobstructed(s, es, k)
    decreases es
  {
    if es != [] {
      StepKeepsValid(s, es[0]);
      TargetTooHigh(s, k);
      NothingForHighTarget(Step(s, es[0]).0, es[1..], k);
    }
  }

  // A new tracker meets no obstacle at targets from 12.5 to 40 shares a minute,
  // nor at those out of all proportion to the highest difficulty.
  predicate Clear(target: real) {
    12.5 <= target <= 40.0 || target > 200.0 * MAX_DIFFICULTY
  }

  lemma FreshIsUnobstructed(s: State, es: seq<Event>, k: real)
    requires Valid(s) && k > 0.0 && Clear(s.target) && Reachable(s, k) && Exact(s, es, k)
    requires s == Fresh(s.target, s.interval, s.difficulty, s.windowStart)
    ensures Unobstructed(s, es, k)
  {
    if s.target <= 40.0 {
      NothingInTheWay(s, es, k);
    } else if s.difficulty >= 1.0 {
      NothingForHighTarget(s, es, k);
    } else {
      RatioAgainst(s, k, 0.25);
      if !Outside(s, k) { ResetIsInside(Ratio(s, k)); }
      NothingFromAbove(s, es, k);
    }
  }

  // A rate inside the zone and outside the band.
  ghost predicate Stalled(s: State, k: real) {
    && Valid(s) && k > 0.0 && s.interval > 0.0
    && Reachable(s, k) && Outside(s, k) && InZone(s, k)
  }

  // For any other target a new tracker can stall where it starts.
  lemma SomeStall(target: real) returns (initial: real, k: real)
    requires target > 0.0 && !Clear(target)
    ensures 0.0 < initial <= MAX_DIFFICULTY && Stalled(Fresh(target, 30.0, initial, 0.0), k)
  {
    var rate;
    if target < 12.5 { initial, rate := target, 50.0; }
    else if target <= MAX_DIFFICULTY { initial, rate := target, 10.0; }
    else { initial, rate := MAX_DIFFICULTY, 50.0; }
    k := rate * initial;
    ProductOverFactor(rate, initial);
    Compare(rate, 4.0, target);
    Compare(rate, 0.25, target);
    Compare(k, 0.25, target);
    Compare(k, 50.0, target);
  }

  lemma ProductOverFactor(a: real, b: real)
    requires b > 0.0
    ensures a * b / b == a
  {
    assert (a * b / b - a) * b == 0.0;
  }

  lemma StaysStalled(s: State, es: seq<Event>, k: real)
    requires Stalled(s, k) && Exact(s, es, k)
    ensures Valid(Final(s, es)) && Outside(Final(s, es), k)
  {
    StableZoneFreezes(s, es, k);
    RunKeepsLimits(s, es);
  }

  // From construction with the target, enough measurements bring every miner in
  // reach of its equilibrium into the band.
  ghost predicate AlwaysArrives(target: real) {
    forall interval, initial, now, es, k, n: nat |
      0.0 < initial <= MAX_DIFFICULTY && FreshRun(Fresh(target, interval, initial, now), es, k, n)
      :: var t := Final(Fresh(target, interval, initial, now), es); Valid(t) && Settled(t, k)
  }

  // An exact run of a miner n doublings from its band, with n measurements.
  ghost predicate FreshRun(s: State, es: seq<Event>, k: real, n: nat) {
    && Valid(s) && k > 0.0 && Reachable(s, k) && Near(s.difficulty, Equilibrium(s, k), n)
    && Exact(s, es, k) && Measured(s, es) >= n
  }

  lemma ArrivesExactly(target: real)
    requires target > 0.0
    ensures AlwaysArrives(target) <==> Clear(target)
  {
    if Clear(target) {
      forall interval, initial, now, es, k, n: nat |
        0.0 < initial <= MAX_DIFFICULTY && FreshRun(Fresh(target, interval, initial, now), es, k, n)
        ensures var t := Final(Fresh(target, interval, initial, now), es); Valid(t) && Settled(t, k)
      {
        FreshIsUnobstructed(Fresh(target, interval, initial, now), es, k);
        FreshTrackerArrives(target, interval, initial, now, es, k, n);
      }
    } else {
      var initial, k := SomeStall(target);
      var s := Fresh(target, 30.0, initial, 0.0);
      var n := SomeNear(s.difficulty, Equilibrium(s, k));
      var es := MeasuringRun(s, k, n);
      StaysStalled(s, es, k);
      assert FreshRun(Fresh(target, 30.0, initial, 0.0), es, k, n);
    }
  }
}
