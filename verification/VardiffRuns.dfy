// Whole runs of the difficulty controller: limits, spacing and growth.

module VardiffRuns {
  import opened Common
  import opened Vardiff

  function Final(s: State, es: seq<Event>): State
    requires Valid(s)
    decreases es
  {
    if es == [] then s
    else
      StepKeepsValid(s, es[0]);
      Final(Step(s, es[0]).0, es[1..])
  }

  function Changes(s: State, es: seq<Event>): seq<Change>
    requires Valid(s)
    decreases es
  {
    if es == [] then []
    else
      StepKeepsValid(s, es[0]);
      var (t, c) := Step(s, es[0]);
      (if c.Some? then [c.value] else []) + Changes(t, es[1..])
  }

  // The clock never runs backwards.
  ghost predicate Monotone(from: real, es: seq<Event>)
    decreases es
  {
    es == [] || (from <= es[0].at && Monotone(es[0].at, es[1..]))
  }

  function End(from: real, es: seq<Event>): real
    decreases es
  {
    if es == [] then from else End(es[0].at, es[1..])
  }

  lemma StepKeepsValid(s: State, e: Event)
    requires Valid(s)
    ensures var (t, c) := Step(s, e);
      && Valid(t) && t.target == s.target && t.min == s.min && t.max == s.max
      && t.difficulty <= 2.0 * s.difficulty && s.difficulty <= 2.0 * t.difficulty
      && (c == None ==> t.difficulty == s.difficulty)
  {
    ComputeKeepsValid(Count(s), e.at, RateLimit);
    match Fires(Count(s), e.at) {
      case None =>
      case Some(trigger) => ComputeKeepsValid(Count(s), e.at, trigger);
    }
  }

  // Over every run the difficulty stays within the limits set at the start,
  // and the average stays in the steady band.
  lemma {:induction false} RunKeepsLimits(s: State, es: seq<Event>)
    requires Valid(s)
    ensures var t := Final(s, es);
      && s.min <= t.difficulty <= s.max && 0.25 <= t.ema <= 4.0
      && Valid(t) && t.min == s.min && t.max == s.max && t.target == s.target
    ensures forall i | 0 <= i < |Changes(s, es)| :: s.min <= Changes(s, es)[i].after <= s.max
    decreases es
  {
    if es != [] {
      StepKeepsValid(s, es[0]);
      RunKeepsLimits(Step(s, es[0]).0, es[1..]);
    }
  }

  // What one event does to the times: the guards on both retarget clocks.
  lemma StepTimes(s: State, e: Event)
    requires Valid(s)
    ensures var (t, c) := Step(s, e);
      match c
      case None => t.lastRetarget == s.lastRetarget && t.lastEarly == s.lastEarly
      case Some(change) =>
        && change.at == e.at == t.lastRetarget
        && e.at - s.lastRetarget >= MIN_RETARGET_INTERVAL
        && t.lastEarly == (if change.trigger == Early then Some(e.at) else s.lastEarly)
        && (change.trigger == Early && s.lastEarly.Some? ==> e.at - s.lastEarly.value >= EARLY_TRIGGER_COOLDOWN)
  {
  }

  // The times of the early-triggered retargets of a run.
  function EarlyTimes(cs: seq<Change>): seq<real> {
    if cs == [] then []
    else (if cs[0].trigger == Early then [cs[0].at] else []) + EarlyTimes(cs[1..])
  }

  ghost predicate Spaced(times: seq<real>, gap: real) {
    forall i, j | 0 <= i < j < |times| :: times[j] - times[i] >= gap * (j - i) as real
  }

  ghost predicate SpacedAfter(from: real, times: seq<real>, gap: real) {
    forall i | 0 <= i < |times| :: times[i] - from >= gap * (i + 1) as real
  }

  function Times(cs: seq<Change>): seq<real> {
    seq(|cs|, i requires 0 <= i < |cs| => cs[i].at)
  }

  lemma PrependAfter(from: real, t: real, times: seq<real>, gap: real)
    requires t - from >= gap && SpacedAfter(t, times, gap)
    ensures SpacedAfter(from, [t] + times, gap)
  {
    var all := [t] + times;
    forall i | 0 <= i < |all| ensures all[i] - from >= gap * (i + 1) as real {
      if i > 0 { assert times[i - 1] - t >= gap * i as real; }
    }
  }

  lemma Prepend(t: real, times: seq<real>, gap: real)
    requires Spaced(times, gap) && SpacedAfter(t, times, gap)
    ensures Spaced([t] + times, gap)
  {
    var all := [t] + times;
    forall i, j | 0 <= i < j < |all| ensures all[j] - all[i] >= gap * (j - i) as real {
      if i > 0 { assert times[j - 1] - times[i - 1] >= gap * (j - i) as real; }
      else { assert times[j - 1] - t >= gap * j as real; }
    }
  }

  // Retargets of one run are at least half a second apart, the first one
  // counted from the last retarget (or the construction) before the run.
  lemma {:induction false} RetargetsAreSpaced(s: State, es: seq<Event>)
    requires Valid(s)
    ensures Spaced(Times(Changes(s, es)), MIN_RETARGET_INTERVAL)
    ensures SpacedAfter(s.lastRetarget, Times(Changes(s, es)), MIN_RETARGET_INTERVAL)
    decreases es
  {
    if es != [] {
      StepKeepsValid(s, es[0]);
      StepTimes(s, es[0]);
      var (t, c) := Step(s, es[0]);
      RetargetsAreSpaced(t, es[1..]);
      var rest := Times(Changes(t, es[1..]));
      if c.Some? {
        Prepend(es[0].at, rest, MIN_RETARGET_INTERVAL);
        PrependAfter(s.lastRetarget, es[0].at, rest, MIN_RETARGET_INTERVAL);
        assert Times(Changes(s, es)) == [es[0].at] + rest;
      } else {
        assert Changes(s, es) == Changes(t, es[1..]);
      }
    }
  }

  // Early-triggered retargets are at least twelve seconds apart.
  lemma {:induction false} EarlyRetargetsAreSpaced(s: State, es: seq<Event>)
    requires Valid(s)
    ensures Spaced(EarlyTimes(Changes(s, es)), EARLY_TRIGGER_COOLDOWN)
    ensures s.lastEarly.Some? ==>
      SpacedAfter(s.lastEarly.value, EarlyTimes(Changes(s, es)), EARLY_TRIGGER_COOLDOWN)
    decreases es
  {
    if es != [] {
      StepKeepsValid(s, es[0]);
      StepTimes(s, es[0]);
      var (t, c) := Step(s, es[0]);
      EarlyRetargetsAreSpaced(t, es[1..]);
      var rest := Changes(t, es[1..]);
      if c.Some? {
        assert Changes(s, es)[0] == c.value && Changes(s, es)[1..] == rest;
        if c.value.trigger == Early {
          Prepend(es[0].at, EarlyTimes(rest), EARLY_TRIGGER_COOLDOWN);
          if s.lastEarly.Some? {
            PrependAfter(s.lastEarly.value, es[0].at, EarlyTimes(rest), EARLY_TRIGGER_COOLDOWN);
          }
        }
      } else {
        assert Changes(s, es) == rest;
      }
    }
  }

  // d * 2^n.
  function Doubled(d: real, n: nat): real {
    if n == 0 then d else 2.0 * Doubled(d, n - 1)
  }

  lemma {:induction false} DoubledGrows(d: real, d': real, m: nat, n: nat)
    requires 0.0 <= d <= d' && m <= n
    ensures d <= Doubled(d, m) <= Doubled(d', n)
  {
    if m > 0 { DoubledGrows(d, d', m - 1, n - 1); }
    else if n > 0 { DoubledGrows(d, d', 0, n - 1); }
  }

  lemma {:induction false} DoubledOnce(d: real, n: nat)
    ensures Doubled(2.0 * d, n) == Doubled(d, n + 1)
  {
    if n > 0 { DoubledOnce(d, n - 1); }
  }

  // Two difficulties no further apart than a factor of 2^n either way.
  ghost predicate WithinDoublings(d: real, d': real, n: nat) {
    d' <= Doubled(d, n) && d <= Doubled(d', n)
  }

  lemma OneMoreDoubling(d: real, d': real, d'': real, n: nat)
    requires 0.0 < d && 0.0 < d' && d' <= 2.0 * d && d <= 2.0 * d' && WithinDoublings(d', d'', n)
    ensures WithinDoublings(d, d'', n + 1)
  {
    DoubledGrows(d', 2.0 * d, n, n);
    DoubledOnce(d, n);
  }

  // n retargets move the difficulty by a factor of at most 2^n either way.
  lemma {:induction false} GrowthPerRetarget(s: State, es: seq<Event>)
    requires Valid(s)
    ensures WithinDoublings(s.difficulty, Final(s, es).difficulty, |Changes(s, es)|)
    decreases es
  {
    if es != [] {
      StepKeepsValid(s, es[0]);
      var (t, c) := Step(s, es[0]);
      GrowthPerRetarget(t, es[1..]);
      if c.Some? {
        OneMoreDoubling(s.difficulty, t.difficulty, Final(s, es).difficulty, |Changes(t, es[1..])|);
      }
    }
  }

  lemma {:induction false} TimesWithinRun(s: State, es: seq<Event>, from: real)
    requires Valid(s) && Monotone(from, es)
    ensures from <= End(from, es)
    ensures forall i | 0 <= i < |Changes(s, es)| :: from <= Changes(s, es)[i].at <= End(from, es)
    decreases es
  {
    if es != [] {
      StepKeepsValid(s, es[0]);
      StepTimes(s, es[0]);
      TimesWithinRun(Step(s, es[0]).0, es[1..], es[0].at);
    }
  }

  // How many half seconds fit between two times.
  function HalfSeconds(from: real, to: real): int {
    ((to - from) / MIN_RETARGET_INTERVAL).Floor
  }

  lemma RetargetCount(s: State, es: seq<Event>)
    requires Valid(s) && Monotone(s.lastRetarget, es)
    ensures |Changes(s, es)| <= HalfSeconds(s.lastRetarget, End(s.lastRetarget, es))
  {
    var cs := Changes(s, es);
    TimesWithinRun(s, es, s.lastRetarget);
    RetargetsAreSpaced(s, es);
    if cs != [] {
      var last := Times(cs)[|cs| - 1];
      assert last - s.lastRetarget >= MIN_RETARGET_INTERVAL * |cs| as real;
    }
  }

  // A tracker that last retargeted at time s.lastRetarget has, t seconds later,
  // made at most floor(t / 0.5) retargets, so its difficulty is within a factor
  // 2^floor(t / 0.5) of where it was, whatever shares arrived.
  lemma GrowthOverTime(s: State, es: seq<Event>)
    requires Valid(s) && Monotone(s.lastRetarget, es)
    ensures var steps := HalfSeconds(s.lastRetarget, End(s.lastRetarget, es));
      && |Changes(s, es)| <= steps
      && WithinDoublings(s.difficulty, Final(s, es).difficulty, steps)
  {
    RetargetCount(s, es);
    GrowthPerRetarget(s, es);
    RunKeepsLimits(s, es);
    var n, steps := |Changes(s, es)|, HalfSeconds(s.lastRetarget, End(s.lastRetarget, es));
    DoubledGrows(s.difficulty, s.difficulty, n, steps);
    DoubledGrows(Final(s, es).difficulty, Final(s, es).difficulty, n, steps);
  }

  // ----- windows and triggers

  // The event gets past the triggers and the half-second guard.
  predicate Measures(s: State, e: Event) {
    && (e.Force? || Fires(Count(s), e.at).Some?)
    && e.at - s.lastRetarget >= MIN_RETARGET_INTERVAL
  }

  // The shares of all windows closed by a measurement during the run.
  function SharesInClosedWindows(s: State, es: seq<Event>): nat
    requires Valid(s)
    decreases es
  {
    if es == [] then 0
    else
      StepKeepsValid(s, es[0]);
      (if Measures(s, es[0]) then s.shares + 1 else 0) + SharesInClosedWindows(Step(s, es[0]).0, es[1..])
  }

  // A measurement closes the window at its own time, whatever its verdict.
  lemma MeasurementClosesWindow(s: State, e: Event)
    requires Valid(s)
    ensures var t := Step(s, e).0;
      if Measures(s, e) then t.shares == 0 && t.windowStart == e.at else t == Count(s)
  {
  }

  // Every share is counted in exactly one window.
  lemma {:induction false} SharesAreConserved(s: State, es: seq<Event>)
    requires Valid(s)
    ensures s.shares + |es| == SharesInClosedWindows(s, es) + Final(s, es).shares
    decreases es
  {
    if es != [] {
      StepKeepsValid(s, es[0]);
      MeasurementClosesWindow(s, es[0]);
      SharesAreConserved(Step(s, es[0]).0, es[1..]);
    }
  }

  // The early trigger fires only on a measured rate above four times the target.
  lemma EarlyMeansFlood(s: State, now: real)
    requires Valid(s) && Fires(s, now) == Some(Early)
    ensures SharesPerMinute(s, now) > 4.0 * s.target && SharesPerMinute(s, now) / s.target > 4.0
  {
    var elapsed, n := now - s.windowStart, s.shares as real;
    var perSecond := n / elapsed;
    assert perSecond * elapsed == n > s.target * elapsed / 60.0 * 4.0;
    assert (perSecond - s.target / 60.0 * 4.0) * elapsed > 0.0;
    assert SharesPerMinute(s, now) == perSecond * 60.0;
    var ratio := SharesPerMinute(s, now) / s.target;
    assert ratio * s.target == perSecond * 60.0;
    assert (ratio - 4.0) * s.target > 0.0;
  }

  // So an early-triggered retarget is a ramp and never lowers the difficulty.
  lemma EarlyOnlyRaises(s: State, e: Event)
    requires Valid(s) && Step(s, e).1.Some? && Step(s, e).1.value.trigger == Early
    ensures var c := Step(s, e).1.value;
      c.phase == Ramp && c.after >= c.before && (c.after == c.before <==> s.difficulty == s.max)
  {
    EarlyMeansFlood(Count(s), e.at);
    assert Judge(Count(s), SharesPerMinute(Count(s), e.at)) == Move(RealMin(2.0 * s.difficulty, s.max), 1.0, Ramp);
  }
}
