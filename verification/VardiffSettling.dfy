// Convergence of the difficulty controller for a miner of constant hash rate:
// one whose measured share rate at difficulty d is exactly k / d.

module VardiffSettling {
  import opened Common
  import opened Vardiff
  import opened VardiffRuns
  import opened VardiffRegion

  // The ratio the controller measures, and the difficulty at which it is one.
  function Ratio(s: State, k: real): real
    requires Valid(s)
  {
    k / s.difficulty / s.target
  }

  function Equilibrium(s: State, k: real): real
    requires Valid(s)
  {
    k / s.target
  }

  // Every measurement of the run reads exactly k / difficulty.
  ghost predicate Exact(s: State, es: seq<Event>, k: real)
    requires Valid(s)
    decreases es
  {
    es != [] ==>
      && (Measures(s, es[0]) ==> SharesPerMinute(Count(s), es[0].at) == k / s.difficulty)
      && (StepKeepsValid(s, es[0]); Exact(Step(s, es[0]).0, es[1..], k))
  }

  // A miner that finds k / difficulty shares a minute sends its n-th share of a
  // window n * 60 * difficulty / k seconds into it, and that reads exactly.
  lemma ConstantRateIsExact(s: State, k: real)
    requires Valid(s) && k > 0.0
    ensures var seconds := (s.shares + 1) as real * 60.0 / (k / s.difficulty);
      seconds >= 0.01 ==> SharesPerMinute(Count(s), s.windowStart + seconds) == k / s.difficulty
  {
    var n, rate := (s.shares + 1) as real, k / s.difficulty;
    assert rate * s.difficulty == k;
    RateInverts(n, rate);
  }

  lemma RateInverts(n: real, rate: real)
    requires n > 0.0 && rate > 0.0
    ensures n * 60.0 / rate > 0.0 && n / (n * 60.0 / rate) * 60.0 == rate
  {
    var t := n * 60.0 / rate;
    assert t * rate == n * 60.0;
    var q := n / t;
    assert q * t == n;
    assert (q * 60.0 - rate) * t == 0.0;
  }

  function Ramps(cs: seq<Change>): nat {
    if cs == [] then 0 else (if cs[0].phase == Ramp then 1 else 0) + Ramps(cs[1..])
  }

  // ----- one step

  ghost predicate Still(s: State, t: State) {
    t.difficulty == s.difficulty && t.lastUp == s.lastUp
  }

  // The next state of an exact run, without the clocks.
  ghost predicate Adjusts(s: State, k: real, t: State, c: Option<Change>)
    requires Valid(s)
  {
    && t.target == s.target && t.min == s.min && t.max == s.max
    && match Judge(s, k / s.difficulty)
       case Hold(ema) => c == None && Still(s, t) && t.ema == ema
       case Move(d, ema, phase) =>
         && t.difficulty == Landing(s, d) && t.ema == ema && t.lastUp == Some(t.difficulty > s.difficulty)
         && c.Some? && c.value.phase == phase && c.value.before == s.difficulty && c.value.after == t.difficulty
  }

  lemma ExactStep(s: State, e: Event, k: real)
    requires Valid(s)
    requires Measures(s, e) ==> SharesPerMinute(Count(s), e.at) == k / s.difficulty
    ensures var (t, c) := Step(s, e);
      && t.target == s.target && t.min == s.min && t.max == s.max
      && if Measures(s, e) then Adjusts(s, k, t, c) else c == None && Still(s, t) && t.ema == s.ema
  {
    if Measures(s, e) {
      assert Judge(Count(s), k / s.difficulty) == Judge(s, k / s.difficulty);
      assert forall d :: Landing(Count(s), d) == Landing(s, d);
    }
  }

  lemma RatioTimesDifficulty(s: State, k: real)
    requires Valid(s) && k > 0.0
    ensures Ratio(s, k) > 0.0 && Ratio(s, k) * s.difficulty == Equilibrium(s, k) > 0.0
  {
    var x, d, e := Ratio(s, k), s.difficulty, Equilibrium(s, k);
    assert x * d * s.target == k == e * s.target;
    assert (x * d - e) * s.target == 0.0;
  }

  // Comparing the ratio with a constant is comparing the difficulty with the equilibrium.
  lemma RatioAgainst(s: State, k: real, c: real)
    requires Valid(s) && k > 0.0 && c > 0.0
    ensures Ratio(s, k) > c <==> Equilibrium(s, k) > c * s.difficulty
    ensures Ratio(s, k) < c <==> Equilibrium(s, k) < c * s.difficulty
  {
    RatioTimesDifficulty(s, k);
    assert Equilibrium(s, k) - c * s.difficulty == (Ratio(s, k) - c) * s.difficulty;
  }

  lemma RatioShrinks(s: State, t: State, k: real)
    requires Valid(s) && Valid(t) && k > 0.0 && t.target == s.target
    requires s.difficulty <= t.difficulty <= 1.25 * s.difficulty
    ensures 0.8 * Ratio(s, k) <= Ratio(t, k) <= Ratio(s, k)
  {
    RatioTimesDifficulty(s, k);
    RatioTimesDifficulty(t, k);
    var x := Ratio(s, k);
    RatioAgainst(t, k, x);
    RatioAgainst(t, k, 0.8 * x);
    assert x * (t.difficulty - s.difficulty) >= 0.0;
    assert x * (1.25 * s.difficulty - t.difficulty) >= 0.0;
  }

  // Far enough from the target to ramp.
  ghost predicate Outside(s: State, k: real)
    requires Valid(s)
  {
    Ratio(s, k) > 4.0 || Ratio(s, k) < 0.25
  }

  // ----- ramping moves toward the equilibrium and never past it

  predicate Pinned(s: State, k: real)
    requires Valid(s)
  {
    if k / s.target > s.difficulty then s.difficulty == s.max else s.difficulty == s.min
  }

  ghost predicate Between(a: real, m: real, b: real) {
    a <= m < b || b < m <= a
  }

  // A ramp retarget of an exact miner stays on the same side of the
  // equilibrium, and moves strictly toward it unless it is pinned at a limit.
  lemma RampApproaches(s: State, k: real, t: State, c: Option<Change>)
    requires Valid(s) && Valid(t) && k > 0.0 && Adjusts(s, k, t, c) && c.Some? && c.value.phase == Ramp
    ensures Between(s.difficulty, t.difficulty, Equilibrium(s, k))
    ensures t.difficulty == s.difficulty <==> Pinned(s, k)
  {
    RampLanding(s, k);
  }

  // Where a ramp retarget lands, in exact terms.
  lemma RampLanding(s: State, k: real)
    requires Valid(s) && k > 0.0 && Outside(s, k) && !(10.0 <= k / s.difficulty <= 50.0)
    ensures var d, e := s.difficulty, Equilibrium(s, k);
      || (e > 4.0 * d && Judge(s, k / d) == Move(RealMin(2.0 * d, s.max), 1.0, Ramp))
      || (e < 0.25 * d && Judge(s, k / d) == Move(RealMax(0.5 * d, s.min), 1.0, Ramp))
  {
    RatioAgainst(s, k, 4.0);
    RatioAgainst(s, k, 0.25);
  }

  // ----- a settled miner is never ramped again

  ghost predicate Settled(s: State, k: real)
    requires Valid(s)
  {
    Region(Ratio(s, k), s.ema)
  }

  lemma EmaMoveStaysSettled(s: State, k: real, t: State, c: Option<Change>)
    requires Valid(s) && Valid(t) && k > 0.0 && Adjusts(s, k, t, c) && Settled(s, k) && c.Some?
    ensures c.value.phase == Ema && Settled(t, k)
  {
    var x, y := Ratio(s, k), s.ema;
    var y' := Smoothed(x, y);
    if y' >= 1.5 {
      RatioShrinks(s, t, k);
      UpStaysInside(x, y, Ratio(t, k));
    } else {
      assert y' <= 0.6;
      Scaling(s.difficulty, 0.8, 0.8, 0.8);
      RatioShrinks(t, s, k);
      DownStaysInside(x, y, Ratio(t, k));
    }
  }

  lemma SettledStep(s: State, e: Event, k: real)
    requires Valid(s) && k > 0.0 && Settled(s, k)
    requires Measures(s, e) ==> SharesPerMinute(Count(s), e.at) == k / s.difficulty
    ensures var (t, c) := Step(s, e);
      Valid(t) && Settled(t, k) && (c.Some? ==> c.value.phase == Ema)
  {
    StepKeepsValid(s, e);
    ExactStep(s, e, k);
    var (t, c) := Step(s, e);
    if Measures(s, e) {
      if c.Some? { EmaMoveStaysSettled(s, k, t, c); }
      else { HoldStaysInside(Ratio(s, k), s.ema); }
    }
  }

  // Once the ratio is in the steady band with a reset average (or anywhere in
  // the region), no later event of an exact run ramps, and the ratio never
  // leaves the band: the slow average cannot swing the difficulty out again.
  lemma {:induction false} SettledForever(s: State, es: seq<Event>, k: real)
    requires Valid(s) && k > 0.0 && Settled(s, k) && Exact(s, es, k)
    ensures Ramps(Changes(s, es)) == 0
    ensures Valid(Final(s, es)) && Settled(Final(s, es), k)
    decreases es
  {
    if es != [] {
      SettledStep(s, es[0], k);
      var (t, c) := Step(s, es[0]);
      SettledForever(t, es[1..], k);
      RampsOfCons(c, Changes(t, es[1..]));
    }
  }

  lemma RampsOfCons(c: Option<Change>, cs: seq<Change>)
    ensures Ramps((if c.Some? then [c.value] else []) + cs)
         == (if c.Some? && c.value.phase == Ramp then 1 else 0) + Ramps(cs)
  {
    if c.Some? { assert ([c.value] + cs)[1..] == cs; }
    else { assert [] + cs == cs; }
  }

  // ----- how many ramps it takes

  // The equilibrium can be brought into the steady band without passing a limit.
  predicate Reachable(s: State, k: real)
    requires Valid(s)
  {
    0.25 * s.min <= k / s.target <= 4.0 * s.max
  }

  // At most n doublings separate the difficulty from the steady band.
  ghost predicate Near(d: real, e: real, n: nat) {
    e <= Doubled(4.0 * d, n) && d <= Doubled(4.0 * e, n)
  }

  // The last move went the wrong way, so the first ramp stops half way.
  function Detour(s: State, k: real): nat
    requires Valid(s)
  {
    if s.lastUp.Some? && s.lastUp.value != (k / s.target > s.difficulty) then 1 else 0
  }

  // One ramp uses up the detour or one doubling, or reaches the band.
  lemma RampProgress(s: State, k: real, t: State, c: Option<Change>, n: nat)
    requires Valid(s) && Valid(t) && k > 0.0 && Reachable(s, k) && Near(s.difficulty, Equilibrium(s, k), n)
    requires Adjusts(s, k, t, c) && c.Some? && c.value.phase == Ramp
    ensures
      || (Settled(t, k) && n + Detour(s, k) >= 1)
      || (Outside(t, k) && Detour(s, k) == 1 && Detour(t, k) == 0 && Near(t.difficulty, Equilibrium(t, k), n))
      || (Outside(t, k) && n >= 1 && Detour(t, k) == 0 && Near(t.difficulty, Equilibrium(t, k), n - 1))
  {
    RampLanding(s, k);
    RampApproaches(s, k, t, c);
    RatioAgainst(t, k, 4.0);
    RatioAgainst(t, k, 0.25);
    if !Outside(t, k) {
      ResetIsInside(Ratio(t, k));
    } else if Detour(s, k) == 1 {
      NearKept(s.difficulty, t.difficulty, Equilibrium(s, k), n);
    } else {
      NearHalved(s.difficulty, t.difficulty, Equilibrium(s, k), n);
    }
  }

  lemma NearKept(d: real, d': real, e: real, n: nat)
    requires 0.0 < d && 0.0 < d' && 0.0 < e && Near(d, e, n) && Between(d, d', e)
    ensures Near(d', e, n)
  {
    if d <= d' { DoubledGrows(4.0 * d, 4.0 * d', n, n); }
    DoubledGrows(4.0 * d', 4.0 * d', 0, n);
    DoubledGrows(4.0 * e, 4.0 * e, 0, n);
  }

  lemma NearHalved(d: real, d': real, e: real, n: nat)
    requires 0.0 < d && 0.0 < d' && 0.0 < e && Near(d, e, n) && Between(d, d', e)
    requires (e > 4.0 * d && d' == 2.0 * d) || (d > 4.0 * e && d == 2.0 * d')
    ensures n >= 1 && Near(d', e, n - 1)
  {
    if e > 4.0 * d {
      DoubledOnce(4.0 * d, n - 1);
      DoubledGrows(4.0 * e, 4.0 * e, 0, n - 1);
    } else {
      DoubledGrows(4.0 * d', 4.0 * d', 0, n - 1);
    }
  }

  // For every exact miner whose equilibrium the limits leave in reach, a whole
  // run contains at most n ramp retargets, one more if the first one reverses
  // the last move, where n doublings separate the difficulty from the band.
  lemma {:induction false} RampsAreBounded(s: State, es: seq<Event>, k: real, n: nat)
    requires Valid(s) && k > 0.0 && Exact(s, es, k) && Reachable(s, k)
    requires Near(s.difficulty, Equilibrium(s, k), n)
    requires Outside(s, k) || Settled(s, k)
    ensures Ramps(Changes(s, es)) <= n + Detour(s, k)
    decreases es
  {
    if Settled(s, k) {
      SettledForever(s, es, k);
    } else if es != [] {
      var e := es[0];
      var (t, c) := Step(s, e);
      StepKeepsValid(s, e);
      ExactStep(s, e, k);
      RampsOfCons(c, Changes(t, es[1..]));
      if c == None {
        RampsAreBounded(t, es[1..], k, n);
      } else {
        RampProgress(s, k, t, c, n);
        if Settled(t, k) { SettledForever(t, es[1..], k); }
        else if Detour(s, k) == 1 && Near(t.difficulty, Equilibrium(t, k), n) { RampsAreBounded(t, es[1..], k, n); }
        else { RampsAreBounded(t, es[1..], k, n - 1); }
      }
    }
  }

  // From construction: at most n ramps, and none after the ratio is in the band.
  lemma FreshTrackerSettles(target: real, interval: real, initial: real, now: real, es: seq<Event>, k: real, n: nat)
    requires target > 0.0 && 0.0 < initial <= MAX_DIFFICULTY && k > 0.0
    requires var s := Fresh(target, interval, initial, now);
      Exact(s, es, k) && Reachable(s, k) && Near(initial, k / target, n)
    ensures Ramps(Changes(Fresh(target, interval, initial, now), es)) <= n
  {
    var s := Fresh(target, interval, initial, now);
    if !Outside(s, k) { ResetIsInside(Ratio(s, k)); }
    RampsAreBounded(s, es, k, n);
  }

  // At a limit that bars the equilibrium, a measurement outside the hard stable
  // zone is a ramp that goes nowhere; it is recorded as a move down, also at the
  // maximum.
  lemma PinnedRampGoesNowhere(s: State, e: Event, k: real)
    requires Valid(s) && k > 0.0 && Measures(s, e) && Pinned(s, k) && !Reachable(s, k)
    requires SharesPerMinute(Count(s), e.at) == k / s.difficulty
    requires !(10.0 <= k / s.difficulty <= 50.0)
    ensures var (t, c) := Step(s, e);
      && Valid(t) && Pinned(t, k) && !Reachable(t, k) && t.difficulty == s.difficulty
      && c.Some? && c.value.phase == Ramp && t.lastUp == Some(false)
  {
    StepKeepsValid(s, e);
    ExactStep(s, e, k);
    RatioAgainst(s, k, 4.0);
    RatioAgainst(s, k, 0.25);
    var (t, c) := Step(s, e);
    if c.Some? && c.value.phase == Ramp { RampApproaches(s, k, t, c); }
  }

  // ----- the hard stable zone

  // Ten to fifty shares a minute are left alone whatever the target rate is:
  // an exact miner in that range is never adjusted at all.
  lemma {:induction false} StableZoneFreezes(s: State, es: seq<Event>, k: real)
    requires Valid(s) && Exact(s, es, k) && 10.0 <= k / s.difficulty <= 50.0
    ensures Changes(s, es) == [] && Final(s, es).difficulty == s.difficulty
    decreases es
  {
    if es != [] {
      StepKeepsValid(s, es[0]);
      ExactStep(s, es[0], k);
      StableZoneFreezes(Step(s, es[0]).0, es[1..], k);
    }
  }

  predicate InBand(spm: real, target: real)
    requires target > 0.0
  {
    0.25 <= spm / target <= 4.0
  }

  // So the zone keeps the measured ratio inside the steady band for exactly
  // the targets between 12.5 and 40 shares a minute.
  lemma StableZoneInsideBand(target: real)
    requires target > 0.0
    ensures (forall spm: real | 10.0 <= spm <= 50.0 :: InBand(spm, target)) <==> 12.5 <= target <= 40.0
  {
    forall spm: real ensures InBand(spm, target) <==> 0.25 * target <= spm <= 4.0 * target {
      BandInShares(spm, spm / target, target);
    }
    assert InBand(10.0, target) && InBand(50.0, target) ==> 12.5 <= target <= 40.0;
  }

  lemma BandInShares(spm: real, ratio: real, target: real)
    requires target > 0.0 && ratio * target == spm
    ensures 0.25 <= ratio <= 4.0 <==> 0.25 * target <= spm <= 4.0 * target
  {
    SignOfProduct(ratio - 0.25, target);
    SignOfProduct(4.0 - ratio, target);
  }

  lemma SignOfProduct(a: real, b: real)
    requires b > 0.0
    ensures a * b >= 0.0 <==> a >= 0.0
  {
  }

  lemma Compare(a: real, c: real, b: real)
    requires b > 0.0
    ensures a / b > c <==> a > c * b
    ensures a / b < c <==> a < c * b
  {
    var q := a / b;
    assert q * b == a;
    SignOfProduct(q - c, b);
    SignOfProduct(c - q, b);
  }
}
