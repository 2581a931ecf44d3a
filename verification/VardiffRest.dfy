// How often the difficulty of an exact miner changes at all.  Inside the steady
// band the moves go down, then up, then down again, and no further; within one
// such phase the ratio can be moved by the full step only so often, and at a
// limit the average tires of pushing.

module VardiffRest {
  import opened Common
  import opened Vardiff
  import opened VardiffRuns
  import opened VardiffBasin
  import opened VardiffSettling
  import opened VardiffRunaway

  // ----- one measurement inside the band

  lemma BandJudge(s: State, k: real)
    requires Valid(s) && k > 0.0 && !Outside(s, k) && !InZone(s, k)
    ensures var y := Smoothed(Ratio(s, k), s.ema);
      Judge(s, k / s.difficulty) ==
        if 0.6 < y < 1.5 then Hold(y)
        else if y >= 1.5 then Move(RealMin(1.25 * s.difficulty, s.max), y, Ema)
        else Move(RealMax(0.8 * s.difficulty, s.min), y, Ema)
  {
  }

  lemma RatioScales(s: State, t: State, k: real, f: real)
    requires Valid(s) && Valid(t) && k > 0.0 && t.target == s.target && f > 0.0 && t.difficulty == f * s.difficulty
    ensures Ratio(s, k) == f * Ratio(t, k)
  {
    RatioTimesDifficulty(s, k);
    RatioTimesDifficulty(t, k);
    assert (Ratio(s, k) - f * Ratio(t, k)) * s.difficulty == 0.0;
  }

  lemma RatioOrder(s: State, t: State, k: real)
    requires Valid(s) && Valid(t) && k > 0.0 && t.target == s.target && s.difficulty <= t.difficulty
    ensures Ratio(t, k) <= Ratio(s, k)
  {
    RatioTimesDifficulty(s, k);
    RatioAgainst(t, k, Ratio(s, k));
    assert Ratio(s, k) * (t.difficulty - s.difficulty) >= 0.0;
  }

  // ----- patience at the limits

  // After n pushes at a limit the average has come close enough to the ratio
  // there not to push any more.
  ghost predicate Patience(s: State, k: real, n: nat)
    requires Valid(s)
  {
    && 4.0 * Pow(0.85, n) < 1.5 - Equilibrium(s, k) / s.max
    && 4.0 * Pow(0.85, n) < Equilibrium(s, k) / s.min - 0.6
  }

  // The equilibrium is near enough to the limits for the pushing to end there.
  predicate Attainable(s: State, k: real)
    requires Valid(s)
  {
    0.6 * s.min < Equilibrium(s, k) < 1.5 * s.max
  }

  lemma {:induction false} PowFalls(n: nat)
    ensures Pow(0.85, n) > 0.0 && Pow(0.85, n) * (1.0 + 0.15 * n as real) <= 1.0
  {
    if n > 0 {
      PowFalls(n - 1);
      var p, m := Pow(0.85, n - 1), (n - 1) as real;
      assert Pow(0.85, n) == 0.85 * p && n as real == m + 1.0;
      assert 0.85 * p * (1.15 + 0.15 * m) == p * (1.0 + 0.15 * m) - p * (0.0225 + 0.0225 * m);
    }
  }

  lemma SmallPower(gap: real) returns (n: nat)
    requires gap > 0.0
    ensures 4.0 * Pow(0.85, n) < gap
  {
    var q := 4.0 / gap / 0.15;
    assert q * 0.15 * gap == 4.0;
    SignOfProduct(q, 0.15 * gap);
    n := q.Floor + 1;
    PowFalls(n);
    PowerBelow(Pow(0.85, n), n as real, q, gap);
  }

  lemma PowerBelow(p: real, n: real, q: real, gap: real)
    requires p > 0.0 && p * (1.0 + 0.15 * n) <= 1.0 && n > q && q * 0.15 * gap == 4.0 && gap > 0.0
    ensures 4.0 * p < gap
  {
    var a, b := n * gap, q * gap;
    assert a - b == (n - q) * gap > 0.0 && q * 0.15 * gap == 0.15 * b;
    assert p * (0.15 * a - 4.0) > 0.0;
    assert (1.0 - p * (1.0 + 0.15 * n)) * gap >= 0.0;
    assert p * (1.0 + 0.15 * n) * gap == p * gap + 0.15 * (p * a);
    assert p * gap > 0.0;
  }

  lemma EnoughPatience(s: State, k: real) returns (n: nat)
    requires Valid(s) && k > 0.0 && Attainable(s, k)
    ensures Patience(s, k, n)
  {
    var e := Equilibrium(s, k);
    var (high, low) := (1.5 - e / s.max, e / s.min - 0.6);
    Compare(e, 1.5, s.max);
    Compare(e, 0.6, s.min);
    n := SmallPower(RealMin(high, low));
  }

  // ----- what is left of one phase

  // Upward: a more full steps at most, and p pushes at the maximum are behind.
  ghost predicate UpRank(s: State, k: real, n: nat, a: nat, p: nat)
    requires Valid(s)
  {
    && p <= n && Ratio(s, k) <= 0.25 * Pow(1.25, a)
    && if s.difficulty < s.max then p == 0 else s.ema - Ratio(s, k) <= 4.0 * Pow(0.85, p)
  }

  function UpLeft(s: State, n: nat, a: nat, p: nat): nat
    requires p <= n
  {
    a + (if s.difficulty < s.max then (if s.lastUp == Some(false) then 2 else 1) else 0) + n - p
  }

  ghost predicate DownRank(s: State, k: real, n: nat, a: nat, p: nat)
    requires Valid(s)
  {
    && p <= n && Ratio(s, k) >= 4.0 * Pow(0.8, a)
    && if s.difficulty > s.min then p == 0 else Ratio(s, k) - s.ema <= 4.0 * Pow(0.85, p)
  }

  function DownLeft(s: State, n: nat, a: nat, p: nat): nat
    requires p <= n
  {
    a + (if s.difficulty > s.min then (if s.lastUp == Some(true) then 2 else 1) else 0) + n - p
  }

  const STEPS: nat := 13

  lemma PowersAtThirteen()
    ensures 0.25 * Pow(1.25, STEPS) >= 4.0 && 4.0 * Pow(0.8, STEPS) <= 0.25
  {
    assert Pow(1.25, 4) == 2.44140625 && Pow(0.8, 4) == 0.4096;
    assert Pow(1.25, 7) == 1.25 * (1.25 * (1.25 * Pow(1.25, 4))) && Pow(0.8, 7) == 0.8 * (0.8 * (0.8 * Pow(0.8, 4)));
    assert Pow(1.25, 10) == 1.25 * (1.25 * (1.25 * Pow(1.25, 7)));
    assert Pow(0.8, 10) == 0.8 * (0.8 * (0.8 * Pow(0.8, 7)));
    assert Pow(1.25, 13) == 1.25 * (1.25 * (1.25 * Pow(1.25, 10)));
    assert Pow(0.8, 13) == 0.8 * (0.8 * (0.8 * Pow(0.8, 10)));
  }

  lemma FreshRanks(s: State, k: real, n: nat)
    requires Valid(s) && k > 0.0 && !Outside(s, k)
    ensures UpRank(s, k, n, STEPS, 0) && DownRank(s, k, n, STEPS, 0)
    ensures UpLeft(s, n, STEPS, 0) <= Phase(n) && DownLeft(s, n, STEPS, 0) <= Phase(n)
  {
    PowersAtThirteen();
    assert Pow(0.85, 0) == 1.0;
  }

  // The most moves one phase can have.
  function Phase(n: nat): nat { STEPS + 2 + n }

  // ----- one move uses up some of it

  lemma AtLimit(s: State, k: real)
    requires Valid(s) && k > 0.0
    ensures s.difficulty == s.max ==> Ratio(s, k) == Equilibrium(s, k) / s.max
    ensures s.difficulty == s.min ==> Ratio(s, k) == Equilibrium(s, k) / s.min
  {
    RatioTimesDifficulty(s, k);
    var x, e, d := Ratio(s, k), Equilibrium(s, k), s.difficulty;
    assert (e / d - x) * d == 0.0;
  }

  lemma UpMove(s: State, k: real, t: State, c: Option<Change>, n: nat, a: nat, p: nat) returns (a': nat, p': nat)
    requires Valid(s) && Valid(t) && k > 0.0 && !Outside(s, k) && !InZone(s, k) && !Outside(t, k)
    requires Adjusts(s, k, t, c) && Smoothed(Ratio(s, k), s.ema) >= 1.5
    requires Patience(s, k, n) && UpRank(s, k, n, a, p)
    ensures UpRank(t, k, n, a', p') && UpLeft(t, n, a', p') < UpLeft(s, n, a, p)
  {
    BandJudge(s, k);
    a', p' := a, p;
    if s.difficulty == s.max {
      UpPushAtMax(s, k, t, n, p);
      p' := p + 1;
    } else {
      RatioOrder(s, t, k);
      if t.difficulty == 1.25 * s.difficulty {
        RatioScales(s, t, k, 1.25);
        if a == 0 { FullUpNeedsRoom(s, t, k); }
        a' := a - 1;
      }
      assert Pow(0.85, 0) == 1.0;
    }
  }

  lemma FullUpNeedsRoom(s: State, t: State, k: real)
    requires Valid(s) && Valid(t) && k > 0.0 && !Outside(t, k)
    requires Ratio(s, k) == 1.25 * Ratio(t, k)
    ensures Ratio(s, k) > 0.25 * Pow(1.25, 0)
  {
    assert Pow(1.25, 0) == 1.0;
  }

  lemma UpPushAtMax(s: State, k: real, t: State, n: nat, p: nat)
    requires Valid(s) && Valid(t) && k > 0.0 && s.difficulty == s.max == t.difficulty && t.target == s.target
    requires t.ema == Smoothed(Ratio(s, k), s.ema) >= 1.5 && Patience(s, k, n)
    requires p <= n && s.ema - Ratio(s, k) <= 4.0 * Pow(0.85, p)
    ensures p < n && Ratio(t, k) == Ratio(s, k) && t.ema - Ratio(t, k) <= 4.0 * Pow(0.85, p + 1)
  {
    AtLimit(s, k);
    assert Pow(0.85, p + 1) == 0.85 * Pow(0.85, p);
    PowPositive(0.85, p);
    assert t.ema - Ratio(s, k) == 0.85 * (s.ema - Ratio(s, k));
  }

  lemma DownMove(s: State, k: real, t: State, c: Option<Change>, n: nat, a: nat, p: nat) returns (a': nat, p': nat)
    requires Valid(s) && Valid(t) && k > 0.0 && !Outside(s, k) && !InZone(s, k) && !Outside(t, k)
    requires Adjusts(s, k, t, c) && Smoothed(Ratio(s, k), s.ema) <= 0.6
    requires Patience(s, k, n) && DownRank(s, k, n, a, p)
    ensures DownRank(t, k, n, a', p') && DownLeft(t, n, a', p') < DownLeft(s, n, a, p)
  {
    BandJudge(s, k);
    a', p' := a, p;
    if s.difficulty == s.min {
      DownPushAtMin(s, k, t, n, p);
      p' := p + 1;
    } else {
      RatioOrder(t, s, k);
      if t.difficulty == 0.8 * s.difficulty {
        RatioScales(s, t, k, 0.8);
        if a == 0 { FullDownNeedsRoom(s, t, k); }
        a' := a - 1;
      }
      assert Pow(0.85, 0) == 1.0;
    }
  }

  lemma FullDownNeedsRoom(s: State, t: State, k: real)
    requires Valid(s) && Valid(t) && k > 0.0 && !Outside(t, k)
    requires Ratio(s, k) == 0.8 * Ratio(t, k)
    ensures Ratio(s, k) < 4.0 * Pow(0.8, 0)
  {
    assert Pow(0.8, 0) == 1.0;
  }

  lemma DownPushAtMin(s: State, k: real, t: State, n: nat, p: nat)
    requires Valid(s) && Valid(t) && k > 0.0 && s.difficulty == s.min == t.difficulty && t.target == s.target
    requires t.ema == Smoothed(Ratio(s, k), s.ema) <= 0.6 && Patience(s, k, n)
    requires p <= n && Ratio(s, k) - s.ema <= 4.0 * Pow(0.85, p)
    ensures p < n && Ratio(t, k) == Ratio(s, k) && Ratio(t, k) - t.ema <= 4.0 * Pow(0.85, p + 1)
  {
    AtLimit(s, k);
    assert Pow(0.85, p + 1) == 0.85 * Pow(0.85, p);
    PowPositive(0.85, p);
    assert Ratio(s, k) - t.ema == 0.85 * (Ratio(s, k) - s.ema);
  }

  // A measurement that moves nothing leaves the ranks alone.
  lemma HoldKeepsRanks(s: State, t: State, k: real, n: nat, a: nat, p: nat)
    requires Valid(s) && Valid(t) && k > 0.0 && Still(s, t)
    requires t.target == s.target && t.min == s.min && t.max == s.max
    requires t.ema == s.ema || t.ema == Smoothed(Ratio(s, k), s.ema)
    ensures UpRank(s, k, n, a, p) ==> UpRank(t, k, n, a, p) && UpLeft(t, n, a, p) == UpLeft(s, n, a, p)
    ensures DownRank(s, k, n, a, p) ==> DownRank(t, k, n, a, p) && DownLeft(t, n, a, p) == DownLeft(s, n, a, p)
  {
    PowPositive(0.85, p);
    assert Ratio(t, k) == Ratio(s, k);
    assert Smoothed(Ratio(s, k), s.ema) - Ratio(s, k) == 0.85 * (s.ema - Ratio(s, k));
  }

  // ----- three phases

  // Phase 2 may move down first; phase 1 moves up; phase 0 only moves down.
  ghost predicate InPhase(s: State, k: real, phase: nat)
    requires Valid(s)
  {
    match phase
    case 0 => Basin(Ratio(s, k), s.ema)
    case 1 => s.ema >= 0.6
    case _ => true
  }

  ghost predicate Rank(s: State, k: real, n: nat, phase: nat, a: nat, p: nat)
    requires Valid(s)
  {
    if phase == 1 then UpRank(s, k, n, a, p) else DownRank(s, k, n, a, p)
  }

  function Left(s: State, n: nat, phase: nat, a: nat, p: nat): nat
    requires p <= n
  {
    if phase == 1 then UpLeft(s, n, a, p) else DownLeft(s, n, a, p)
  }

  // What the phases still to come can add.
  function Later(phase: nat, n: nat): nat {
    if phase == 0 then 0 else if phase == 1 then Phase(n) else 2 * Phase(n)
  }

  // Leaving the band costs the move out, at most two ramps, and two phases.
  ghost function Excursion(s: State, k: real, n: nat): nat
    requires Valid(s)
  {
    if Settled(s, k) then 0 else 3 + 2 * Phase(n)
  }

  // One measurement inside the band that does not leave it: a hold stays in its
  // phase, and a move in its phase's own direction uses up some of it.
  lemma PhaseStep(s: State, k: real, t: State, c: Option<Change>, n: nat, phase: nat, a: nat, p: nat)
    returns (a': nat, p': nat)
    requires Valid(s) && Valid(t) && k > 0.0 && !Outside(s, k) && !InZone(s, k) && !Outside(t, k)
    requires Adjusts(s, k, t, c) && Patience(s, k, n) && phase <= 2
    requires InPhase(s, k, phase) && Rank(s, k, n, phase, a, p)
    requires phase == 2 ==> s.ema < 0.6
    requires phase == 1 ==> !Basin(Ratio(s, k), s.ema)
    ensures InPhase(t, k, phase) && Rank(t, k, n, phase, a', p')
    ensures Left(t, n, phase, a', p') + (if c.Some? then 1 else 0) <= Left(s, n, phase, a, p)
  {
    BandJudge(s, k);
    var x, y := Ratio(s, k), s.ema;
    a', p' := a, p;
    if phase == 0 { BasinPushesDown(x, y); }
    if c == None {
      HoldKeepsRanks(s, t, k, n, a, p);
      if phase == 0 { EntersBasin(x, Smoothed(x, y)); }
    } else if Smoothed(x, y) >= 1.5 {
      a', p' := UpMove(s, k, t, c, n, a, p);
    } else {
      if phase == 1 { PushedDownFromBasin(x, y); }
      a', p' := DownMove(s, k, t, c, n, a, p);
      if phase == 0 { DownInBasin(s, k, t); }
    }
  }

  lemma DownInBasin(s: State, k: real, t: State)
    requires Valid(s) && Valid(t) && k > 0.0 && t.target == s.target && Basin(Ratio(s, k), s.ema)
    requires 0.8 * s.difficulty <= t.difficulty <= s.difficulty
    requires t.ema == Smoothed(Ratio(s, k), s.ema) <= 0.6
    ensures Basin(Ratio(t, k), t.ema)
  {
    RatioShrinks(t, s, k);
    DownStaysInBasin(Ratio(s, k), s.ema, Ratio(t, k));
  }

  // The retargets of a whole run from inside the band.
  lemma {:induction false} BandChanges(s: State, es: seq<Event>, k: real, n: nat, phase: nat, a: nat, p: nat)
    requires Valid(s) && k > 0.0 && Exact(s, es, k) && !Outside(s, k) && Patience(s, k, n) && phase <= 2
    requires InPhase(s, k, phase) && Rank(s, k, n, phase, a, p)
    ensures |Changes(s, es)| <= Left(s, n, phase, a, p) + Later(phase, n) + Excursion(s, k, n)
    decreases |es|, phase
  {
    if InZone(s, k) {
      StableZoneFreezes(s, es, k);
    } else if phase == 2 && s.ema >= 0.6 {
      FreshRanks(s, k, n);
      BandChanges(s, es, k, n, 1, STEPS, 0);
    } else if phase == 1 && Basin(Ratio(s, k), s.ema) {
      FreshRanks(s, k, n);
      BandChanges(s, es, k, n, 0, STEPS, 0);
    } else if es != [] {
      var t := Step(s, es[0]).0;
      BandStep(s, es[0], k);
      CountFirst(s, es);
      if Outside(t, k) {
        LeavesUnsettled(s, es[0], k);
        OutsideChanges(t, es[1..], k, n, 1);
      } else {
        var a', p' := InsideStep(s, es[0], k, n, phase, a, p);
        BandChanges(t, es[1..], k, n, phase, a', p');
      }
    }
  }

  lemma CountFirst(s: State, es: seq<Event>)
    requires Valid(s) && es != [] && Valid(Step(s, es[0]).0)
    ensures var (t, c) := Step(s, es[0]);
      |Changes(s, es)| == (if c.Some? then 1 else 0) + |Changes(t, es[1..])|
  {
  }

  lemma LeavesUnsettled(s: State, e: Event, k: real)
    requires Valid(s) && k > 0.0 && Valid(Step(s, e).0) && Outside(Step(s, e).0, k)
    requires Measures(s, e) ==> SharesPerMinute(Count(s), e.at) == k / s.difficulty
    ensures !Settled(s, k)
  {
    if Settled(s, k) { SettledStep(s, e, k); }
  }

  lemma InsideStep(s: State, e: Event, k: real, n: nat, phase: nat, a: nat, p: nat) returns (a': nat, p': nat)
    requires Valid(s) && k > 0.0 && !Outside(s, k) && !InZone(s, k) && Patience(s, k, n) && phase <= 2
    requires Measures(s, e) ==> SharesPerMinute(Count(s), e.at) == k / s.difficulty
    requires InPhase(s, k, phase) && Rank(s, k, n, phase, a, p)
    requires phase == 2 ==> s.ema < 0.6
    requires phase == 1 ==> !Basin(Ratio(s, k), s.ema)
    requires Valid(Step(s, e).0) && !Outside(Step(s, e).0, k)
    ensures var (t, c) := Step(s, e);
      && Patience(t, k, n) && InPhase(t, k, phase) && Rank(t, k, n, phase, a', p')
      && Left(t, n, phase, a', p') + (if c.Some? then 1 else 0) <= Left(s, n, phase, a, p)
      && Excursion(t, k, n) <= Excursion(s, k, n)
  {
    var (t, c) := Step(s, e);
    ExactStep(s, e, k);
    if Settled(s, k) { SettledStep(s, e, k); }
    if Measures(s, e) {
      a', p' := PhaseStep(s, k, t, c, n, phase, a, p);
    } else {
      HoldKeepsRanks(s, t, k, n, a, p);
      a', p' := a, p;
    }
  }

  // And from outside: ramps into the band, then two phases.
  lemma {:induction false} OutsideChanges(s: State, es: seq<Event>, k: real, n: nat, m: nat)
    requires Valid(s) && k > 0.0 && Exact(s, es, k) && Outside(s, k) && Patience(s, k, n)
    requires Reachable(s, k) && Near(s.difficulty, Equilibrium(s, k), m)
    ensures |Changes(s, es)| <= m + Detour(s, k) + 2 * Phase(n)
    decreases |es|, 3
  {
    if InZone(s, k) {
      StableZoneFreezes(s, es, k);
    } else if es != [] {
      var (t, c) := Step(s, es[0]);
      StepKeepsValid(s, es[0]);
      ExactStep(s, es[0], k);
      if !Measures(s, es[0]) {
        OutsideChanges(t, es[1..], k, n, m);
      } else {
        OutsideRamps(s, es[0], k);
        RampLanding(s, k);
        RampProgress(s, k, t, c, m);
        if Settled(t, k) {
          FreshRanks(t, k, n);
          BandChanges(t, es[1..], k, n, 1, STEPS, 0);
        } else if Detour(s, k) == 1 && Near(t.difficulty, Equilibrium(t, k), m) {
          OutsideChanges(t, es[1..], k, n, m);
        } else {
          OutsideChanges(t, es[1..], k, n, m - 1);
        }
      }
    }
  }

  // ----- the difficulty comes to rest

  ghost predicate ChangesAtMost(s: State, k: real, n: nat)
    requires Valid(s)
  {
    forall es | Exact(s, es, k) :: |Changes(s, es)| <= n
  }

  // The states differ in their clocks and windows only.
  ghost predicate Alike(s: State, t: State) {
    && t.target == s.target && t.min == s.min && t.max == s.max
    && t.difficulty == s.difficulty && t.ema == s.ema && t.lastUp == s.lastUp
  }

  // The bound holds from every such state.
  ghost predicate AlikeAtMost(s: State, k: real, n: nat) {
    forall t, es | Valid(t) && Alike(s, t) && Exact(t, es, k) :: |Changes(t, es)| <= n
  }

  // From any state at all, an exact miner whose equilibrium is more than 0.6
  // times the minimum and less than 1.5 times the maximum is retargeted only so
  // many times, however long the run.
  lemma ComesToRest(s: State, k: real) returns (most: nat)
    requires Valid(s) && k > 0.0 && Attainable(s, k)
    ensures ChangesAtMost(s, k, most) && AlikeAtMost(s, k, most)
  {
    var n := EnoughPatience(s, k);
    if Outside(s, k) {
      RatioTimesDifficulty(s, k);
      var m := SomeNear(s.difficulty, Equilibrium(s, k));
      most := m + 1 + 2 * Phase(n);
      forall t, es | Valid(t) && Alike(s, t) && Exact(t, es, k) ensures |Changes(t, es)| <= most {
        OutsideChanges(t, es, k, n, m);
      }
    } else {
      most := 3 + 5 * Phase(n);
      forall t, es | Valid(t) && Alike(s, t) && Exact(t, es, k) ensures |Changes(t, es)| <= most {
        FreshRanks(t, k, n);
        BandChanges(t, es, k, n, 2, STEPS, 0);
      }
    }
    assert Alike(s, s);
  }
}
