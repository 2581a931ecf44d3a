// Exactly which exact miners are retargeted without end: those that a limit
// keeps out of the dead zone, unless the hard stable zone stops the pushing.

module VardiffEndless {
  import opened Common
  import opened Vardiff
  import opened VardiffRuns
  import opened VardiffSettling
  import opened VardiffRunaway
  import opened VardiffRest

  // The maximum leaves the ratio at 1.5 or more, the difficulty leaves it above
  // or the average is there, and no rate between the two is left alone.
  predicate ClimbsOn(s: State, k: real)
    requires Valid(s)
  {
    && Equilibrium(s, k) >= 1.5 * s.max && (Equilibrium(s, k) > 1.5 * s.difficulty || s.ema >= 1.5)
    && (k / s.difficulty < 10.0 || k / s.max > 50.0)
  }

  // The same at the other end.
  predicate SinksOn(s: State, k: real)
    requires Valid(s)
  {
    && Equilibrium(s, k) <= 0.6 * s.min && (Equilibrium(s, k) < 0.6 * s.difficulty || s.ema <= 0.6)
    && (k / s.difficulty > 50.0 || k / s.min < 10.0)
  }

  // ----- pushed up for ever

  ghost predicate Climbing(s: State, k: real) {
    Valid(s) && k > 0.0 && s.ema > 0.6 && ClimbsOn(s, k)
  }

  lemma ClimbStep(s: State, e: Event, k: real)
    requires Climbing(s, k) && Measures(s, e) && SharesPerMinute(Count(s), e.at) == k / s.difficulty
    ensures var (t, c) := Step(s, e);
      && Climbing(t, k)
      && (c.Some? || (Still(s, t) && t.target == s.target && s.ema < 1.5 && Ratio(s, k) > 1.5
                      && t.ema == Smoothed(Ratio(s, k), s.ema)))
  {
    StepKeepsValid(s, e);
    ExactStep(s, e, k);
    var (t, c) := Step(s, e);
    QuotientShrinks(k, s.difficulty, s.max);
    RatioAgainst(s, k, 1.5);
    RatioAgainst(s, k, 4.0);
    if Outside(s, k) {
      OutsideRamps(s, e, k);
      RampLanding(s, k);
    } else {
      BandJudge(s, k);
    }
    if s.difficulty <= t.difficulty { QuotientShrinks(k, s.difficulty, t.difficulty); }
  }

  function Times(n: nat, step: real): real {
    if n == 0 then 0.0 else step + Times(n - 1, step)
  }

  lemma {:induction false} TimesIsProduct(n: nat, step: real)
    ensures Times(n, step) == n as real * step
  {
    if n > 0 {
      TimesIsProduct(n - 1, step);
      assert n as real * step == (n - 1) as real * step + step;
    }
  }

  lemma SomeHolds(gap: real, step: real) returns (m: nat)
    requires gap <= 0.0 || step > 0.0
    ensures gap <= Times(m, step)
  {
    m := 0;
    if gap > 0.0 {
      var q := gap / step;
      assert q * step == gap;
      SignOfProduct(q, step);
      m := q.Floor + 1;
      SignOfProduct(m as real - q, step);
      TimesIsProduct(m, step);
    }
  }

  // By how much one hold at least raises the average.
  function Lift(s: State, k: real): real
    requires Valid(s)
  {
    0.15 * (Ratio(s, k) - 1.5)
  }

  // The average is within m holds of the next retarget.
  ghost predicate ClimbsWithin(s: State, k: real, m: nat) {
    Climbing(s, k) && 1.5 - s.ema <= Times(m, Lift(s, k))
  }

  lemma SomeClimb(s: State, k: real) returns (m: nat)
    requires Climbing(s, k)
    ensures ClimbsWithin(s, k, m)
  {
    RatioAgainst(s, k, 1.5);
    m := SomeHolds(1.5 - s.ema, Lift(s, k));
  }

  lemma ClimbOnce(s: State, e: Event, k: real, m: nat) returns (m': nat)
    requires ClimbsWithin(s, k, m) && Measures(s, e) && SharesPerMinute(Count(s), e.at) == k / s.difficulty
    ensures var (t, c) := Step(s, e);
      ClimbsWithin(t, k, m') && (c == None ==> m' < m)
  {
    ClimbStep(s, e, k);
    var (t, c) := Step(s, e);
    if c.Some? {
      m' := SomeClimb(t, k);
    } else {
      assert Lift(t, k) == Lift(s, k);
      m' := m - 1;
    }
  }

  // A run with n retargets.
  lemma ClimbingRun(s: State, k: real, n: nat, m: nat) returns (es: seq<Event>)
    requires ClimbsWithin(s, k, m) && s.interval > 0.0
    ensures Exact(s, es, k) && OnlyShares(es) && Monotone(s.windowStart, es) && |Changes(s, es)| == n
    decreases n, m
  {
    es := [];
    if n > 0 {
      var i, e := NextMeasurement(s, k);
      var t := s.(shares := s.shares + i);
      var (u, c) := Step(t, e);
      var m' := ClimbOnce(t, e, k, m);
      var rest := ClimbingRun(u, k, if c.Some? then n - 1 else n, m');
      es := RunWith(s, k, i, e, rest);
    }
  }

  lemma NextMeasurement(s: State, k: real) returns (i: nat, e: Event)
    requires Valid(s) && k > 0.0
    ensures s.windowStart <= e.at && e.Share?
    ensures var t := s.(shares := s.shares + i); var u := Step(t, e).0;
      && Measures(t, e) && SharesPerMinute(Count(t), e.at) == k / t.difficulty
      && u.interval == s.interval && u.windowStart == e.at
  {
    var at;
    i, at := ExactMoment(s, k);
    e := Share(at);
    MeasurementClosesWindow(s.(shares := s.shares + i), e);
  }

  // One measured event after some more shares, and then the rest.
  lemma RunWith(s: State, k: real, i: nat, e: Event, rest: seq<Event>) returns (es: seq<Event>)
    requires Valid(s) && k > 0.0 && Waits(s) && s.windowStart <= e.at && e.Share? && OnlyShares(rest)
    requires var t := s.(shares := s.shares + i); var (u, c) := Step(t, e);
      && Measures(t, e) && SharesPerMinute(Count(t), e.at) == k / t.difficulty
      && Valid(u) && Exact(u, rest, k) && Monotone(e.at, rest)
    ensures Exact(s, es, k) && OnlyShares(es) && Monotone(s.windowStart, es)
    ensures var (u, c) := Step(s.(shares := s.shares + i), e);
      |Changes(s, es)| == (if c.Some? then 1 else 0) + |Changes(u, rest)|
  {
    var t, all := s.(shares := s.shares + i), [e] + rest;
    assert all[1..] == rest;
    AfterShares(s, i, all, k, Measured(t, all));
    es := Shares(i, s.windowStart) + all;
  }

  // ----- pushed down for ever

  ghost predicate Sinking(s: State, k: real) {
    Valid(s) && k > 0.0 && s.ema < 1.5 && SinksOn(s, k)
  }

  lemma SinkStep(s: State, e: Event, k: real)
    requires Sinking(s, k) && Measures(s, e) && SharesPerMinute(Count(s), e.at) == k / s.difficulty
    ensures var (t, c) := Step(s, e);
      && Sinking(t, k)
      && (c.Some? || (Still(s, t) && t.target == s.target && s.ema > 0.6 && Ratio(s, k) < 0.6
                      && t.ema == Smoothed(Ratio(s, k), s.ema)))
  {
    StepKeepsValid(s, e);
    ExactStep(s, e, k);
    var (t, c) := Step(s, e);
    QuotientShrinks(k, s.min, s.difficulty);
    RatioAgainst(s, k, 0.6);
    RatioAgainst(s, k, 0.25);
    if Outside(s, k) {
      OutsideRamps(s, e, k);
      RampLanding(s, k);
    } else {
      BandJudge(s, k);
    }
    if t.difficulty <= s.difficulty { QuotientShrinks(k, t.difficulty, s.difficulty); }
  }

  // By how much one hold at least lowers the average.
  function Drop(s: State, k: real): real
    requires Valid(s)
  {
    0.15 * (0.6 - Ratio(s, k))
  }

  ghost predicate SinksWithin(s: State, k: real, m: nat) {
    Sinking(s, k) && s.ema - 0.6 <= Times(m, Drop(s, k))
  }

  lemma SomeSink(s: State, k: real) returns (m: nat)
    requires Sinking(s, k)
    ensures SinksWithin(s, k, m)
  {
    RatioAgainst(s, k, 0.6);
    m := SomeHolds(s.ema - 0.6, Drop(s, k));
  }

  lemma SinkOnce(s: State, e: Event, k: real, m: nat) returns (m': nat)
    requires SinksWithin(s, k, m) && Measures(s, e) && SharesPerMinute(Count(s), e.at) == k / s.difficulty
    ensures var (t, c) := Step(s, e);
      SinksWithin(t, k, m') && (c == None ==> m' < m)
  {
    SinkStep(s, e, k);
    var (t, c) := Step(s, e);
    if c.Some? {
      m' := SomeSink(t, k);
    } else {
      assert Drop(t, k) == Drop(s, k);
      m' := m - 1;
    }
  }

  lemma SinkingRun(s: State, k: real, n: nat, m: nat) returns (es: seq<Event>)
    requires SinksWithin(s, k, m) && s.interval > 0.0
    ensures Exact(s, es, k) && OnlyShares(es) && Monotone(s.windowStart, es) && |Changes(s, es)| == n
    decreases n, m
  {
    es := [];
    if n > 0 {
      var i, e := NextMeasurement(s, k);
      var t := s.(shares := s.shares + i);
      var (u, c) := Step(t, e);
      var m' := SinkOnce(t, e, k, m);
      var rest := SinkingRun(u, k, if c.Some? then n - 1 else n, m');
      es := RunWith(s, k, i, e, rest);
    }
  }

  // ----- caught by the hard stable zone on the way

  lemma ClimbMove(s: State, k: real, t: State, c: Option<Change>)
    requires Valid(s) && Valid(t) && k > 0.0 && Adjusts(s, k, t, c) && !InZone(s, k)
    requires Equilibrium(s, k) >= 1.5 * s.max && s.ema >= 0.6 && s.difficulty < s.max
    ensures t.ema >= 0.6 && (c == None ==> Still(s, t))
    ensures c.Some? ==> s.difficulty < t.difficulty <= 2.0 * s.difficulty && t.lastUp == Some(true)
    ensures c.Some? && s.lastUp != Some(false) ==> t.difficulty == s.max || t.difficulty >= 1.25 * s.difficulty
  {
    RatioAgainst(s, k, 1.5);
    RatioAgainst(s, k, 4.0);
    if Outside(s, k) { RampLanding(s, k); } else { BandJudge(s, k); }
  }

  // d * 1.25^n.
  function Grown(d: real, n: nat): real {
    if n == 0 then d else 1.25 * Grown(d, n - 1)
  }

  lemma {:induction false} GrownOrder(d: real, d': real, n: nat)
    requires 0.0 < d <= d'
    ensures 0.0 < d <= Grown(d, n) <= Grown(d', n)
  {
    if n > 0 { GrownOrder(d, d', n - 1); }
  }

  lemma {:induction false} GrownOnce(d: real, n: nat)
    ensures Grown(1.25 * d, n) == Grown(d, n + 1)
  {
    if n > 0 { GrownOnce(d, n - 1); }
  }

  lemma {:induction false} GrownIsLarge(d: real, n: nat)
    requires d > 0.0
    ensures Grown(d, n) >= d && Grown(d, n) >= n as real * (0.25 * d)
  {
    if n > 0 { GrownIsLarge(d, n - 1); }
  }

  lemma EnoughSteps(d: real, limit: real) returns (n: nat)
    requires d > 0.0
    ensures limit <= Grown(d, n)
  {
    n := SomeHolds(limit, 0.25 * d);
    TimesIsProduct(n, 0.25 * d);
    GrownIsLarge(d, n);
  }

  function Turn(s: State, up: bool): nat {
    if s.lastUp == Some(!up) then 1 else 0
  }

  // Fewer steps of 1.25 are left than before, or the limit is reached inside the
  // zone.
  lemma ClimbLeft(s: State, k: real, t: State, n: nat)
    requires Valid(s) && Valid(t) && k > 0.0 && t.max == s.max && k / s.difficulty > 50.0 >= k / s.max
    requires s.max <= Grown(s.difficulty, n) && s.difficulty < t.difficulty <= 2.0 * s.difficulty
    ensures n >= 1 && k / t.difficulty >= 10.0 && s.max <= Grown(t.difficulty, n)
    ensures t.difficulty == s.max ==> InZone(t, k)
    ensures t.difficulty >= 1.25 * s.difficulty ==> s.max <= Grown(t.difficulty, n - 1)
  {
    QuotientShrinks(k, s.difficulty, t.difficulty);
    GrownOrder(s.difficulty, t.difficulty, n);
    if t.difficulty >= 1.25 * s.difficulty {
      GrownOnce(s.difficulty, n - 1);
      GrownOrder(1.25 * s.difficulty, t.difficulty, n - 1);
    }
  }

  lemma {:induction false} ClimbsIntoZone(s: State, es: seq<Event>, k: real, n: nat)
    requires Valid(s) && k > 0.0 && Exact(s, es, k) && s.ema >= 0.6
    requires Equilibrium(s, k) >= 1.5 * s.max && k / s.difficulty >= 10.0 && k / s.max <= 50.0
    requires s.max <= Grown(s.difficulty, n)
    ensures |Changes(s, es)| <= n + Turn(s, true)
    decreases |es|
  {
    if InZone(s, k) {
      StableZoneFreezes(s, es, k);
    } else if es != [] {
      var (t, c) := Step(s, es[0]);
      StepKeepsValid(s, es[0]);
      ExactStep(s, es[0], k);
      CountFirst(s, es);
      if Measures(s, es[0]) { ClimbMove(s, k, t, c); }
      if c == None {
        ClimbsIntoZone(t, es[1..], k, n);
      } else {
        ClimbLeft(s, k, t, n);
        if t.difficulty == s.max { StableZoneFreezes(t, es[1..], k); }
        else if s.lastUp == Some(false) { ClimbsIntoZone(t, es[1..], k, n); }
        else { ClimbsIntoZone(t, es[1..], k, n - 1); }
      }
    }
  }

  lemma SinkMove(s: State, k: real, t: State, c: Option<Change>)
    requires Valid(s) && Valid(t) && k > 0.0 && Adjusts(s, k, t, c) && !InZone(s, k)
    requires Equilibrium(s, k) <= 0.6 * s.min && s.ema <= 1.5 && s.difficulty > s.min
    ensures t.ema <= 1.5 && (c == None ==> Still(s, t))
    ensures c.Some? ==> t.difficulty < s.difficulty <= 2.0 * t.difficulty && t.lastUp == Some(false)
    ensures c.Some? && s.lastUp != Some(true) ==> t.difficulty == s.min || t.difficulty <= 0.8 * s.difficulty
  {
    RatioAgainst(s, k, 0.6);
    RatioAgainst(s, k, 0.25);
    if Outside(s, k) { RampLanding(s, k); } else { BandJudge(s, k); }
  }

  lemma SinkLeft(s: State, k: real, t: State, n: nat)
    requires Valid(s) && Valid(t) && k > 0.0 && t.min == s.min && k / s.difficulty < 10.0 <= k / s.min
    requires s.difficulty <= Grown(s.min, n) && t.difficulty < s.difficulty <= 2.0 * t.difficulty
    ensures n >= 1 && k / t.difficulty <= 50.0 && t.difficulty <= Grown(s.min, n)
    ensures t.difficulty == s.min ==> InZone(t, k)
    ensures t.difficulty <= 0.8 * s.difficulty ==> t.difficulty <= Grown(s.min, n - 1)
  {
    QuotientShrinks(k, t.difficulty, s.difficulty);
  }

  lemma {:induction false} SinksIntoZone(s: State, es: seq<Event>, k: real, n: nat)
    requires Valid(s) && k > 0.0 && Exact(s, es, k) && s.ema <= 1.5
    requires Equilibrium(s, k) <= 0.6 * s.min && k / s.difficulty <= 50.0 && k / s.min >= 10.0
    requires s.difficulty <= Grown(s.min, n)
    ensures |Changes(s, es)| <= n + Turn(s, false)
    decreases |es|
  {
    if InZone(s, k) {
      StableZoneFreezes(s, es, k);
    } else if es != [] {
      var (t, c) := Step(s, es[0]);
      StepKeepsValid(s, es[0]);
      ExactStep(s, es[0], k);
      CountFirst(s, es);
      if Measures(s, es[0]) { SinkMove(s, k, t, c); }
      if c == None {
        SinksIntoZone(t, es[1..], k, n);
      } else {
        SinkLeft(s, k, t, n);
        if t.difficulty == s.min { StableZoneFreezes(t, es[1..], k); }
        else if s.lastUp == Some(true) { SinksIntoZone(t, es[1..], k, n); }
        else { SinksIntoZone(t, es[1..], k, n - 1); }
      }
    }
  }

  // ----- at rest from the start

  // A ratio and an average in the dead zone stay there.
  lemma {:induction false} DeadZoneIsQuiet(s: State, es: seq<Event>, k: real)
    requires Valid(s) && k > 0.0 && Exact(s, es, k) && 0.6 <= Ratio(s, k) <= 1.5 && 0.6 < s.ema < 1.5
    ensures Changes(s, es) == []
    decreases es
  {
    if es != [] {
      StepKeepsValid(s, es[0]);
      ExactStep(s, es[0], k);
      DeadZoneIsQuiet(Step(s, es[0]).0, es[1..], k);
    }
  }

  // ----- an average on the wrong side

  // The limits push one way and the average, left over from an earlier rate, the
  // other.
  predicate Wayward(s: State, k: real)
    requires Valid(s)
  {
    || (Equilibrium(s, k) >= 1.5 * s.max && s.ema <= 0.6)
    || (Equilibrium(s, k) <= 0.6 * s.min && s.ema >= 1.5)
  }

  // The state after one exact measurement, clocks and window aside.
  function Next(s: State, k: real): State
    requires Valid(s)
  {
    match Judge(s, k / s.difficulty)
    case Hold(ema) => s.(ema := ema)
    case Move(d, ema, _) =>
      s.(difficulty := Landing(s, d), ema := ema, lastUp := Some(Landing(s, d) > s.difficulty))
  }

  lemma NextIsValid(s: State, k: real)
    requires Valid(s)
    ensures Valid(Next(s, k))
  {
    JudgeBounds(s, k / s.difficulty);
  }

  lemma MeasuredIsNext(s: State, e: Event, k: real)
    requires Valid(s) && Measures(s, e) && SharesPerMinute(Count(s), e.at) == k / s.difficulty
    ensures Alike(Next(s, k), Step(s, e).0)
  {
    ExactStep(s, e, k);
  }

  lemma AlikeNext(s: State, t: State, k: real)
    requires Valid(s) && Valid(t) && Alike(s, t)
    ensures Alike(Next(s, k), Next(t, k))
  {
    assert Judge(t, k / t.difficulty) == Judge(s, k / s.difficulty);
    assert forall d :: Landing(t, d) == Landing(s, d);
  }

  // 0.9 / 0.85^n.
  function Away(n: nat): real {
    if n == 0 then 0.9 else Away(n - 1) / 0.85
  }

  const TURNS: nat := 9

  lemma AwayAtNine()
    ensures Away(TURNS) > 3.4
  {
    assert Away(3) > 1.46;
    assert Away(6) == Away(3) / 0.85 / 0.85 / 0.85 > 2.37;
    assert Away(9) == Away(6) / 0.85 / 0.85 / 0.85;
  }

  lemma {:induction false} AwayGrows(n: nat)
    ensures Away(n) >= 0.9
  {
    if n > 0 { AwayGrows(n - 1); }
  }

  // After n measurements the average pushes the same way as the limits.
  predicate TurnsWithin(s: State, k: real, n: nat)
    requires Valid(s)
  {
    && (Equilibrium(s, k) >= 1.5 * s.max ==> 1.5 - s.ema < Away(n))
    && (Equilibrium(s, k) <= 0.6 * s.min ==> s.ema - 0.6 < Away(n))
  }

  lemma NineTurnsAreEnough(s: State, k: real)
    requires Valid(s)
    ensures TurnsWithin(s, k, TURNS)
  {
    AwayAtNine();
  }

  lemma TurnsOnce(s: State, k: real, n: nat)
    requires Valid(s) && Valid(Next(s, k)) && k > 0.0 && !InZone(s, k) && Wayward(s, k) && TurnsWithin(s, k, n)
    ensures n >= 1 && TurnsWithin(Next(s, k), k, n - 1)
  {
    RatioAgainst(s, k, 1.5);
    RatioAgainst(s, k, 0.6);
    AwayGrows(if n == 0 then 0 else n - 1);
    if Outside(s, k) { RampLanding(s, k); } else { BandJudge(s, k); }
  }

  // ----- exactly when

  // A wayward average is followed until it has turned, which may take the
  // difficulty into the zone; then it is a matter of the limits.
  predicate EndlessWithin(s: State, k: real, n: nat)
    requires Valid(s)
    decreases n
  {
    if Wayward(s, k) && !InZone(s, k) then
      n > 0 && (NextIsValid(s, k); EndlessWithin(Next(s, k), k, n - 1))
    else ClimbsOn(s, k) || SinksOn(s, k)
  }

  predicate Endless(s: State, k: real)
    requires Valid(s)
  {
    EndlessWithin(s, k, TURNS)
  }

  lemma {:induction false} AlikeEndless(s: State, t: State, k: real, n: nat)
    requires Valid(s) && Valid(t) && Alike(s, t)
    ensures EndlessWithin(s, k, n) == EndlessWithin(t, k, n)
    decreases n
  {
    if Wayward(s, k) && !InZone(s, k) && n > 0 {
      NextIsValid(s, k);
      NextIsValid(t, k);
      AlikeNext(s, t, k);
      AlikeEndless(Next(s, k), Next(t, k), k, n - 1);
    }
  }

  lemma EndsWithoutPushing(s: State, k: real) returns (n: nat)
    requires Valid(s) && k > 0.0 && !Wayward(s, k) && !ClimbsOn(s, k) && !SinksOn(s, k)
    ensures AlikeAtMost(s, k, n)
  {
    RatioAgainst(s, k, 1.5);
    RatioAgainst(s, k, 0.6);
    if Attainable(s, k) {
      n := ComesToRest(s, k);
    } else if 0.6 <= Ratio(s, k) <= 1.5 && 0.6 < s.ema < 1.5 {
      n := 0;
      forall t, es | Valid(t) && Alike(s, t) && Exact(t, es, k) ensures |Changes(t, es)| <= n {
        DeadZoneIsQuiet(t, es, k);
      }
    } else if Equilibrium(s, k) >= 1.5 * s.max {
      var m := EnoughSteps(s.difficulty, s.max);
      n := m + 1;
      forall t, es | Valid(t) && Alike(s, t) && Exact(t, es, k) ensures |Changes(t, es)| <= n {
        ClimbsIntoZone(t, es, k, m);
      }
    } else {
      var m := EnoughSteps(s.min, s.difficulty);
      n := m + 1;
      forall t, es | Valid(t) && Alike(s, t) && Exact(t, es, k) ensures |Changes(t, es)| <= n {
        SinksIntoZone(t, es, k, m);
      }
    }
  }

  lemma {:induction false} OneMoreChange(s: State, k: real, m: nat, t: State, es: seq<Event>)
    requires Valid(s) && Valid(t) && k > 0.0 && Alike(s, t) && Exact(t, es, k) && AlikeAtMost(Next(s, k), k, m)
    ensures |Changes(t, es)| <= m + 1
    decreases |es|
  {
    if es != [] {
      StepKeepsValid(t, es[0]);
      ExactStep(t, es[0], k);
      CountFirst(t, es);
      var u := Step(t, es[0]).0;
      if Measures(t, es[0]) {
        MeasuredIsNext(t, es[0], k);
        AlikeNext(s, t, k);
        assert Alike(Next(s, k), u);
      } else {
        OneMoreChange(s, k, m, u, es[1..]);
      }
    }
  }

  lemma {:induction false} EndsUnlessEndless(s: State, k: real, turns: nat) returns (n: nat)
    requires Valid(s) && k > 0.0 && TurnsWithin(s, k, turns) && !EndlessWithin(s, k, turns)
    ensures AlikeAtMost(s, k, n)
    decreases turns
  {
    if InZone(s, k) {
      n := 0;
      forall t, es | Valid(t) && Alike(s, t) && Exact(t, es, k) ensures |Changes(t, es)| <= n {
        StableZoneFreezes(t, es, k);
      }
    } else if Wayward(s, k) {
      NextIsValid(s, k);
      TurnsOnce(s, k, turns);
      var m := EndsUnlessEndless(Next(s, k), k, turns - 1);
      n := m + 1;
      forall t, es | Valid(t) && Alike(s, t) && Exact(t, es, k) ensures |Changes(t, es)| <= n {
        OneMoreChange(s, k, m, t, es);
      }
    } else {
      n := EndsWithoutPushing(s, k);
    }
  }

  lemma {:induction false} EndlessRun(s: State, k: real, turns: nat, n: nat) returns (es: seq<Event>)
    requires Valid(s) && k > 0.0 && s.interval > 0.0 && TurnsWithin(s, k, turns) && EndlessWithin(s, k, turns)
    ensures Exact(s, es, k) && OnlyShares(es) && Monotone(s.windowStart, es) && |Changes(s, es)| >= n
    decreases turns
  {
    if Wayward(s, k) && !InZone(s, k) {
      var i, e := NextMeasurement(s, k);
      var t := s.(shares := s.shares + i);
      var u := Step(t, e).0;
      StepKeepsValid(t, e);
      MeasuredIsNext(t, e, k);
      NextIsValid(s, k);
      AlikeNext(s, t, k);
      TurnsOnce(s, k, turns);
      AlikeEndless(Next(s, k), u, k, turns - 1);
      var rest := EndlessRun(u, k, turns - 1, n);
      es := RunWith(s, k, i, e, rest);
    } else {
      QuotientShrinks(k, s.difficulty, s.max);
      QuotientShrinks(k, s.min, s.difficulty);
      if ClimbsOn(s, k) {
        var m := SomeClimb(s, k);
        es := ClimbingRun(s, k, n, m);
      } else {
        var m := SomeSink(s, k);
        es := SinkingRun(s, k, n, m);
      }
    }
  }

  // From any state, the retargets of a constant miner are bounded over all runs
  // exactly when no limit keeps pushing.
  lemma RetargetsEndExactly(s: State, k: real)
    requires Valid(s) && k > 0.0 && s.interval > 0.0
    ensures (exists n: nat :: ChangesAtMost(s, k, n)) <==> !Endless(s, k)
  {
    NineTurnsAreEnough(s, k);
    if Endless(s, k) {
      forall n: nat ensures !ChangesAtMost(s, k, n) {
        var es := EndlessRun(s, k, TURNS, n + 1);
      }
    } else {
      var n := EndsUnlessEndless(s, k, TURNS);
      assert Alike(s, s);
      assert ChangesAtMost(s, k, n);
    }
  }

  // For a fresh tracker this can be read off its parameters.
  lemma FreshRetargetsEndExactly(target: real, interval: real, initial: real, now: real, k: real)
    requires target > 0.0 && interval > 0.0 && 0.0 < initial <= MAX_DIFFICULTY && k > 0.0
    ensures var s := Fresh(target, interval, initial, now); var e := k / target; var low := RealMin(initial, 1.0);
      (exists n: nat :: ChangesAtMost(s, k, n)) <==>
        && !(e >= 1.5 * MAX_DIFFICULTY && e > 1.5 * initial && (k / initial < 10.0 || k / MAX_DIFFICULTY > 50.0))
        && !(e <= 0.6 * low && e < 0.6 * initial && (k / initial > 50.0 || k / low < 10.0))
  {
    RetargetsEndExactly(Fresh(target, interval, initial, now), k);
  }
}
