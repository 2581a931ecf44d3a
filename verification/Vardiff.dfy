// Variable share difficulty of one miner: the timed controller of
// crates/pool-core/src/difficulty.rs.  Times are seconds and rates are exact
// reals; every call is given one reading of the clock.

module Vardiff {
  import opened Common

  const MIN_RETARGET_INTERVAL := 0.5
  const EARLY_TRIGGER_COOLDOWN := 12.0
  const MAX_DIFFICULTY := 10_000_000_000.0

  datatype Trigger = Early | Interval | RateLimit

  datatype Phase = Ramp | Ema

  // One successful retarget, as reported to the caller.
  datatype Change = Change(at: real, before: real, after: real, trigger: Trigger, phase: Phase, midpoint: bool)

  datatype State = State(
    shares: nat,
    windowStart: real,
    target: real,
    interval: real,
    difficulty: real,
    min: real,
    max: real,
    ema: real,
    lastUp: Option<bool>,
    lastRetarget: real,
    lastEarly: Option<real>)

  // What the measured rate asks for: leave the difficulty alone, or move it.
  datatype Verdict = Hold(ema: real) | Move(difficulty: real, ema: real, phase: Phase)

  function Fresh(target: real, interval: real, initial: real, now: real): State {
    State(0, now, target, interval, initial, RealMin(initial, 1.0), MAX_DIFFICULTY, 1.0, None, now, None)
  }

  function Rate(shares: nat, elapsed: real): real {
    shares as real / RealMax(elapsed, 0.01) * 60.0
  }

  function SharesPerMinute(s: State, now: real): real {
    Rate(s.shares, now - s.windowStart)
  }

  function Scaled(difficulty: real, factor: real, min: real, max: real): real
    requires min <= max
  {
    Clamp(difficulty * factor, min, max)
  }

  function Smoothed(ratio: real, ema: real): real {
    0.15 * ratio + 0.85 * ema
  }

  function Judge(s: State, spm: real): Verdict
    requires s.target > 0.0 && s.min <= s.max
  {
    var ratio := spm / s.target;
    if 10.0 <= spm <= 50.0 then Hold(s.ema)
    else if ratio > 4.0 || ratio < 0.25 then
      Move(Scaled(s.difficulty, Clamp(ratio, 0.5, 2.0), s.min, s.max), 1.0, Ramp)
    else
      var ema := Smoothed(ratio, s.ema);
      if 0.6 < ema < 1.5 then Hold(ema)
      else Move(Scaled(s.difficulty, Clamp(ema, 0.8, 1.25), s.min, s.max), ema, Ema)
  }

  // A move against the direction of the last one stops half way.
  predicate Reverses(s: State, d: real) {
    s.lastUp.Some? && s.lastUp.value != (d > s.difficulty)
  }

  function Landing(s: State, d: real): real {
    if Reverses(s, d) then (s.difficulty + d) / 2.0 else d
  }

  function Compute(s: State, now: real, trigger: Trigger): (State, Option<Change>)
    requires s.target > 0.0 && s.min <= s.max
  {
    if now - s.lastRetarget < MIN_RETARGET_INTERVAL then (s, None)
    else
      match Judge(s, SharesPerMinute(s, now))
      case Hold(ema) => (s.(shares := 0, windowStart := now, ema := ema), None)
      case Move(d, ema, phase) =>
        var midpoint := Reverses(s, d);
        var after := Landing(s, d);
        (s.(shares := 0, windowStart := now, difficulty := after, ema := ema,
            lastUp := Some(after > s.difficulty), lastRetarget := now,
            lastEarly := if trigger == Early then Some(now) else s.lastEarly),
         Some(Change(now, s.difficulty, after, trigger, phase, midpoint)))
  }

  // Which trigger, if any, a recorded share pulls.
  function Fires(s: State, now: real): Option<Trigger> {
    var elapsed := now - s.windowStart;
    var cooling := s.lastEarly.Some? && now - s.lastEarly.value < EARLY_TRIGGER_COOLDOWN;
    if s.shares as real > s.target * elapsed / 60.0 * 4.0 && elapsed >= 3.0 && !cooling then Some(Early)
    else if elapsed < s.interval then None
    else Some(Interval)
  }

  datatype Event = Share(at: real) | Force(at: real)

  function Count(s: State): State { s.(shares := s.shares + 1) }

  function Step(s: State, e: Event): (State, Option<Change>)
    requires s.target > 0.0 && s.min <= s.max
  {
    match e
    case Force(now) => Compute(Count(s), now, RateLimit)
    case Share(now) =>
      match Fires(Count(s), now)
      case None => (Count(s), None)
      case Some(trigger) => Compute(Count(s), now, trigger)
  }

  class VardiffTracker {
    var sharesInWindow: nat
    var windowStart: real
    const targetSharesPerMinute: real
    const retargetIntervalSecs: real
    var currentDifficulty: real
    const minDifficulty: real
    const maxDifficulty: real
    var smoothedRatio: real
    var lastWentUp: Option<bool>
    var lastRetargetAt: real
    var lastEarlyRetargetAt: Option<real>

    ghost function Abs(): State
      reads this
    {
      State(sharesInWindow, windowStart, targetSharesPerMinute, retargetIntervalSecs, currentDifficulty,
            minDifficulty, maxDifficulty, smoothedRatio, lastWentUp, lastRetargetAt, lastEarlyRetargetAt)
    }

    constructor (target: real, interval: real, initial: real, now: real)
      ensures Abs() == Fresh(target, interval, initial, now)
    {
      sharesInWindow, windowStart := 0, now;
      targetSharesPerMinute, retargetIntervalSecs := target, interval;
      currentDifficulty := initial;
      minDifficulty, maxDifficulty := RealMin(initial, 1.0), MAX_DIFFICULTY;
      smoothedRatio := 1.0;
      lastWentUp := None;
      lastRetargetAt := now;
      lastEarlyRetargetAt := None;
    }

    method RecordShare(now: real) returns (r: Option<Change>)
      requires Valid(Abs())
      modifies this
      ensures (Abs(), r) == Step(old(Abs()), Share(now))
    {
      sharesInWindow := sharesInWindow + 1;
      var elapsed := now - windowStart;
      var expectedInElapsed := targetSharesPerMinute * elapsed / 60.0;
      var inEarlyCooldown := lastEarlyRetargetAt.Some? && now - lastEarlyRetargetAt.value < EARLY_TRIGGER_COOLDOWN;
      var earlyTrigger := sharesInWindow as real > expectedInElapsed * 4.0 && elapsed >= 3.0 && !inEarlyCooldown;
      if !earlyTrigger && elapsed < retargetIntervalSecs {
        return None;
      }
      r := ComputeRetarget(now, if earlyTrigger then Early else Interval);
    }

    method ForceRetarget(now: real) returns (r: Option<Change>)
      requires Valid(Abs())
      modifies this
      ensures (Abs(), r) == Step(old(Abs()), Force(now))
    {
      sharesInWindow := sharesInWindow + 1;
      r := ComputeRetarget(now, RateLimit);
    }

    method ComputeRetarget(now: real, trigger: Trigger) returns (r: Option<Change>)
      requires Valid(Abs())
      modifies this
      ensures (Abs(), r) == Compute(old(Abs()), now, trigger)
    {
      if now - lastRetargetAt < MIN_RETARGET_INTERVAL {
        return None;
      }
      var elapsed := now - windowStart;
      var sharesPerMinute := Rate(sharesInWindow, elapsed);
      ghost var verdict := Judge(Abs(), sharesPerMinute);
      if sharesPerMinute >= 10.0 && sharesPerMinute <= 50.0 {
        sharesInWindow, windowStart := 0, now;
        return None;
      }
      var ratio := sharesPerMinute / targetSharesPerMinute;
      var newDifficulty, phase;
      if ratio > 4.0 || ratio < 0.25 {
        smoothedRatio := 1.0;
        newDifficulty := Scaled(currentDifficulty, Clamp(ratio, 0.5, 2.0), minDifficulty, maxDifficulty);
        phase := Ramp;
      } else {
        smoothedRatio := Smoothed(ratio, smoothedRatio);
        if smoothedRatio > 0.6 && smoothedRatio < 1.5 {
          sharesInWindow, windowStart := 0, now;
          return None;
        }
        newDifficulty := Scaled(currentDifficulty, Clamp(smoothedRatio, 0.8, 1.25), minDifficulty, maxDifficulty);
        phase := Ema;
      }
      assert verdict == Move(newDifficulty, smoothedRatio, phase);
      var goingUp := newDifficulty > currentDifficulty;
      var finalDifficulty, midpoint := newDifficulty, false;
      if lastWentUp.Some? && lastWentUp.value != goingUp {
        finalDifficulty, midpoint := (currentDifficulty + newDifficulty) / 2.0, true;
      }
      r := Some(Change(now, currentDifficulty, finalDifficulty, trigger, phase, midpoint));
      lastWentUp := Some(finalDifficulty > currentDifficulty);
      currentDifficulty := finalDifficulty;
      sharesInWindow, windowStart := 0, now;
      lastRetargetAt := now;
      if trigger == Early {
        lastEarlyRetargetAt := Some(now);
      }
    }
  }

  // ----- what every call keeps

  ghost predicate Valid(s: State) {
    && s.target > 0.0
    && 0.0 < s.min <= s.difficulty <= s.max
    && 0.25 <= s.ema <= 4.0
  }

  lemma FreshIsValid(target: real, interval: real, initial: real, now: real)
    requires target > 0.0
    ensures Valid(Fresh(target, interval, initial, now)) <==> 0.0 < initial <= 10_000_000_000.0
  {
  }

  // Every retarget keeps the difficulty inside its limits, moves it by a factor
  // of at most two either way, and keeps the average inside the steady band.
  lemma ComputeKeepsValid(s: State, now: real, trigger: Trigger)
    requires Valid(s)
    ensures var (t, c) := Compute(s, now, trigger);
      && Valid(t) && t.target == s.target && t.min == s.min && t.max == s.max
      && t.difficulty <= 2.0 * s.difficulty && s.difficulty <= 2.0 * t.difficulty
      && (c == None ==> t.difficulty == s.difficulty)
  {
    var spm := SharesPerMinute(s, now);
    JudgeBounds(s, spm);
  }

  lemma JudgeBounds(s: State, spm: real)
    requires Valid(s)
    ensures match Judge(s, spm)
      case Hold(ema) => 0.25 <= ema <= 4.0
      case Move(d, ema, _) =>
        && 0.25 <= ema <= 4.0 && s.min <= d <= s.max
        && d <= 2.0 * s.difficulty && s.difficulty <= 2.0 * d
  {
    var c := Clamp(spm / s.target, 0.5, 2.0);
    Scaling(s.difficulty, c, 0.5, 2.0);
    var e := Clamp(Smoothed(spm / s.target, s.ema), 0.8, 1.25);
    Scaling(s.difficulty, e, 0.8, 1.25);
  }

  lemma Scaling(d: real, c: real, low: real, high: real)
    requires d > 0.0 && low <= c <= high
    ensures low * d <= d * c <= high * d
  {
  }
}
