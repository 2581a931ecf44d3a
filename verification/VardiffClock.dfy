// When a share is measured, and what one measurement does, in terms of the clock
// and the count of shares alone.

module VardiffClock {
  import opened Common
  import opened Vardiff
  import opened VardiffRuns

  // ----- when

  // More than four times the shares expected by now, in a window of at least
  // three seconds, and no early retarget in the last twelve.
  predicate Flood(s: State, now: real) {
    && now - s.windowStart >= 3.0
    && (s.shares + 1) as real * 15.0 > s.target * (now - s.windowStart)
    && (s.lastEarly.Some? ==> now - s.lastEarly.value >= 12.0)
  }

  // A share closes the window exactly when half a second has passed since the
  // last retarget and the window is as old as the interval, or flooded.
  // Anything else only counts the share.
  lemma ShareClosesWindow(s: State, now: real)
    requires Valid(s)
    ensures var (t, c) := Step(s, Share(now));
      && (t.shares == 0 && t.windowStart == now <==>
          now - s.lastRetarget >= 0.5 && (now - s.windowStart >= s.interval || Flood(s, now)))
      && (!(t.shares == 0 && t.windowStart == now) ==> t == s.(shares := s.shares + 1) && c == None)
      && (c.Some? ==> c.value.at == now && c.value.trigger == if Flood(s, now) then Early else Interval)
  {
  }

  // A forced retarget waits for the half second only.
  lemma ForceClosesWindow(s: State, now: real)
    requires Valid(s)
    ensures var (t, c) := Step(s, Force(now));
      && (t.shares == 0 && t.windowStart == now <==> now - s.lastRetarget >= 0.5)
      && (!(t.shares == 0 && t.windowStart == now) ==> t == s.(shares := s.shares + 1) && c == None)
      && (c.Some? ==> c.value.at == now && c.value.trigger == RateLimit)
  {
  }

  // For a new tracker the first share is measured when the interval has passed,
  // or after three seconds if one share is already too many.
  lemma FirstShare(target: real, interval: real, initial: real, start: real, now: real)
    requires target > 0.0 && 0.0 < initial <= 10_000_000_000.0
    ensures var t := Step(Fresh(target, interval, initial, start), Share(now)).0; var age := now - start;
      t.shares == 0 && t.windowStart == now <==>
        age >= 0.5 && (age >= interval || (age >= 3.0 && target * age < 15.0))
  {
    ShareClosesWindow(Fresh(target, interval, initial, start), now);
  }

  // Over every run of a new tracker the difficulty stays between the smaller of
  // one and its first value, and ten thousand million.
  lemma FreshLimits(target: real, interval: real, initial: real, start: real, es: seq<Event>)
    requires target > 0.0 && 0.0 < initial <= 10_000_000_000.0
    ensures var t := Final(Fresh(target, interval, initial, start), es);
      RealMin(initial, 1.0) <= t.difficulty <= 10_000_000_000.0 && 0.25 <= t.ema <= 4.0
  {
    RunKeepsLimits(Fresh(target, interval, initial, start), es);
  }

  // ----- what

  // A window of n shares reads n per its length, which counts as at least a
  // hundredth of a second.
  lemma RateIsCounted(n: nat, elapsed: real)
    ensures elapsed >= 0.01 ==> Rate(n, elapsed) * elapsed == 60.0 * n as real
    ensures elapsed <= 0.01 ==> Rate(n, elapsed) == 6000.0 * n as real
  {
    if elapsed >= 0.01 {
      var q := n as real / elapsed;
      assert q * elapsed == n as real;
    }
  }

  // The difficulty a measured rate asks for.
  function Aim(s: State, spm: real): real {
    var d := s.difficulty;
    if spm > 4.0 * s.target then RealMin(2.0 * d, s.max)
    else if 4.0 * spm < s.target then RealMax(d / 2.0, s.min)
    else if Average(s, spm) >= 1.5 then RealMin(5.0 * d / 4.0, s.max)
    else RealMax(4.0 * d / 5.0, s.min)
  }

  function Average(s: State, spm: real): real {
    if s.target > 0.0 then (3.0 * (spm / s.target) + 17.0 * s.ema) / 20.0 else s.ema
  }

  predicate FarOff(s: State, spm: real) {
    spm > 4.0 * s.target || 4.0 * spm < s.target
  }

  lemma AgainstTarget(spm: real, target: real)
    requires target > 0.0
    ensures spm / target > 4.0 <==> spm > 4.0 * target
    ensures spm / target < 0.25 <==> 4.0 * spm < target
  {
    var q := spm / target;
    assert q * target == spm;
    SameSign(q - 4.0, target);
    SameSign(0.25 - q, target);
  }

  lemma SameSign(a: real, b: real)
    requires b > 0.0
    ensures a * b > 0.0 <==> a > 0.0
  {
  }

  // Ten to fifty shares a minute only close the window.
  lemma ZoneOnlyClosesWindow(s: State, now: real, trigger: Trigger)
    requires Valid(s) && now - s.lastRetarget >= 0.5 && 10.0 <= SharesPerMinute(s, now) <= 50.0
    ensures Compute(s, now, trigger) == (s.(shares := 0, windowStart := now), None)
  {
  }

  // Any other rate moves the difficulty, unless it is within a factor of four of
  // the target and the average stays between 0.6 and 1.5; far off, the average
  // starts afresh.
  lemma MeasuredOutsideZone(s: State, now: real, trigger: Trigger)
    requires Valid(s) && now - s.lastRetarget >= 0.5
    requires !(10.0 <= SharesPerMinute(s, now) <= 50.0)
    ensures var (t, c) := Compute(s, now, trigger); var spm := SharesPerMinute(s, now);
      && (c == None <==> !FarOff(s, spm) && 0.6 < Average(s, spm) < 1.5)
      && t.ema == (if FarOff(s, spm) then 1.0 else Average(s, spm))
      && (c == None ==> t == s.(shares := 0, windowStart := now, ema := t.ema))
      && (c.Some? ==> c.value.phase == if FarOff(s, spm) then Ramp else Ema)
  {
    AgainstTarget(SharesPerMinute(s, now), s.target);
  }

  // A move reaches its aim, or only half way to it if the last move went the
  // other way.
  lemma MoveReachesAim(s: State, now: real, trigger: Trigger)
    requires Valid(s) && Compute(s, now, trigger).1.Some?
    ensures var (t, c) := Compute(s, now, trigger);
      var (d, aim) := (s.difficulty, Aim(s, SharesPerMinute(s, now)));
      && c.value.before == d && c.value.after == t.difficulty
      && c.value.midpoint == (s.lastUp == Some(!(aim > d)))
      && t.difficulty - d == (if c.value.midpoint then (aim - d) / 2.0 else aim - d)
      && t.lastUp == Some(t.difficulty > d) && t.lastRetarget == now && t.shares == 0 && t.windowStart == now
  {
    AgainstTarget(SharesPerMinute(s, now), s.target);
  }

  // So a lone share that comes late enough halves the difficulty of a tracker
  // that has not moved before, down to the minimum.
  lemma LateShareLowers(s: State, now: real)
    requires Valid(s) && s.shares == 0 && s.lastUp == None
    requires now - s.lastRetarget >= 0.5 && now - s.windowStart >= RealMax(s.interval, 0.01)
    requires now - s.windowStart > 6.0 && s.target * (now - s.windowStart) > 240.0
    ensures Step(s, Share(now)).0.difficulty == RealMax(s.difficulty / 2.0, s.min)
  {
    var elapsed, spm := now - s.windowStart, SharesPerMinute(Count(s), now);
    RateIsCounted(1, elapsed);
    assert spm * elapsed == 60.0;
    SameSign(10.0 - spm, elapsed);
    SameSign(s.target - 4.0 * spm, elapsed);
    AgainstTarget(spm, s.target);
  }
}
