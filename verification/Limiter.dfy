// The brute-force limiter shared by the two login handlers of
// crates/pool-api/src/admin.rs.  A handler checks the limiter under one lock and
// records a failure under another, so handlers interleave between the two.

module Limiter {

  const LOGIN_FAIL_WINDOW := 900.0
  const LOGIN_FAIL_MAX: nat := 5

  predicate Expired(t: real, now: real) { now - t > LOGIN_FAIL_WINDOW }

  // The queue after popping expired entries off its front.
  function DropExpired(q: seq<real>, now: real): seq<real>
    decreases q
  {
    if q != [] && Expired(q[0], now) then DropExpired(q[1..], now) else q
  }

  class LoginLimiter {
    var failures: seq<real>

    constructor ()
      ensures failures == []
    {
      failures := [];
    }

    method Locked(now: real) returns (locked: bool)
      modifies this
      ensures failures == DropExpired(old(failures), now)
      ensures locked <==> |failures| >= LOGIN_FAIL_MAX
    {
      while failures != [] && Expired(failures[0], now)
        invariant DropExpired(failures, now) == DropExpired(old(failures), now)
        decreases |failures|
      {
        failures := failures[1..];
      }
      locked := |failures| >= LOGIN_FAIL_MAX;
    }

    method RecordFailure(now: real)
      modifies this
      ensures failures == old(failures) + [now]
    {
      failures := failures + [now];
    }
  }

  ghost predicate Sorted(q: seq<real>) {
    forall i, j | 0 <= i < j < |q| :: q[i] <= q[j]
  }

  // On a sorted queue popping the front removes exactly the expired entries.
  lemma {:induction false} DropsExactlyExpired(q: seq<real>, now: real)
    requires Sorted(q)
    ensures var r := DropExpired(q, now); var n := |q| - |r|;
      && n >= 0 && r == q[n..] && Sorted(r)
      && (forall i | 0 <= i < |q| :: Expired(q[i], now) <==> i < n)
    decreases q
  {
    if q != [] && Expired(q[0], now) {
      DropsExactlyExpired(q[1..], now);
      var n := |q[1..]| - |DropExpired(q[1..], now)|;
      assert q[1..][n..] == q[n + 1..];
      forall i | 0 <= i < |q| ensures Expired(q[i], now) <==> i < n + 1 {
        if i > 0 { assert q[i] == q[1..][i - 1]; }
      }
    }
  }

  // ----- handlers in any order

  datatype Action =
    | Check(at: real)     // a new handler takes the first lock
    | Fail(at: real)      // a handler past the check records a wrong password
    | Succeed(at: real)   // a handler past the check logs in

  // The queue, every failure ever recorded, how many handlers are between the
  // check and their end, and the time of the last action.
  datatype State = State(queue: seq<real>, history: seq<real>, pending: nat, clock: real)

  function Start(now: real): State { State([], [], 0, now) }

  function Act(s: State, a: Action): State {
    match a
    case Check(now) =>
      var q := DropExpired(s.queue, now);
      s.(queue := q, clock := now, pending := if |q| >= LOGIN_FAIL_MAX then s.pending else s.pending + 1)
    case Fail(now) =>
      if s.pending == 0 then s.(clock := now)
      else s.(queue := s.queue + [now], history := s.history + [now], pending := s.pending - 1, clock := now)
    case Succeed(now) =>
      if s.pending == 0 then s.(clock := now) else s.(pending := s.pending - 1, clock := now)
  }

  function Run(s: State, actions: seq<Action>): State
    decreases actions
  {
    if actions == [] then s else Run(Act(s, actions[0]), actions[1..])
  }

  // Time does not run backwards, and at most p handlers are ever past the check.
  ghost predicate Bounded(s: State, actions: seq<Action>, p: nat)
    decreases actions
  {
    s.pending <= p &&
    (actions != [] ==> s.clock <= actions[0].at && Bounded(Act(s, actions[0]), actions[1..], p))
  }

  // How many recorded failures fall in the span that starts at a.
  function InSpan(h: seq<real>, a: real): nat {
    if h == [] then 0
    else InSpan(h[..|h| - 1], a) + if a <= h[|h| - 1] <= a + 900.0 then 1 else 0
  }

  lemma InSpanAppend(h: seq<real>, t: real, a: real)
    ensures InSpan(h + [t], a) == InSpan(h, a) + if a <= t <= a + LOGIN_FAIL_WINDOW then 1 else 0
  {
    assert (h + [t])[..|h|] == h;
  }

  // Entries before the span do not count.
  lemma {:induction false} InSpanSuffix(h: seq<real>, n: nat, a: real)
    requires n <= |h| && forall i | 0 <= i < n :: h[i] < a
    ensures InSpan(h, a) <= |h| - n
    decreases |h|
  {
    if h != [] {
      var m := |h| - 1;
      if n == |h| { assert h[m] < a; InSpanSuffix(h[..m], m, a); }
      else { InSpanSuffix(h[..m], n, a); }
    }
  }

  // The queue is the end of the history, and everything cut off has expired.
  ghost predicate Kept(s: State) {
    && Sorted(s.history) && (forall i | 0 <= i < |s.history| :: s.history[i] <= s.clock)
    && |s.queue| <= |s.history| && s.queue == s.history[|s.history| - |s.queue|..]
    && (forall i | 0 <= i < |s.history| - |s.queue| :: Expired(s.history[i], s.clock))
  }

  // No span holds too many failures, and the spans that are still open have room
  // for all pending handlers.
  ghost predicate Roomy(s: State, p: nat) {
    && s.pending <= p
    && (forall a: real :: InSpan(s.history, a) <= LOGIN_FAIL_MAX - 1 + p)
    && (forall a: real | a >= s.clock - LOGIN_FAIL_WINDOW :: InSpan(s.history, a) + s.pending <= LOGIN_FAIL_MAX - 1 + p)
  }

  ghost predicate Inv(s: State, p: nat) { Kept(s) && Roomy(s, p) }

  lemma SuffixSorted(h: seq<real>, n: nat)
    requires Sorted(h) && n <= |h|
    ensures Sorted(h[n..])
  {
    forall i, j | 0 <= i < j < |h| - n ensures h[n..][i] <= h[n..][j] {
      assert h[n..][i] == h[n + i] && h[n..][j] == h[n + j];
    }
  }

  // Dropping from the kept end of the history is dropping from the history.
  lemma DropFromEnd(h: seq<real>, cut: nat, now: real)
    requires Sorted(h) && cut <= |h| && forall i | 0 <= i < cut :: Expired(h[i], now)
    ensures var q := DropExpired(h[cut..], now); var n := |h| - |q|;
      && n >= 0 && q == h[n..] && forall i | 0 <= i < n :: Expired(h[i], now)
  {
    SuffixSorted(h, cut);
    DropsExactlyExpired(h[cut..], now);
    var m := |h[cut..]| - |DropExpired(h[cut..], now)|;
    assert h[cut..][m..] == h[cut + m..];
    forall i | 0 <= i < cut + m ensures Expired(h[i], now) {
      if i >= cut { assert h[i] == h[cut..][i - cut]; }
    }
  }

  lemma CheckKeepsQueue(s: State, now: real)
    requires Kept(s) && s.clock <= now
    ensures Kept(Act(s, Check(now)))
    ensures var q := DropExpired(s.queue, now);
      |q| <= |s.history| && forall i | 0 <= i < |s.history| - |q| :: Expired(s.history[i], now)
  {
    DropFromEnd(s.history, |s.history| - |s.queue|, now);
  }

  lemma CheckKeepsRoom(s: State, now: real, p: nat)
    requires Kept(s) && Roomy(s, p) && s.clock <= now && Act(s, Check(now)).pending <= p
    ensures Roomy(Act(s, Check(now)), p)
  {
    var h, q, t := s.history, DropExpired(s.queue, now), Act(s, Check(now));
    CheckKeepsQueue(s, now);
    if |q| < LOGIN_FAIL_MAX {
      forall a: real | a >= now - LOGIN_FAIL_WINDOW ensures InSpan(h, a) + t.pending <= LOGIN_FAIL_MAX - 1 + p {
        InSpanSuffix(h, |h| - |q|, a);
      }
    }
  }

  lemma FailKeepsQueue(s: State, now: real)
    requires Kept(s) && s.clock <= now
    ensures Kept(Act(s, Fail(now)))
  {
    if s.pending > 0 {
      var t := Act(s, Fail(now));
      assert t.queue == t.history[|s.history| - |s.queue|..];
    }
  }

  lemma FailKeepsRoom(s: State, now: real, p: nat)
    requires Roomy(s, p) && s.clock <= now
    ensures Roomy(Act(s, Fail(now)), p)
  {
    if s.pending > 0 {
      var h, t := s.history, Act(s, Fail(now));
      forall a: real ensures InSpan(t.history, a) <= LOGIN_FAIL_MAX - 1 + p {
        InSpanAppend(h, now, a);
      }
      forall a: real | a >= now - LOGIN_FAIL_WINDOW ensures InSpan(t.history, a) + t.pending <= LOGIN_FAIL_MAX - 1 + p {
        InSpanAppend(h, now, a);
      }
    }
  }

  lemma {:induction false} RunKeepsInv(s: State, actions: seq<Action>, p: nat)
    requires Inv(s, p) && Bounded(s, actions, p)
    ensures Inv(Run(s, actions), p)
    decreases actions
  {
    if actions != [] {
      var a := actions[0];
      match a {
        case Check(now) => CheckKeepsQueue(s, now); CheckKeepsRoom(s, now, p);
        case Fail(now) => FailKeepsQueue(s, now); FailKeepsRoom(s, now, p);
        case Succeed(now) =>
      }
      RunKeepsInv(Act(s, a), actions[1..], p);
    }
  }

  // In every interleaving with at most p handlers past the check, any span of
  // 900 seconds holds at most 4 + p recorded failures: five when the handlers run
  // one at a time.
  lemma FailuresPerSpan(now: real, actions: seq<Action>, p: nat, a: real)
    requires Bounded(Start(now), actions, p)
    ensures InSpan(Run(Start(now), actions).history, a) <= 4 + p
  {
    RunKeepsInv(Start(now), actions, p);
  }

  // And the queue is sorted at every moment.
  lemma QueueIsSorted(now: real, actions: seq<Action>, p: nat)
    requires Bounded(Start(now), actions, p)
    ensures Sorted(Run(Start(now), actions).queue)
  {
    RunKeepsInv(Start(now), actions, p);
    var s := Run(Start(now), actions);
    SuffixSorted(s.history, |s.history| - |s.queue|);
  }

  // ----- who is refused

  ghost predicate Timed(s: State, actions: seq<Action>)
    decreases actions
  {
    actions != [] ==> s.clock <= actions[0].at && Timed(Act(s, actions[0]), actions[1..])
  }

  lemma {:induction false} RunKeepsQueue(s: State, actions: seq<Action>)
    requires Kept(s) && Timed(s, actions)
    ensures Kept(Run(s, actions))
    decreases actions
  {
    if actions != [] {
      match actions[0] {
        case Check(now) => CheckKeepsQueue(s, now);
        case Fail(now) => FailKeepsQueue(s, now);
        case Succeed(now) =>
      }
      RunKeepsQueue(Act(s, actions[0]), actions[1..]);
    }
  }

  // The recorded failures that are no more than 900 seconds old.
  function Recent(h: seq<real>, now: real): nat {
    if h == [] then 0 else Recent(h[..|h| - 1], now) + if now - h[|h| - 1] <= 900.0 then 1 else 0
  }

  lemma {:induction false} RecentIsSuffix(h: seq<real>, n: nat, now: real)
    requires n <= |h| && forall i | 0 <= i < |h| :: now - h[i] > 900.0 <==> i < n
    ensures Recent(h, now) == |h| - n
    decreases |h|
  {
    if h != [] { RecentIsSuffix(h[..|h| - 1], if n == |h| then n - 1 else n, now); }
  }

  // In every interleaving a handler is refused exactly when five failures of the
  // last 900 seconds are on record, whichever handlers recorded them.
  lemma RefusedExactly(start: real, actions: seq<Action>, now: real)
    requires Timed(Start(start), actions) && Run(Start(start), actions).clock <= now
    ensures var s := Run(Start(start), actions); var t := Act(s, Check(now));
      t.history == s.history && t.pending == s.pending + if Recent(s.history, now) < 5 then 1 else 0
  {
    RunKeepsQueue(Start(start), actions);
    RecentAreQueued(Run(Start(start), actions), now);
  }

  lemma RecentAreQueued(s: State, now: real)
    requires Kept(s) && s.clock <= now
    ensures |DropExpired(s.queue, now)| == Recent(s.history, now)
  {
    var (h, q) := (s.history, DropExpired(s.queue, now));
    CheckKeepsQueue(s, now);
    SuffixSorted(h, |h| - |s.queue|);
    DropsExactlyExpired(s.queue, now);
    var n := |h| - |q|;
    forall i | 0 <= i < |h| ensures now - h[i] > 900.0 <==> i < n {
      if i >= |h| - |s.queue| { assert h[i] == s.queue[i - (|h| - |s.queue|)]; }
    }
    RecentIsSuffix(h, n, now);
  }

  // A failure of a handler past the check goes on record at its time.
  lemma FailureIsRecorded(s: State, now: real)
    requires s.pending > 0
    ensures Act(s, Fail(now)).history == s.history + [now] && Act(s, Fail(now)).pending == s.pending - 1
    ensures Act(s, Succeed(now)).history == s.history && Act(s, Succeed(now)).pending == s.pending - 1
  {
  }

  // ----- the bound is reached

  function Times(n: nat, now: real): seq<real> { seq(n, i requires 0 <= i < n => now) }

  function Repeat(a: Action, n: nat): seq<Action> {
    if n == 0 then [] else [a] + Repeat(a, n - 1)
  }

  function OneByOne(n: nat, now: real): seq<Action> {
    if n == 0 then [] else [Check(now), Fail(now)] + OneByOne(n - 1, now)
  }

  // Four failures one after the other, then p handlers that all check before any
  // of them fails.
  function Burst(p: nat, now: real): seq<Action> {
    OneByOne(4, now) + (Repeat(Check(now), p) + Repeat(Fail(now), p))
  }

  lemma {:induction false} RunConcat(s: State, a: seq<Action>, b: seq<Action>, p: nat)
    ensures Run(s, a + b) == Run(Run(s, a), b)
    ensures Bounded(s, a, p) && Bounded(Run(s, a), b, p) ==> Bounded(s, a + b, p)
    decreases a
  {
    if a == [] {
      assert a + b == b;
    } else {
      assert (a + b)[0] == a[0] && (a + b)[1..] == a[1..] + b;
      RunConcat(Act(s, a[0]), a[1..], b, p);
    }
  }

  lemma NothingExpiresNow(n: nat, now: real)
    ensures DropExpired(Times(n, now), now) == Times(n, now)
  {
  }

  lemma {:induction false} RunOneByOne(k: nat, n: nat, now: real, p: nat)
    requires k + n <= 4 && p >= 1
    ensures var s := State(Times(k, now), Times(k, now), 0, now);
      && Run(s, OneByOne(n, now)) == State(Times(k + n, now), Times(k + n, now), 0, now)
      && Bounded(s, OneByOne(n, now), p)
    decreases n
  {
    if n > 0 {
      var s := State(Times(k, now), Times(k, now), 0, now);
      var actions := OneByOne(n, now);
      NothingExpiresNow(k, now);
      assert Times(k, now) + [now] == Times(k + 1, now);
      assert actions[0] == Check(now) && actions[1..][0] == Fail(now) && actions[1..][1..] == OneByOne(n - 1, now);
      RunOneByOne(k + 1, n - 1, now, p);
    }
  }

  lemma {:induction false} RunChecks(pending: nat, n: nat, now: real, p: nat)
    requires pending + n <= p
    ensures var s := State(Times(4, now), Times(4, now), pending, now);
      && Run(s, Repeat(Check(now), n)) == s.(pending := pending + n)
      && Bounded(s, Repeat(Check(now), n), p)
    decreases n
  {
    if n > 0 {
      NothingExpiresNow(4, now);
      assert Repeat(Check(now), n)[1..] == Repeat(Check(now), n - 1);
      RunChecks(pending + 1, n - 1, now, p);
    }
  }

  lemma {:induction false} RunFails(k: nat, n: nat, now: real, p: nat)
    requires n <= p
    ensures var s := State(Times(k, now), Times(k, now), n, now);
      && Run(s, Repeat(Fail(now), n)) == State(Times(k + n, now), Times(k + n, now), 0, now)
      && Bounded(s, Repeat(Fail(now), n), p)
    decreases n
  {
    if n > 0 {
      assert Times(k, now) + [now] == Times(k + 1, now);
      assert Repeat(Fail(now), n)[1..] == Repeat(Fail(now), n - 1);
      RunFails(k + 1, n - 1, now, p);
    }
  }

  lemma {:induction false} InSpanTimes(n: nat, now: real)
    ensures InSpan(Times(n, now), now) == n
  {
    if n > 0 {
      InSpanTimes(n - 1, now);
      assert Times(n, now)[..n - 1] == Times(n - 1, now);
    }
  }

  // So "five guesses in fifteen minutes" is exact only for handlers that do not
  // overlap; p overlapping ones get p - 1 more.
  lemma BoundIsReached(now: real, p: nat)
    requires p >= 1
    ensures Bounded(Start(now), Burst(p, now), p)
    ensures InSpan(Run(Start(now), Burst(p, now)).history, now) == 4 + p
  {
    StartIsEmpty(now);
    RunOneByOne(0, 4, now, p);
    RunOverlapping(now, p);
    RunConcat(Start(now), OneByOne(4, now), Repeat(Check(now), p) + Repeat(Fail(now), p), p);
    InSpanTimes(4 + p, now);
  }

  lemma StartIsEmpty(now: real)
    ensures Start(now) == State(Times(0, now), Times(0, now), 0, now)
  {
  }

  lemma RunOverlapping(now: real, p: nat)
    ensures var s := State(Times(4, now), Times(4, now), 0, now);
      var actions := Repeat(Check(now), p) + Repeat(Fail(now), p);
      && Run(s, actions) == State(Times(4 + p, now), Times(4 + p, now), 0, now)
      && Bounded(s, actions, p)
  {
    var s := State(Times(4, now), Times(4, now), 0, now);
    RunChecks(0, p, now, p);
    RunFails(4, p, now, p);
    RunConcat(s, Repeat(Check(now), p), Repeat(Fail(now), p), p);
  }
}
