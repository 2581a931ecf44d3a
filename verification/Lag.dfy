// The template lag window of crates/pool-core/src/lag.rs: the last 200 samples,
// nearest-rank percentiles, and the race between recording and taking a snapshot.

module Lag {
  import opened Common

  const MAX_SAMPLES: nat := 200

  datatype Kind = EmptyBlock | FullTemplate

  datatype Sample = Sample(lagMs: real, height: nat, kind: Kind)

  function Last<T>(s: seq<T>, n: nat): seq<T> {
    if |s| <= n then s else s[|s| - n..]
  }

  // The window is everything recorded, or the last two hundred samples of it.
  lemma WindowOf(history: seq<Sample>)
    ensures Last(history, MAX_SAMPLES) == if |history| <= 200 then history else history[|history| - 200..]
  {
  }

  // ----- percentiles

  ghost predicate Sorted(s: seq<real>) {
    forall i, j | 0 <= i < j < |s| :: s[i] <= s[j]
  }

  function Insert(s: seq<real>, x: real): seq<real> {
    if s == [] || x <= s[0] then [x] + s else [s[0]] + Insert(s[1..], x)
  }

  function Sort(s: seq<real>): seq<real> {
    if s == [] then [] else Insert(Sort(s[1..]), s[0])
  }

  lemma {:induction false} InsertKeeps(s: seq<real>, x: real)
    ensures multiset(Insert(s, x)) == multiset(s) + multiset{x}
  {
    if s != [] {
      assert s == [s[0]] + s[1..];
      if s[0] < x { InsertKeeps(s[1..], x); }
    }
  }

  lemma {:induction false} InsertSorts(s: seq<real>, x: real)
    requires Sorted(s)
    ensures Sorted(Insert(s, x))
    ensures forall i | 0 <= i < |Insert(s, x)| :: Insert(s, x)[i] == x || (s != [] && s[0] <= Insert(s, x)[i])
  {
    if s != [] && s[0] < x { InsertSorts(s[1..], x); }
  }

  lemma {:induction false} SortSorts(s: seq<real>)
    ensures Sorted(Sort(s)) && multiset(Sort(s)) == multiset(s) && |Sort(s)| == |s|
  {
    if s != [] {
      SortSorts(s[1..]);
      InsertSorts(Sort(s[1..]), s[0]);
      InsertKeeps(Sort(s[1..]), s[0]);
      assert s == [s[0]] + s[1..];
    }
    assert |Sort(s)| == |multiset(Sort(s))| == |multiset(s)| == |s|;
  }

  lemma {:induction false} SortedIsSorted(s: seq<real>)
    requires Sorted(s)
    ensures Sort(s) == s
  {
    if s != [] {
      SortedIsSorted(s[1..]);
      assert s == [s[0]] + s[1..];
    }
  }

  // round: halves go away from zero, and ranks are not negative.
  function Rank(n: nat, pct: real): nat
    requires n > 0
  {
    var x := (n - 1) as real * Clamp(pct, 0.0, 1.0);
    RankNonNegative((n - 1) as real, Clamp(pct, 0.0, 1.0));
    (x + 0.5).Floor
  }

  lemma RankNonNegative(m: real, p: real)
    requires m >= 0.0 && 0.0 <= p <= 1.0
    ensures 0.0 <= m * p <= m
  {
    assert m - m * p == m * (1.0 - p);
  }

  lemma RankInRange(n: nat, pct: real)
    requires n > 0
    ensures Rank(n, pct) < n
  {
    RankNonNegative((n - 1) as real, Clamp(pct, 0.0, 1.0));
  }

  // The rank is the nearest to the fraction of the way, the higher one of two.
  lemma RankIsNearest(n: nat, pct: real)
    requires n > 0
    ensures 0.0 <= pct <= 1.0 ==> var x := (n - 1) as real * pct; x - 0.5 < Rank(n, pct) as real <= x + 0.5
    ensures pct <= 0.0 ==> Rank(n, pct) == 0
    ensures pct >= 1.0 ==> Rank(n, pct) == n - 1
  {
    var m := (n - 1) as real;
    RankNonNegative(m, Clamp(pct, 0.0, 1.0));
    if pct <= 0.0 { assert m * 0.0 == 0.0; }
    if pct >= 1.0 { assert m * 1.0 == m; }
  }

  // So the median of an odd number of samples is the middle one, and the other
  // figure of a full window of 200 is its 190th.
  lemma RanksInUse(n: nat)
    ensures Rank(2 * n + 1, 0.50) == n && Rank(2 * n + 2, 0.50) == n + 1
    ensures Rank(200, 0.95) == 189 && Rank(20, 0.95) == 18 && Rank(1, 0.95) == 0
  {
  }

  lemma RankMonotone(n: nat, p: real, q: real)
    requires n > 0 && p <= q
    ensures Rank(n, p) <= Rank(n, q)
  {
    var a, b := Clamp(p, 0.0, 1.0), Clamp(q, 0.0, 1.0);
    assert (n - 1) as real * (b - a) >= 0.0;
  }

  function PercentileOf(s: seq<real>, pct: real): Option<real> {
    if s == [] then None
    else
      SortSorts(s);
      RankInRange(|s|, pct);
      Some(Sort(s)[Rank(|s|, pct)])
  }

  method Percentile(values: array<real>, pct: real) returns (r: Option<real>)
    modifies values
    ensures r == PercentileOf(old(values[..]), pct)
    ensures values[..] == Sort(old(values[..]))
  {
    var sorted := Sort(values[..]);
    SortSorts(values[..]);
    forall i | 0 <= i < values.Length {
      values[i] := sorted[i];
    }
    assert values[..] == sorted;
    if values.Length == 0 {
      return None;
    }
    RankInRange(values.Length, pct);
    r := Some(values[Rank(values.Length, pct)]);
  }

  // Sorting in place for one percentile does not disturb the next.
  lemma SortAgain(s: seq<real>, pct: real)
    ensures PercentileOf(Sort(s), pct) == PercentileOf(s, pct)
  {
    SortSorts(s);
    SortedIsSorted(Sort(s));
  }

  function CountBelow(s: seq<real>, x: real): nat {
    if s == [] then 0 else (if s[0] <= x then 1 else 0) + CountBelow(s[1..], x)
  }

  lemma {:induction false} CountBelowPrefix(s: seq<real>, n: nat, x: real)
    requires n <= |s| && forall i | 0 <= i < n :: s[i] <= x
    ensures CountBelow(s, x) >= n
  {
    if n > 0 { CountBelowPrefix(s[1..], n - 1, x); }
  }

  lemma {:induction false} CountBelowInsert(s: seq<real>, y: real, x: real)
    ensures CountBelow(Insert(s, y), x) == CountBelow(s, x) + if y <= x then 1 else 0
  {
    if s != [] && s[0] < y {
      CountBelowInsert(s[1..], y, x);
    }
  }

  lemma {:induction false} CountBelowSort(s: seq<real>, x: real)
    ensures CountBelow(Sort(s), x) == CountBelow(s, x)
  {
    if s != [] {
      CountBelowSort(s[1..], x);
      CountBelowInsert(Sort(s[1..]), s[0], x);
    }
  }

  function CountAbove(s: seq<real>, x: real): nat {
    if s == [] then 0 else (if s[0] >= x then 1 else 0) + CountAbove(s[1..], x)
  }

  lemma {:induction false} CountAboveSuffix(s: seq<real>, n: nat, x: real)
    requires n <= |s| && forall i | n <= i < |s| :: s[i] >= x
    ensures CountAbove(s, x) >= |s| - n
    decreases s
  {
    if s != [] { CountAboveSuffix(s[1..], if n == 0 then 0 else n - 1, x); }
  }

  lemma {:induction false} CountAboveInsert(s: seq<real>, y: real, x: real)
    ensures CountAbove(Insert(s, y), x) == CountAbove(s, x) + if y >= x then 1 else 0
    decreases s
  {
    if s != [] && s[0] < y {
      CountAboveInsert(s[1..], y, x);
    }
  }

  lemma {:induction false} CountAboveSort(s: seq<real>, x: real)
    ensures CountAbove(Sort(s), x) == CountAbove(s, x)
    decreases s
  {
    if s != [] {
      CountAboveSort(s[1..], x);
      CountAboveInsert(Sort(s[1..]), s[0], x);
    }
  }

  // A percentile is the sample of its rank: more samples than the rank are at
  // most that large, and no fewer than the remaining ones are at least that large.
  lemma PercentileIsRanked(s: seq<real>, p: real)
    requires s != []
    ensures PercentileOf(s, p).value in s
    ensures CountBelow(s, PercentileOf(s, p).value) > Rank(|s|, p)
    ensures CountAbove(s, PercentileOf(s, p).value) >= |s| - Rank(|s|, p)
  {
    SortSorts(s);
    RankInRange(|s|, p);
    var k := Rank(|s|, p);
    SortedElement(s, k);
    CountsAtRank(Sort(s), k);
    CountBelowSort(s, Sort(s)[k]);
    CountAboveSort(s, Sort(s)[k]);
  }

  lemma CountsAtRank(t: seq<real>, k: nat)
    requires Sorted(t) && k < |t|
    ensures CountBelow(t, t[k]) > k && CountAbove(t, t[k]) >= |t| - k
  {
    CountBelowPrefix(t, k + 1, t[k]);
    CountAboveSuffix(t, k, t[k]);
  }

  // A higher percentile is no smaller.
  lemma PercentilesAreOrdered(s: seq<real>, p: real, q: real)
    requires s != [] && p <= q
    ensures PercentileOf(s, p).value <= PercentileOf(s, q).value
  {
    SortSorts(s);
    RankInRange(|s|, q);
    RankMonotone(|s|, p, q);
  }

  lemma SortedElement(s: seq<real>, k: nat)
    requires |Sort(s)| == |s| && k < |s|
    ensures Sort(s)[k] in s
  {
    SortSorts(s);
    assert Sort(s)[k] in multiset(Sort(s));
  }

  // ----- the tracker

  function OfKind(samples: seq<Sample>, kind: Kind): seq<real> {
    if samples == [] then []
    else OfKind(samples[..|samples| - 1], kind)
         + if samples[|samples| - 1].kind == kind then [samples[|samples| - 1].lagMs] else []
  }

  function LastOf(s: seq<real>): Option<real> {
    if s == [] then None else Some(s[|s| - 1])
  }

  // Samples are told apart by kind and kept in order.
  lemma {:induction false} OfKindConcat(a: seq<Sample>, b: seq<Sample>, kind: Kind)
    ensures OfKind(a + b, kind) == OfKind(a, kind) + OfKind(b, kind)
    decreases |b|
  {
    if b == [] {
      assert a + b == a && OfKind(a, kind) + [] == OfKind(a, kind);
    } else {
      assert (a + b)[..|a + b| - 1] == a + b[..|b| - 1];
      OfKindConcat(a, b[..|b| - 1], kind);
    }
  }

  lemma OfKindOne(s: Sample, kind: Kind)
    ensures OfKind([s], kind) == if s.kind == kind then [s.lagMs] else []
  {
    assert [s][..0] == [] && OfKind([], kind) == [];
  }

  // The last sample, and the samples at half and at nineteen twentieths of the
  // way up, by nearest rank.
  lemma StatsInUse(s: seq<real>)
    requires s != []
    ensures StatsOf(s).last == Some(s[|s| - 1])
    ensures StatsOf(s).p50.Some? && StatsOf(s).p95.Some?
    ensures var half := ((|s| - 1) as real * 0.50 + 0.5).Floor; var most := ((|s| - 1) as real * 0.95 + 0.5).Floor;
      && CountBelow(s, StatsOf(s).p50.value) > half && CountAbove(s, StatsOf(s).p50.value) >= |s| - half
      && CountBelow(s, StatsOf(s).p95.value) > most && CountAbove(s, StatsOf(s).p95.value) >= |s| - most
  {
    PercentileIsRanked(s, 0.50);
    PercentileIsRanked(s, 0.95);
  }

  lemma NothingToShow()
    ensures StatsOf([]) == KindStats(None, None, None)
  {
  }

  datatype KindStats = KindStats(last: Option<real>, p50: Option<real>, p95: Option<real>)

  function StatsOf(s: seq<real>): KindStats {
    KindStats(LastOf(s), PercentileOf(s, 0.50), PercentileOf(s, 0.95))
  }

  class TemplateLagTracker {
    var samples: seq<Sample>
    var samplesTotal: nat

    // The state after recording the whole history.
    ghost predicate Holds(history: seq<Sample>)
      reads this
    {
      samples == Last(history, MAX_SAMPLES) && samplesTotal == |history|
    }

    constructor ()
      ensures Holds([])
    {
      samples, samplesTotal := [], 0;
    }

    // Whatever has been recorded, in whatever order, the window is the last 200
    // samples of the history.
    method Record(sample: Sample, ghost history: seq<Sample>)
      requires Holds(history)
      modifies this
      ensures Holds(history + [sample])
    {
      samples := samples + [sample];
      while |samples| > MAX_SAMPLES
        invariant |samples| >= Min(|history| + 1, MAX_SAMPLES) && samplesTotal == |history|
        invariant |samples| <= |history| + 1 && samples == (history + [sample])[|history| + 1 - |samples|..]
        decreases |samples|
      {
        samples := samples[1..];
      }
      samplesTotal := samplesTotal + 1;
    }

    method Snapshot(ghost history: seq<Sample>)
      returns (window: nat, lastHeight: Option<nat>, empty: KindStats, full: KindStats)
      requires Holds(history)
      ensures window == Min(|history|, MAX_SAMPLES) <= samplesTotal
      ensures lastHeight == if history == [] then None else Some(history[|history| - 1].height)
      ensures empty == StatsOf(OfKind(Last(history, MAX_SAMPLES), EmptyBlock))
      ensures full == StatsOf(OfKind(Last(history, MAX_SAMPLES), FullTemplate))
    {
      window := |samples|;
      lastHeight := if samples == [] then None else Some(samples[|samples| - 1].height);
      var emptyLags: seq<real>, fullLags: seq<real> := [], [];
      var lastEmpty: Option<real>, lastFull: Option<real> := None, None;
      for i := 0 to |samples|
        invariant emptyLags == OfKind(samples[..i], EmptyBlock) && lastEmpty == LastOf(emptyLags)
        invariant fullLags == OfKind(samples[..i], FullTemplate) && lastFull == LastOf(fullLags)
      {
        assert samples[..i + 1][..i] == samples[..i];
        var ms := samples[i].lagMs;
        match samples[i].kind {
          case EmptyBlock => emptyLags := emptyLags + [ms]; lastEmpty := Some(ms);
          case FullTemplate => fullLags := fullLags + [ms]; lastFull := Some(ms);
        }
      }
      assert samples[..|samples|] == samples;
      var p50, p95 := TwoPercentiles(emptyLags);
      empty := KindStats(lastEmpty, p50, p95);
      p50, p95 := TwoPercentiles(fullLags);
      full := KindStats(lastFull, p50, p95);
    }
  }

  // Both percentiles are taken from one buffer, sorted by the first call.
  method TwoPercentiles(lags: seq<real>) returns (p50: Option<real>, p95: Option<real>)
    ensures p50 == PercentileOf(lags, 0.50) && p95 == PercentileOf(lags, 0.95)
  {
    var values := new real[|lags|](i requires 0 <= i < |lags| => lags[i]);
    assert values[..] == lags;
    p50 := Percentile(values, 0.50);
    p95 := Percentile(values, 0.95);
    SortAgain(lags, 0.95);
  }

  // ----- recording and snapshots at the same time

  // Recording pushes and then bumps the total while it holds the lock; a
  // snapshot reads the window under the lock and the total later, without it.
  datatype Step =
    | Push              // takes the lock, if free
    | Bump              // adds one to the total and frees the lock
    | ReadWindow        // a snapshot reads the window size, if the lock is free
    | ReadTotal(i: nat) // the i-th waiting snapshot reads the total

  // A finished snapshot: the total and the window size it reports.
  datatype Shared = Shared(
    window: nat, total: nat, recording: bool, waiting: seq<nat>, reported: seq<(nat, nat)>)

  const IDLE := Shared(0, 0, false, [], [])

  function Next(s: Shared, step: Step): Shared {
    match step
    case Push => if s.recording then s else s.(window := Min(s.window + 1, MAX_SAMPLES), recording := true)
    case Bump => if s.recording then s.(total := s.total + 1, recording := false) else s
    case ReadWindow => if s.recording then s else s.(waiting := s.waiting + [s.window])
    case ReadTotal(i) =>
      if i < |s.waiting| then
        s.(waiting := s.waiting[..i] + s.waiting[i + 1..], reported := s.reported + [(s.total, s.waiting[i])])
      else s
  }

  function Run(s: Shared, steps: seq<Step>): Shared
    decreases steps
  {
    if steps == [] then s else Run(Next(s, steps[0]), steps[1..])
  }

  ghost predicate Consistent(s: Shared) {
    && s.window <= s.total + (if s.recording then 1 else 0)
    && (forall i | 0 <= i < |s.waiting| :: s.waiting[i] <= s.total)
    && (forall i | 0 <= i < |s.reported| :: s.reported[i].1 <= s.reported[i].0)
  }

  lemma {:induction false} RunStaysConsistent(s: Shared, steps: seq<Step>)
    requires Consistent(s)
    ensures Consistent(Run(s, steps))
    decreases steps
  {
    if steps != [] {
      RunStaysConsistent(Next(s, steps[0]), steps[1..]);
    }
  }

  // What a whole recording and a whole snapshot do when nothing comes between.
  lemma UndisturbedSteps(s: Shared)
    requires !s.recording
    ensures Next(Next(s, Push), Bump)
         == s.(window := if s.window < 200 then s.window + 1 else 200, total := s.total + 1)
    ensures s.waiting == [] ==>
      Next(Next(s, ReadWindow), ReadTotal(0)) == s.(reported := s.reported + [(s.total, s.window)])
  {
    assert [s.window][..0] + [s.window][1..] == [];
    if s.waiting == [] { assert s.waiting + [s.window] == [s.window]; }
  }

  // A recording in progress keeps others out of the window, but not from reading
  // the total.
  lemma RecordingExcludes(s: Shared, i: nat)
    requires s.recording
    ensures Next(s, Push) == s && Next(s, ReadWindow) == s
    ensures i < |s.waiting| ==> Next(s, ReadTotal(i)).reported == s.reported + [(s.total, s.waiting[i])]
  {
  }

  // Under every interleaving a snapshot never reports a window larger than the total.
  lemma SnapshotsAreConsistent(steps: seq<Step>, i: nat)
    requires i < |Run(IDLE, steps).reported|
    ensures Run(IDLE, steps).reported[i].1 <= Run(IDLE, steps).reported[i].0
  {
    RunStaysConsistent(IDLE, steps);
  }
}
