// What the miner does in the end: which notifies become jobs, how a clean one
// takes over, and that no counter is skipped.

module JobsProgress {
  import opened Common
  import opened Jobs

  // ----- the jobs are the accepted notifies

  // A notify is accepted when the loop is waiting and it is the first, or clean.
  function Takes(s: State, a: Action): seq<Notify> {
    if a.Receive? && s.main.Idle? && (s.jobs == [] || a.notify.clean) then [a.notify] else []
  }

  // The notifies accepted during the run.
  function Accepted(s: State, actions: seq<Action>): seq<Notify>
    decreases actions
  {
    if actions == [] then [] else Takes(s, actions[0]) + Accepted(Next(s, actions[0]), actions[1..])
  }

  // The job carries the notify's id and header.
  predicate Carries(job: Job, n: Notify) {
    job.jobId == n.jobId && n.header == Some(job.header)
  }

  // Every accepted notify is a job by now, in order, except one still in hand or
  // one whose header was bad.
  ghost predicate Become(s: State, accepted: seq<Notify>) {
    && |s.jobs| == |accepted| - (if s.main.Idle? then 0 else 1)
    && (forall i | 0 <= i < |s.jobs| :: Carries(s.jobs[i], accepted[i]))
    && match s.main
       case Idle => true
       case Bumping(n) => n == accepted[|s.jobs|]
       case Loading(n) => n == accepted[|s.jobs|]
       case Starting(n, _) => n == accepted[|s.jobs|]
       case Exited => accepted[|s.jobs|].header == None
  }

  // No action changes the id or header of a job, and a worker's changes no more
  // than the workers.
  lemma WorkersOnly(s: State, a: Action)
    requires a.WorkerStep?
    ensures var u := Next(s, a);
      && u.main == s.main && u.mining == s.mining && u.generation == s.generation && |u.jobs| == |s.jobs|
      && forall i | 0 <= i < |s.jobs| ::
           u.jobs[i].gen == s.jobs[i].gen && u.jobs[i].jobId == s.jobs[i].jobId && u.jobs[i].header == s.jobs[i].header
  {
  }

  lemma StepBecomes(s: State, a: Action, before: seq<Notify>)
    requires Numbered(s) && Become(s, before)
    ensures Become(Next(s, a), before + Takes(s, a))
  {
    if a.WorkerStep? { WorkersOnly(s, a); }
  }

  lemma Associative(a: seq<Notify>, b: seq<Notify>, c: seq<Notify>)
    ensures a + (b + c) == a + b + c && a + [] == a && [] + a == a
  {
  }

  lemma {:induction false} RunBecomes(s: State, actions: seq<Action>, before: seq<Notify>)
    requires Numbered(s) && Become(s, before)
    ensures Become(Run(s, actions), before + Accepted(s, actions))
    decreases actions
  {
    if actions == [] {
      Associative(before, [], []);
    } else {
      NextKeepsNumbered(s, actions[0]);
      StepBecomes(s, actions[0], before);
      RunBecomes(Next(s, actions[0]), actions[1..], before + Takes(s, actions[0]));
      Associative(before, Takes(s, actions[0]), Accepted(Next(s, actions[0]), actions[1..]));
    }
  }

  // In every interleaving the jobs are, in order, the accepted notifies.
  lemma JobsAreAccepted(actions: seq<Action>)
    ensures Become(Run(START, actions), Accepted(START, actions))
  {
    RunBecomes(START, actions, []);
    Associative(Accepted(START, actions), [], []);
  }

  // ----- a clean notify takes over

  // A notify that is not clean changes nothing while the miner mines, and neither
  // does one that finds the loop busy.
  lemma IgnoredNotify(s: State, n: Notify)
    requires Numbered(s) && ((s.jobs != [] && !n.clean) || !s.main.Idle?)
    ensures Next(s, Receive(n)) == s
  {
  }

  function MainSteps(actions: seq<Action>): nat {
    if actions == [] then 0 else (if actions[0] == MainStep then 1 else 0) + MainSteps(actions[1..])
  }

  // How many steps of its own the loop still needs for the notify in hand.
  function StepsToGo(s: State): nat {
    match s.main case Bumping(_) => 3 case Loading(_) => 2 case Starting(_, _) => 1 case Idle => 0 case Exited => 0
  }

  // The notify in hand is this one, and its header is good.
  ghost predicate Handles(s: State, n: Notify) {
    n.header.Some? && (s.main == Bumping(n) || s.main == Loading(n) || (s.main.Starting? && s.main.notify == n))
  }

  // The newest job is the one for the notify; it alone is live.
  ghost predicate TookOver(s: State, n: Notify, older: nat) {
    && |s.jobs| == older + 1 && Carries(s.jobs[older], n) && Live(s, older) && s.mining
    && (s.main.Idle? || s.main.Bumping? || s.main.Loading?)
    && forall j | 0 <= j < older :: Retired(s, j)
  }

  lemma BusyStep(s: State, a: Action, n: Notify)
    requires Numbered(s) && Handles(s, n)
    ensures var u := Next(s, a);
      if a != MainStep then Handles(u, n) && StepsToGo(u) == StepsToGo(s) && |u.jobs| == |s.jobs|
      else if StepsToGo(s) > 1 then Handles(u, n) && StepsToGo(u) == StepsToGo(s) - 1 && |u.jobs| == |s.jobs|
      else TookOver(u, n, |s.jobs|) && u.main.Idle?
  {
    if a.WorkerStep? { WorkersOnly(s, a); }
  }

  // Without a further step of the loop, nothing changes that again.
  lemma {:induction false} StaysTakenOver(s: State, actions: seq<Action>, n: Notify, older: nat)
    requires Numbered(s) && TookOver(s, n, older) && !s.main.Loading? && MainSteps(actions) == 0
    ensures TookOver(Run(s, actions), n, older)
    decreases actions
  {
    if actions != [] {
      if actions[0].WorkerStep? { WorkersOnly(s, actions[0]); }
      NextKeepsNumbered(s, actions[0]);
      StaysTakenOver(Next(s, actions[0]), actions[1..], n, older);
    }
  }

  lemma {:induction false} FinishesNotify(s: State, actions: seq<Action>, n: Notify)
    requires Numbered(s) && Handles(s, n) && MainSteps(actions) == StepsToGo(s)
    ensures TookOver(Run(s, actions), n, |s.jobs|)
    decreases actions
  {
    BusyStep(s, actions[0], n);
    NextKeepsNumbered(s, actions[0]);
    var u := Next(s, actions[0]);
    if actions[0] == MainStep && StepsToGo(s) == 1 { StaysTakenOver(u, actions[1..], n, |s.jobs|); }
    else { FinishesNotify(u, actions[1..], n); }
  }

  // After a clean notify with a good header, three steps of the loop, whatever
  // the workers do and the server sends in between, leave one more job: the only
  // live one, with every older job retired.
  lemma CleanNotifyTakesOver(s: State, n: Notify, actions: seq<Action>)
    requires Numbered(s) && s.main.Idle? && s.jobs != [] && n.clean && n.header.Some?
    requires MainSteps(actions) == 3
    ensures TookOver(Run(Next(s, Receive(n)), actions), n, |s.jobs|)
  {
    NextKeepsNumbered(s, Receive(n));
    FinishesNotify(Next(s, Receive(n)), actions, n);
  }

  // The first notify needs two.
  lemma FirstNotifyStarts(n: Notify, actions: seq<Action>)
    requires n.header.Some? && MainSteps(actions) == 2
    ensures TookOver(Run(Next(START, Receive(n)), actions), n, 0)
  {
    FinishesNotify(Next(START, Receive(n)), actions, n);
  }

  // A bad header ends the process, after the running jobs have been retired.
  lemma BadHeaderExits(s: State, n: Notify)
    requires Numbered(s) && s.main == Loading(n) && n.header == None
    ensures var u := Next(s, MainStep);
      u.main.Exited? && u.jobs == s.jobs && forall j | 0 <= j < |s.jobs| :: Retired(u, j)
    ensures forall a :: Next(Next(s, MainStep), a) == Next(s, MainStep)
  {
  }

  // ----- a worker's iteration

  // A worker that passes the check tries its counter next, reports each of the
  // solutions found, or leaves it, and goes on four counters further.
  lemma WorkerTurns(s: State, j: nat, t: nat, choice: nat)
    requires j < |s.jobs| && t < |s.jobs[j].workers| && !s.main.Exited?
    ensures var u := Next(s, WorkerStep(j, t, choice));
      var (job, w) := (s.jobs[j], s.jobs[j].workers[t]);
      && |u.jobs| == |s.jobs| && |u.jobs[j].workers| == |job.workers|
      && u.tries == s.tries + (if w.pc.Solve? then [Try(j, t, w.counter)] else [])
      && u.submissions == s.submissions
           + (if w.pc.Report? && w.pc.solutions > 0 && choice > 0
              then [Submission(j, t, job.jobId, job.header, w.counter)] else [])
      && u.jobs[j].workers[t] ==
           match w.pc
           case Check => if Live(s, j) then Worker(Solve, w.counter) else Worker(Done, w.counter)
           case Solve => Worker(Report(choice), w.counter)
           case Report(k) => if k > 0 then Worker(Report(k - 1), w.counter) else Worker(Check, w.counter + 4)
           case Done => w
  {
  }

  // Other workers and the notify loop leave the worker where it is.
  lemma OthersLeaveWorker(s: State, a: Action, j: nat, t: nat)
    requires j < |s.jobs| && t < |s.jobs[j].workers|
    requires !a.WorkerStep? || a.job != j || a.thread != t
    ensures var u := Next(s, a);
      j < |u.jobs| && t < |u.jobs[j].workers| && u.jobs[j].workers[t] == s.jobs[j].workers[t]
  {
  }

  // Every counter of the worker's residue that it has passed has been tried.
  ghost predicate Complete(s: State) {
    forall j, t, c: nat | 0 <= j < |s.jobs| && 0 <= t < |s.jobs[j].workers| && c % 4 == t && c >= t
      && Past(s.jobs[j].workers[t], c) :: Try(j, t, c) in s.tries
  }

  lemma NextKeepsComplete(s: State, a: Action)
    requires Staffed(s) && Complete(s)
    ensures Complete(Next(s, a))
  {
    var u := Next(s, a);
    TriesKept(s, a);
    forall j, t, c: nat | 0 <= j < |u.jobs| && 0 <= t < |u.jobs[j].workers| && c % 4 == t && c >= t
      && Past(u.jobs[j].workers[t], c)
      ensures Try(j, t, c) in u.tries
    {
      if j < |s.jobs| && !s.main.Exited? {
        if a.WorkerStep? && a.job == j && a.thread == t {
          WorkerTurns(s, j, t, a.choice);
          if !Past(s.jobs[j].workers[t], c) { assert u.tries[|s.tries|] == Try(j, t, c); }
        } else {
          OthersLeaveWorker(s, a, j, t);
        }
      }
    }
  }

  lemma {:induction false} RunKeepsComplete(s: State, actions: seq<Action>)
    requires Staffed(s) && Complete(s)
    ensures Complete(Run(s, actions))
    decreases actions
  {
    if actions != [] {
      NextKeepsStaffed(s, actions[0]);
      NextKeepsComplete(s, actions[0]);
      RunKeepsComplete(Next(s, actions[0]), actions[1..]);
    }
  }

  // In every interleaving a worker has tried exactly the counters it is past:
  // thread number, four more, and so on, without a gap.
  lemma TriedExactly(actions: seq<Action>, j: nat, t: nat, c: nat)
    requires j < |Run(START, actions).jobs| && t < 4
    ensures var s := Run(START, actions);
      && |s.jobs[j].workers| == 4
      && (Try(j, t, c) in s.tries <==> c % 4 == t && Past(s.jobs[j].workers[t], c))
  {
    StartInv();
    RunKeepsInv(START, actions);
    RunKeepsComplete(START, actions);
    PastMeansTried(Run(START, actions), j, t, c);
  }

  lemma PastMeansTried(s: State, j: nat, t: nat, c: nat)
    requires Staffed(s) && Recorded(s) && Complete(s) && j < |s.jobs| && t < 4
    ensures |s.jobs[j].workers| == 4
    ensures Try(j, t, c) in s.tries <==> c % 4 == t && Past(s.jobs[j].workers[t], c)
  {
    if Try(j, t, c) in s.tries {
      var i :| 0 <= i < |s.tries| && s.tries[i] == Try(j, t, c);
      assert s.tries[i].job == j && s.tries[i].thread == t && s.tries[i].counter == c;
    }
  }
}
