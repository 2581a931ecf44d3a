// How the miner retires jobs: the notify loop and the worker threads of
// crates/cpu-miner/src/main.rs as interleaved atomic steps.

module Jobs {
  import opened Common
  import opened Nonce

  // One mining.notify; the header is absent when its hexadecimal text is bad.
  datatype Notify = Notify(jobId: string, header: Option<Bytes>, clean: bool)

  // The notify loop between its atomic accesses.
  datatype Main =
    | Idle
    | Bumping(notify: Notify)              // about to add one to the generation
    | Loading(notify: Notify)              // about to load the generation
    | Starting(notify: Notify, gen: nat)   // about to set is_mining and spawn
    | Exited                               // the process is gone

  datatype Pc =
    | Check                     // about to compare generations
    | Solve                     // passed the check
    | Report(solutions: nat)    // solutions still to be judged and submitted
    | Done

  datatype Worker = Worker(pc: Pc, counter: nat)

  datatype Job = Job(gen: nat, jobId: string, header: Bytes, workers: seq<Worker>)

  // A nonce tried by a worker of job number job.
  datatype Try = Try(job: nat, thread: nat, counter: nat)

  datatype Submission = Submission(job: nat, thread: nat, jobId: string, header: Bytes, counter: nat)

  datatype State = State(
    generation: nat,
    mining: bool,
    main: Main,
    jobs: seq<Job>,
    tries: seq<Try>,
    submissions: seq<Submission>)

  const START := State(0, false, Idle, [], [], [])

  datatype Action =
    | Receive(notify: Notify)
    | MainStep
    | WorkerStep(job: nat, thread: nat, choice: nat)   // solutions found, or zero to skip a submission

  function NewWorkers(): seq<Worker> {
    seq(NUM_THREADS, t requires 0 <= t < NUM_THREADS => Worker(Check, t))
  }

  function StepMain(s: State): State {
    match s.main
    case Bumping(n) => s.(generation := s.generation + 1, main := Loading(n))
    case Loading(n) => if n.header.None? then s.(main := Exited) else s.(main := Starting(n, s.generation))
    case Starting(n, gen) =>
      if n.header.None? then s
      else s.(mining := true, main := Idle, jobs := s.jobs + [Job(gen, n.jobId, n.header.value, NewWorkers())])
    case Idle => s
    case Exited => s
  }

  function SetWorker(s: State, j: nat, t: nat, w: Worker): State
    requires j < |s.jobs| && t < |s.jobs[j].workers|
  {
    s.(jobs := s.jobs[j := s.jobs[j].(workers := s.jobs[j].workers[t := w])])
  }

  function StepWorker(s: State, j: nat, t: nat, choice: nat): State
    requires j < |s.jobs| && t < |s.jobs[j].workers|
  {
    var job := s.jobs[j];
    var w := job.workers[t];
    match w.pc
    case Check => SetWorker(s, j, t, w.(pc := if s.generation != job.gen then Done else Solve))
    case Solve => SetWorker(s, j, t, w.(pc := Report(choice))).(tries := s.tries + [Try(j, t, w.counter)])
    case Report(n) =>
      if n == 0 then SetWorker(s, j, t, Worker(Check, w.counter + NUM_THREADS))
      else
        SetWorker(s, j, t, w.(pc := Report(n - 1))).(submissions :=
          if choice == 0 then s.submissions
          else s.submissions + [Submission(j, t, job.jobId, job.header, w.counter)])
    case Done => s
  }

  function Next(s: State, a: Action): State {
    if s.main.Exited? then s
    else
      match a
      case Receive(n) =>
        if !s.main.Idle? || (s.mining && !n.clean) then s
        else if s.mining then s.(main := Bumping(n))
        else s.(main := Loading(n))
      case MainStep => StepMain(s)
      case WorkerStep(j, t, choice) =>
        if j < |s.jobs| && t < |s.jobs[j].workers| then StepWorker(s, j, t, choice) else s
  }

  function Run(s: State, actions: seq<Action>): State
    decreases actions
  {
    if actions == [] then s else Run(Next(s, actions[0]), actions[1..])
  }

  // ----- what every step keeps

  // Generations number the jobs; the shared counter is that of the last job,
  // except between the bump for a new job and its start.
  ghost predicate Numbered(s: State) {
    && (forall j | 0 <= j < |s.jobs| :: s.jobs[j].gen == j)
    && (s.mining <==> s.jobs != [])
    && match s.main
       case Idle => s.generation == if s.jobs == [] then 0 else |s.jobs| - 1
       case Bumping(_) => s.jobs != [] && s.generation == |s.jobs| - 1
       case Loading(_) => s.generation == |s.jobs|
       case Starting(n, gen) => s.generation == |s.jobs| && gen == s.generation && n.header.Some?
       case Exited => true
  }

  // A worker of thread t only has counters of its own residue.
  ghost predicate Staffed(s: State) {
    forall j | 0 <= j < |s.jobs| ::
      |s.jobs[j].workers| == NUM_THREADS &&
      forall t | 0 <= t < NUM_THREADS :: s.jobs[j].workers[t].counter % NUM_THREADS == t
  }

  // The worker has tried this counter already.
  ghost predicate Past(w: Worker, counter: nat) {
    counter < w.counter || (counter == w.counter && w.pc.Report?)
  }

  // Every recorded try belongs to a worker that is past it.
  ghost predicate Recorded(s: State) {
    forall i | 0 <= i < |s.tries| ::
      var e := s.tries[i];
      && e.job < |s.jobs| && e.thread < |s.jobs[e.job].workers|
      && Past(s.jobs[e.job].workers[e.thread], e.counter) && e.counter % NUM_THREADS == e.thread
  }

  // No counter is tried twice for one job.
  ghost predicate Fresh(s: State) {
    forall i, k | 0 <= i < k < |s.tries| ::
      s.tries[i].job != s.tries[k].job || s.tries[i].counter != s.tries[k].counter
  }

  // Submissions carry the job id and header of the job they were found for, and
  // a nonce that was tried for it.
  ghost predicate Honest(s: State) {
    forall i | 0 <= i < |s.submissions| ::
      var e := s.submissions[i];
      && e.job < |s.jobs| && e.jobId == s.jobs[e.job].jobId && e.header == s.jobs[e.job].header
      && Try(e.job, e.thread, e.counter) in s.tries
  }

  // A worker with solutions to report has tried its counter.
  ghost predicate Reporting(s: State) {
    forall j, t | 0 <= j < |s.jobs| && 0 <= t < |s.jobs[j].workers| ::
      s.jobs[j].workers[t].pc.Report? ==> Try(j, t, s.jobs[j].workers[t].counter) in s.tries
  }

  ghost predicate Inv(s: State) {
    Numbered(s) && Staffed(s) && Recorded(s) && Fresh(s) && Reporting(s) && Honest(s)
  }

  lemma StartInv()
    ensures Inv(START)
  {
  }

  lemma NextKeepsNumbered(s: State, a: Action)
    requires Numbered(s)
    ensures Numbered(Next(s, a))
  {
  }

  lemma NextKeepsStaffed(s: State, a: Action)
    requires Staffed(s)
    ensures Staffed(Next(s, a))
  {
  }

  // Jobs are only ever added, and no step takes a worker back.
  lemma NothingForgotten(s: State, a: Action, j: nat, t: nat, counter: nat)
    requires j < |s.jobs| && t < |s.jobs[j].workers|
    ensures var u := Next(s, a);
      && |s.jobs| <= |u.jobs| && |u.jobs[j].workers| == |s.jobs[j].workers|
      && u.jobs[j].gen == s.jobs[j].gen && u.jobs[j].jobId == s.jobs[j].jobId && u.jobs[j].header == s.jobs[j].header
      && (Past(s.jobs[j].workers[t], counter) ==> Past(u.jobs[j].workers[t], counter))
  {
  }

  lemma NextKeepsRecorded(s: State, a: Action)
    requires Staffed(s) && Recorded(s)
    ensures Recorded(Next(s, a))
  {
    var u := Next(s, a);
    forall i | 0 <= i < |u.tries|
      ensures var e := u.tries[i];
        && e.job < |u.jobs| && e.thread < |u.jobs[e.job].workers|
        && Past(u.jobs[e.job].workers[e.thread], e.counter) && e.counter % NUM_THREADS == e.thread
    {
      if i < |s.tries| {
        assert u.tries[i] == s.tries[i];
        NothingForgotten(s, a, s.tries[i].job, s.tries[i].thread, s.tries[i].counter);
      }
    }
  }

  lemma NextKeepsFresh(s: State, a: Action)
    requires Staffed(s) && Recorded(s) && Fresh(s)
    ensures Fresh(Next(s, a))
  {
  }

  lemma NextKeepsReporting(s: State, a: Action)
    requires Staffed(s) && Reporting(s)
    ensures Reporting(Next(s, a))
  {
  }

  lemma NextKeepsHonest(s: State, a: Action)
    requires Staffed(s) && Reporting(s) && Honest(s)
    ensures Honest(Next(s, a))
  {
    var u := Next(s, a);
    TriesKept(s, a);
    forall i | 0 <= i < |u.submissions|
      ensures var e := u.submissions[i];
        && e.job < |u.jobs| && e.jobId == u.jobs[e.job].jobId && e.header == u.jobs[e.job].header
        && Try(e.job, e.thread, e.counter) in u.tries
    {
      if i < |s.submissions| {
        assert u.submissions[i] == s.submissions[i];
        NothingForgotten(s, a, s.submissions[i].job, 0, 0);
      }
    }
  }

  lemma TriesKept(s: State, a: Action)
    ensures s.tries <= Next(s, a).tries && s.submissions <= Next(s, a).submissions
    ensures forall e | e in s.tries :: e in Next(s, a).tries
  {
  }

  lemma {:induction false} RunKeepsInv(s: State, actions: seq<Action>)
    requires Inv(s)
    ensures Inv(Run(s, actions))
    decreases actions
  {
    if actions != [] {
      NextKeepsInv(s, actions[0]);
      RunKeepsInv(Next(s, actions[0]), actions[1..]);
    }
  }

  lemma NextKeepsInv(s: State, a: Action)
    requires Inv(s)
    ensures Inv(Next(s, a))
  {
    NextKeepsNumbered(s, a);
    NextKeepsStaffed(s, a);
    NextKeepsRecorded(s, a);
    NextKeepsFresh(s, a);
    NextKeepsReporting(s, a);
    NextKeepsHonest(s, a);
  }

  // ----- every run from the start

  // The job whose workers would pass the generation check now.
  predicate Live(s: State, j: nat)
    requires j < |s.jobs|
  {
    s.generation == s.jobs[j].gen
  }

  // Pairwise distinct generations; only the newest job can pass the check, and
  // none while its successor is between the bump and the start.
  ghost predicate OneLive(s: State) {
    && (forall i, j | 0 <= i < j < |s.jobs| :: s.jobs[i].gen < s.jobs[j].gen)
    && (forall j | 0 <= j < |s.jobs| :: Live(s, j) ==> j == |s.jobs| - 1)
    && ((s.main.Idle? || s.main.Bumping?) && s.jobs != [] ==> Live(s, |s.jobs| - 1))
    && (s.main.Loading? || s.main.Starting? ==> forall j | 0 <= j < |s.jobs| :: !Live(s, j))
  }

  lemma NumberedIsOneLive(s: State)
    requires Numbered(s) && (s.main.Exited? ==> s.generation == |s.jobs|)
    ensures OneLive(s)
  {
  }

  // In every interleaving of the notify loop and the workers.
  lemma OneLiveJob(actions: seq<Action>)
    ensures OneLive(Run(START, actions))
  {
    StartInv();
    RunKeepsInv(START, actions);
    ExitedGeneration(START, actions);
    NumberedIsOneLive(Run(START, actions));
  }

  // The process may only exit on the way to starting a job.
  lemma {:induction false} ExitedGeneration(s: State, actions: seq<Action>)
    requires Numbered(s) && (s.main.Exited? ==> s.generation == |s.jobs|)
    ensures Run(s, actions).main.Exited? ==> Run(s, actions).generation == |Run(s, actions).jobs|
    decreases actions
  {
    if actions != [] {
      NextKeepsNumbered(s, actions[0]);
      ExitedGeneration(Next(s, actions[0]), actions[1..]);
    }
  }

  // For one job no nonce is tried twice, by whichever threads.
  lemma NoNonceTwice(actions: seq<Action>, nonce1: Bytes, i: nat, k: nat)
    requires |nonce1| <= 32 && i < k < |Run(START, actions).tries|
    requires var (e, f) := (Run(START, actions).tries[i], Run(START, actions).tries[k]);
      && e.job == f.job
      && e.counter < Exp(256, CounterWidth(|nonce1|)) && f.counter < Exp(256, CounterWidth(|nonce1|))
    ensures var (e, f) := (Run(START, actions).tries[i], Run(START, actions).tries[k]);
      FullNonce(nonce1, e.counter) != FullNonce(nonce1, f.counter)
  {
    StartInv();
    RunKeepsInv(START, actions);
    var (e, f) := (Run(START, actions).tries[i], Run(START, actions).tries[k]);
    NoncesEqual(nonce1, e.counter, nonce1, f.counter);
    SmallMod(e.counter, Exp(256, CounterWidth(|nonce1|)));
    SmallMod(f.counter, Exp(256, CounterWidth(|nonce1|)));
  }

  // Every submission names its own job's id and header and a counter that was
  // tried for that job by that thread.
  lemma SubmissionsAreHonest(actions: seq<Action>, i: nat)
    requires i < |Run(START, actions).submissions|
    ensures var s := Run(START, actions);
      var e := s.submissions[i];
      && e.job < |s.jobs| && e.jobId == s.jobs[e.job].jobId && e.header == s.jobs[e.job].header
      && Try(e.job, e.thread, e.counter) in s.tries && e.counter % NUM_THREADS == e.thread
  {
    StartInv();
    RunKeepsInv(START, actions);
    var s := Run(START, actions);
    var e := s.submissions[i];
    var k :| 0 <= k < |s.tries| && s.tries[k] == Try(e.job, e.thread, e.counter);
  }

  // ----- retired jobs wind down

  predicate Retired(s: State, j: nat)
    requires j < |s.jobs|
  {
    s.generation > s.jobs[j].gen
  }

  // A bump retires every job there is.
  lemma BumpRetiresAll(s: State, j: nat)
    requires Numbered(s) && s.main.Bumping? && j < |s.jobs|
    ensures !Retired(s, |s.jobs| - 1) && Retired(Next(s, MainStep), j)
  {
  }

  // The worker is inside an iteration.
  predicate Busy(w: Worker) {
    w.pc.Solve? || w.pc.Report?
  }

  // How far a worker of a retired job can still go: to the end of the iteration
  // it is in, and nowhere if it is in none.
  ghost predicate WindsDown(w: Worker, v: Worker) {
    if Busy(v) then Busy(w) && v.counter == w.counter && (v.pc.Solve? ==> w.pc.Solve?)
    else v.counter == w.counter + (if Busy(w) then NUM_THREADS else 0)
  }

  lemma RetiredStep(s: State, a: Action, j: nat, t: nat)
    requires j < |s.jobs| && t < |s.jobs[j].workers| && Retired(s, j)
    ensures var u := Next(s, a);
      && j < |u.jobs| && |u.jobs[j].workers| == |s.jobs[j].workers| && Retired(u, j)
      && WindsDown(s.jobs[j].workers[t], u.jobs[j].workers[t])
  {
    NothingForgotten(s, a, j, t, 0);
  }

  // From any state in which a job is retired, in every interleaving: each of its
  // threads at most finishes the iteration it is in.
  lemma {:induction false} RetiredWindsDown(s: State, actions: seq<Action>, j: nat, t: nat)
    requires j < |s.jobs| && t < |s.jobs[j].workers| && Retired(s, j)
    ensures var u := Run(s, actions);
      && j < |u.jobs| && t < |u.jobs[j].workers| && Retired(u, j)
      && WindsDown(s.jobs[j].workers[t], u.jobs[j].workers[t])
    decreases actions
  {
    if actions != [] {
      RetiredStep(s, actions[0], j, t);
      RetiredWindsDown(Next(s, actions[0]), actions[1..], j, t);
    }
  }

  // What a retired job still submits belongs to iterations under way.
  ghost predicate OnlyUnderWay(s: State, u: State, j: nat)
    requires j < |s.jobs|
  {
    && s.submissions <= u.submissions && s.tries <= u.tries
    && (forall i | |s.submissions| <= i < |u.submissions| && u.submissions[i].job == j ::
          var e := u.submissions[i];
          && e.thread < |s.jobs[j].workers| && Busy(s.jobs[j].workers[e.thread])
          && e.counter == s.jobs[j].workers[e.thread].counter)
    && (forall i | |s.tries| <= i < |u.tries| && u.tries[i].job == j ::
          var e := u.tries[i];
          && e.thread < |s.jobs[j].workers| && s.jobs[j].workers[e.thread].pc.Solve?
          && e.counter == s.jobs[j].workers[e.thread].counter)
  }

  lemma StepOnlyUnderWay(s: State, a: Action, j: nat)
    requires j < |s.jobs|
    ensures OnlyUnderWay(s, Next(s, a), j)
  {
  }

  lemma {:induction false} RetiredSubmitsOnlyUnderWay(s: State, actions: seq<Action>, j: nat)
    requires j < |s.jobs| && Retired(s, j)
    ensures OnlyUnderWay(s, Run(s, actions), j)
    decreases actions
  {
    if actions != [] {
      var m := Next(s, actions[0]);
      StepOnlyUnderWay(s, actions[0], j);
      StepKeepsStaff(s, actions[0], j);
      RetiredSubmitsOnlyUnderWay(m, actions[1..], j);
      UnderWayTransitive(s, m, Run(m, actions[1..]), j);
    }
  }

  lemma StepKeepsStaff(s: State, a: Action, j: nat)
    requires j < |s.jobs| && Retired(s, j)
    ensures var u := Next(s, a);
      && j < |u.jobs| && |u.jobs[j].workers| == |s.jobs[j].workers| && Retired(u, j)
      && (forall t | 0 <= t < |s.jobs[j].workers| :: WindsDown(s.jobs[j].workers[t], u.jobs[j].workers[t]))
  {
  }

  lemma UnderWayTransitive(s: State, m: State, u: State, j: nat)
    requires j < |s.jobs| && j < |m.jobs| && |m.jobs[j].workers| == |s.jobs[j].workers|
    requires forall t | 0 <= t < |s.jobs[j].workers| :: WindsDown(s.jobs[j].workers[t], m.jobs[j].workers[t])
    requires OnlyUnderWay(s, m, j) && OnlyUnderWay(m, u, j)
    ensures OnlyUnderWay(s, u, j)
  {
  }
}
