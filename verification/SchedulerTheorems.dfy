/** What the scheduler promises over whole runs: fair shares, dependencies
    first, no deadlock, and an exact condition for completing. */
module SchedulerTheorems {
  import opened Jobs
  import opened Ordering
  import opened SchedulerModel

  // ------------------------------------------------------------ dependencies

  ghost predicate LaunchedIn(log: seq<Event>, job: Job)
  {
    exists i :: 0 <= i < |log| && log[i].Launch? && log[i].job == job
  }

  ghost predicate ReceivedIn(log: seq<Event>, id: string)
  {
    exists i :: 0 <= i < |log| && log[i].Receive? && log[i].job.id == id
  }

  /** The phase of every job is what the log says happened to it. */
  lemma {:induction false} PhaseFromLog(config: Config, jobs: seq<Job>, log: seq<Event>, job: Job)
    requires Workload(config, jobs) && ValidRun(config, jobs, log) && job in jobs
    ensures var state := After(jobs, log).state;
      && job.id in state
      && (state[job.id] == Pending <==> !LaunchedIn(log, job))
      && (state[job.id] == Done <==> ReceivedIn(log, job.id))
  {
    if log != [] {
      var n := |log| - 1;
      var e := log[n];
      PhaseFromLog(config, jobs, log[..n], job);
      assert forall i | 0 <= i < n :: log[..n][i] == log[i];
      assert e.job.id == job.id ==> e.job == job;
      assert LaunchedIn(log, job) <==> LaunchedIn(log[..n], job) || (e.Launch? && e.job == job);
      assert ReceivedIn(log, job.id) <==> ReceivedIn(log[..n], job.id) || (e.Receive? && e.job.id == job.id);
    }
  }

  /** Main result: a job starts once, and only after every job it depends on
      has been received. */
  lemma {:induction false} DependenciesFirst(config: Config, jobs: seq<Job>, g: Graph, log: seq<Event>, i: nat)
    requires Workload(config, jobs) && Indexes(g, jobs) && Closed(g)
    requires ValidRun(config, jobs, log) && i < |log| && log[i].Launch?
    ensures !LaunchedIn(log[..i], log[i].job)
    ensures forall d | d in log[i].job.dependsOn :: ReceivedIn(log[..i], d)
  {
    LaunchWasReady(config, jobs, log, i);
    var job := log[i].job;
    forall d | d in job.dependsOn ensures ReceivedIn(log[..i], d) {
      assert job.id in g && g[job.id] == job;
      var k := IndexOf(g, jobs, d);
      PhaseFromLog(config, jobs, log[..i], jobs[k]);
    }
  }

  lemma {:induction false} IndexOf(g: Graph, jobs: seq<Job>, id: string) returns (k: nat)
    requires Indexes(g, jobs) && id in g
    ensures k < |jobs| && jobs[k].id == id
  {
    k :| 0 <= k < |jobs| && jobs[k].id == id;
  }

  lemma {:induction false} LaunchWasReady(config: Config, jobs: seq<Job>, log: seq<Event>, i: nat)
    requires Workload(config, jobs) && ValidRun(config, jobs, log) && i < |log| && log[i].Launch?
    ensures log[i].job in jobs && ValidRun(config, jobs, log[..i])
    ensures Ready(After(jobs, log[..i]).state, log[i].job) && !LaunchedIn(log[..i], log[i].job)
  {
    RunPrefix(config, jobs, log, i + 1);
    var prefix := log[..i + 1];
    assert prefix[..i] == log[..i] && prefix[i] == log[i];
    PhaseFromLog(config, jobs, log[..i], log[i].job);
  }

  // ---------------------------------------------------------------- fairness

  /** The scores of two classes compared without dividing. */
  lemma {:induction false} ScoresCompare(servedLeft: int, weightLeft: int, servedRight: int, weightRight: int)
    requires weightLeft > 0 && weightRight > 0
    requires servedLeft as real / weightLeft as real <= servedRight as real / weightRight as real
    ensures servedLeft * weightRight <= servedRight * weightLeft
  {
    var a, b := servedLeft as real / weightLeft as real, servedRight as real / weightRight as real;
    var wl, wr := weightLeft as real, weightRight as real;
    assert a * wl == servedLeft as real && b * wr == servedRight as real;
    assert (b - a) * (wl * wr) >= 0.0;
    assert a * wl * wr <= b * wr * wl;
    assert (servedLeft * weightRight) as real == servedLeft as real * wr;
    assert (servedRight * weightLeft) as real == servedRight as real * wl;
  }

  /** Some job of the class could have been chosen. */
  ghost predicate HasCandidate(config: Config, jobs: seq<Job>, s: Sched, denied: set<string>, name: string)
  {
    exists job :: Candidate(config, jobs, s, denied, job) && job.class_ == name
  }

  ghost predicate FairShare(config: Config, s: Sched, i: string, j: string)
  {
    var wi, wj := ClassOf(config, i).weight, ClassOf(config, j).weight;
    CountOf(s.classServed, i) * wj <= CountOf(s.classServed, j) * wi + wj
  }

  /** Class j was not passed over for want of a candidate at any launch of class i. */
  ghost predicate Contended(config: Config, jobs: seq<Job>, log: seq<Event>, i: string, j: string)
  {
    forall k | 0 <= k < |log| && log[k].Launch? && log[k].job.class_ == i ::
      HasCandidate(config, jobs, After(jobs, log[..k]), log[k].denied, j)
  }

  /** One launch: serving class i while class j could be served keeps i's
      share at most one job ahead of j's. */
  lemma {:induction false} LaunchIsFair(config: Config, jobs: seq<Job>, s: Sched, e: Event, j: string)
    requires Workload(config, jobs) && e.Launch? && Enabled(config, jobs, s, e)
    requires HasCandidate(config, jobs, s, e.denied, j)
    ensures FairShare(config, Apply(s, e), e.job.class_, j)
  {
    var i := e.job.class_;
    var wi, wj := ClassOf(config, i).weight, ClassOf(config, j).weight;
    if i != j {
      var other :| Candidate(config, jobs, s, e.denied, other) && other.class_ == j;
      assert Before(config, s.classServed, e.job, other);
      ScoresCompare(CountOf(s.classServed, i), wi, CountOf(s.classServed, j), wj);
      var served := CountOf(s.classServed, i);
      assert (served + 1) * wj == served * wj + wj;
    } else {
      var served := CountOf(s.classServed, i);
      assert (served + 1) * wj <= (served + 1) * wi + wj;
    }
  }

  lemma {:induction false} FairShareKept(config: Config, s: Sched, e: Event, i: string, j: string)
    requires ValidConfig(config) && FairShare(config, s, i, j)
    requires !(e.Launch? && e.job.class_ == i)
    ensures FairShare(config, Apply(s, e), i, j)
  {
    var wi := ClassOf(config, i).weight;
    var before, after := CountOf(s.classServed, j), CountOf(Apply(s, e).classServed, j);
    assert before <= after <= before + 1;
    assert after * wi >= before * wi;
  }

  /** Main result: weighted fairness over every run. While class j always has
      a job that could be launched, no class i gets more than one job beyond
      the share its weight gives it relative to j. */
  lemma {:induction false} WeightedFairness(config: Config, jobs: seq<Job>, log: seq<Event>, i: string, j: string)
    requires Workload(config, jobs) && ValidRun(config, jobs, log)
    requires Contended(config, jobs, log, i, j)
    ensures FairShare(config, After(jobs, log), i, j)
  {
    if log == [] {
      assert ClassOf(config, j).weight > 0;
    } else {
      var n := |log| - 1;
      forall k | 0 <= k < n && log[..n][k].Launch? && log[..n][k].job.class_ == i
        ensures HasCandidate(config, jobs, After(jobs, log[..n][..k]), log[..n][k].denied, j)
      {
        assert log[..n][..k] == log[..k] && log[..n][k] == log[k];
      }
      WeightedFairness(config, jobs, log[..n], i, j);
      if log[n].Launch? && log[n].job.class_ == i {
        LaunchIsFair(config, jobs, After(jobs, log[..n]), log[n], j);
      } else {
        FairShareKept(config, After(jobs, log[..n]), log[n], i, j);
      }
    }
  }

  // ------------------------------------------------------- what is launched next

  lemma {:induction false} ScoresDiffer(servedLeft: int, weightLeft: int, servedRight: int, weightRight: int)
    requires weightLeft > 0 && weightRight > 0
    requires servedLeft as real / weightLeft as real < servedRight as real / weightRight as real
    ensures servedLeft * weightRight < servedRight * weightLeft
  {
    var a, b := servedLeft as real / weightLeft as real, servedRight as real / weightRight as real;
    var wl, wr := weightLeft as real, weightRight as real;
    assert a * wl == servedLeft as real && b * wr == servedRight as real;
    assert (b - a) * (wl * wr) > 0.0;
    assert a * wl * wr < b * wr * wl;
    assert (servedLeft * weightRight) as real == servedLeft as real * wr;
    assert (servedRight * weightLeft) as real == servedRight as real * wl;
  }

  /** The weight and the limit of a class; one that is not configured has weight
      one and no limit. */
  function WeightOf(config: Config, name: string): int
  {
    if name in config.classes then config.classes[name].weight else 1
  }

  predicate CapHolds(config: Config, name: string, running: int)
  {
    name in config.classes && config.classes[name].maxConcurrent > 0 ==> running <= config.classes[name].maxConcurrent
  }

  /** With `left` and `right` launches so far, a job of the first class goes before
      one of the second: the smaller share first, then the smaller id. */
  predicate GoesFirst(config: Config, left: int, job: Job, right: int, other: Job)
  {
    var x, y := left * WeightOf(config, other.class_), right * WeightOf(config, job.class_);
    x < y || (x == y && Less(job.id, other.id))
  }

  lemma {:induction false} BeforeMeans(config: Config, served: map<string, int>, job: Job, other: Job)
    requires ValidConfig(config) && Before(config, served, job, other)
    ensures GoesFirst(config, CountOf(served, job.class_), job, CountOf(served, other.class_), other)
  {
    var x, y := CountOf(served, job.class_), CountOf(served, other.class_);
    var v, w := WeightOf(config, job.class_), WeightOf(config, other.class_);
    if Score(config, served, job.class_) < Score(config, served, other.class_) {
      ScoresDiffer(x, v, y, w);
    } else {
      ScoresCompare(x, v, y, w);
      ScoresCompare(y, w, x, v);
    }
  }

  /** How many jobs of the class the log launches. */
  function Launches(log: seq<Event>, name: string): int
  {
    if log == [] then 0
    else
      var last := log[|log| - 1];
      Launches(log[..|log| - 1], name) + if last.Launch? && last.job.class_ == name then 1 else 0
  }

  lemma {:induction false} ServedIsLaunches(jobs: seq<Job>, log: seq<Event>, name: string)
    ensures CountOf(After(jobs, log).classServed, name) == Launches(log, name)
  {
    if log != [] {
      ServedIsLaunches(jobs, log[..|log| - 1], name);
    }
  }

  /** The job has not been launched and all it depends on has been received. */
  ghost predicate Waits(log: seq<Event>, job: Job)
  {
    !LaunchedIn(log, job) && forall d | d in job.dependsOn :: ReceivedIn(log, d)
  }

  lemma {:induction false} ReadyIsWaiting(config: Config, jobs: seq<Job>, g: Graph, log: seq<Event>, job: Job)
    requires Workload(config, jobs) && Indexes(g, jobs) && Closed(g) && ValidRun(config, jobs, log) && job in jobs
    ensures Ready(After(jobs, log).state, job) <==> Waits(log, job)
  {
    var state := After(jobs, log).state;
    assert job.id in g && g[job.id] == job;
    PhaseFromLog(config, jobs, log, job);
    forall d | d in job.dependsOn ensures Finished(state, d) <==> ReceivedIn(log, d) {
      var k := IndexOf(g, jobs, d);
      PhaseFromLog(config, jobs, log, jobs[k]);
    }
  }

  /** With the job counted among those that run, no limit is exceeded. */
  ghost predicate Room(config: Config, jobs: seq<Job>, state: map<string, Phase>, job: Job)
  {
    var next := state[job.id := Running];
    && Total(jobs, |jobs|, next, Everything, {Running}, Cpu) <= config.capacity.cpu
    && Total(jobs, |jobs|, next, Everything, {Running}, Memory) <= config.capacity.memory
    && Total(jobs, |jobs|, next, OfTask(job.taskID), {Running}, Cpu) <= config.perTask.cpu
    && Total(jobs, |jobs|, next, OfTask(job.taskID), {Running}, Memory) <= config.perTask.memory
    && Total(jobs, |jobs|, next, OfTask(job.taskID), {Running}, Count) <= config.perTask.concurrent
    && Total(jobs, |jobs|, next, OfRuntime(job.runtimeID), {Running}, Cpu) <= config.perRuntime.cpu
    && Total(jobs, |jobs|, next, OfRuntime(job.runtimeID), {Running}, Memory) <= config.perRuntime.memory
    && Total(jobs, |jobs|, next, OfRuntime(job.runtimeID), {Running}, Count) <= config.perRuntime.concurrent
    && CapHolds(config, job.class_, Total(jobs, |jobs|, next, OfClass(job.class_), {Running}, Count))
  }

  /** A waiting job is admitted exactly when there is room for it. */
  lemma {:induction false} AdmittedExactlyWhenRoom(config: Config, jobs: seq<Job>, s: Sched, job: Job)
    requires Workload(config, jobs) && Conserved(jobs, s) && job in jobs && s.state[job.id] == Pending
    ensures Admissible(config, s, job) <==> Room(config, jobs, s.state, job)
  {
    forall scope, measure
      ensures Total(jobs, |jobs|, s.state[job.id := Running], scope, {Running}, measure)
           == Total(jobs, |jobs|, s.state, scope, {Running}, measure) + Signed(Launch(job, {}), scope, measure)
    {
      StepTotal(jobs, s, Launch(job, {}), scope, measure);
    }
    hide Total;
    assert Sums(UsageOf(s.taskUsage, job.taskID), jobs, s.state, OfTask(job.taskID));
    assert Sums(UsageOf(s.runtimeUsage, job.runtimeID), jobs, s.state, OfRuntime(job.runtimeID));
  }

  /** The job waits, there is room for it, and the sampler did not turn it away. */
  ghost predicate CouldRun(config: Config, jobs: seq<Job>, log: seq<Event>, denied: set<string>, job: Job)
  {
    job in jobs && Waits(log, job) && Room(config, jobs, After(jobs, log).state, job) && job.id !in denied
  }

  lemma {:induction false} CandidateCouldRun(config: Config, jobs: seq<Job>, g: Graph, log: seq<Event>,
                                             denied: set<string>, job: Job)
    requires Workload(config, jobs) && Indexes(g, jobs) && Closed(g) && ValidRun(config, jobs, log)
    ensures Candidate(config, jobs, After(jobs, log), denied, job) <==> CouldRun(config, jobs, log, denied, job)
  {
    hide Admissible, Room, Conserved, ValidRun, After;
    if job in jobs {
      LedgersExactAndWithinLimits(config, jobs, log);
      ReadyIsWaiting(config, jobs, g, log, job);
      PhaseFromLog(config, jobs, log, job);
      if !LaunchedIn(log, job) {
        AdmittedExactlyWhenRoom(config, jobs, After(jobs, log), job);
      }
    }
  }

  /** Main result: over every run, what is launched could run, and of all jobs that
      could it is the one whose class has had the smallest share of launches for
      its weight, then the one with the least id. */
  lemma {:induction false} LaunchIsExact(config: Config, jobs: seq<Job>, g: Graph, log: seq<Event>, i: nat)
    requires Workload(config, jobs) && Indexes(g, jobs) && Closed(g) && ValidRun(config, jobs, log)
    requires i < |log| && log[i].Launch?
    ensures CouldRun(config, jobs, log[..i], log[i].denied, log[i].job)
    ensures forall other | CouldRun(config, jobs, log[..i], log[i].denied, other) && other.id != log[i].job.id ::
      GoesFirst(config, Launches(log[..i], log[i].job.class_), log[i].job, Launches(log[..i], other.class_), other)
  {
    var job, denied := log[i].job, log[i].denied;
    var s := After(jobs, log[..i]);
    hide Before, GoesFirst, CouldRun, Candidate, Conserved, ValidRun, After, Saturated, UniqueIDs, AllValid;
    EventWasEnabled(config, jobs, log, i);
    CandidateCouldRun(config, jobs, g, log[..i], denied, job);
    forall other | CouldRun(config, jobs, log[..i], denied, other) && other.id != job.id
      ensures GoesFirst(config, Launches(log[..i], job.class_), job, Launches(log[..i], other.class_), other)
    {
      CandidateCouldRun(config, jobs, g, log[..i], denied, other);
      ServedIsLaunches(jobs, log[..i], job.class_);
      ServedIsLaunches(jobs, log[..i], other.class_);
      BeforeMeans(config, s.classServed, job, other);
    }
  }

  lemma {:induction false} EventWasEnabled(config: Config, jobs: seq<Job>, log: seq<Event>, i: nat)
    requires ValidRun(config, jobs, log) && i < |log|
    ensures ValidRun(config, jobs, log[..i]) && Enabled(config, jobs, After(jobs, log[..i]), log[i])
  {
    hide Enabled, After;
    RunPrefix(config, jobs, log, i + 1);
    var prefix := log[..i + 1];
    assert prefix[..i] == log[..i] && prefix[i] == log[i];
  }

  /** Main result: nothing that could run is held back. Before the scheduler waits
      for a result, as many jobs run as may, or no further one could. */
  lemma {:induction false} NothingHeldBack(config: Config, jobs: seq<Job>, g: Graph, log: seq<Event>, i: nat)
    requires Workload(config, jobs) && Indexes(g, jobs) && Closed(g) && ValidRun(config, jobs, log)
    requires i < |log| && log[i].Receive?
    ensures var state := After(jobs, log[..i]).state;
      || Total(jobs, |jobs|, state, Everything, {Running}, Count) == config.maxConcurrent
      || forall job :: !CouldRun(config, jobs, log[..i], log[i].denied, job)
  {
    var s, denied := After(jobs, log[..i]), log[i].denied;
    hide CouldRun, ValidRun, After, Total, Candidate;
    EventWasEnabled(config, jobs, log, i);
    LedgersExactAndWithinLimits(config, jobs, log[..i]);
    forall job | CouldRun(config, jobs, log[..i], denied, job) ensures s.active >= config.maxConcurrent {
      CandidateCouldRun(config, jobs, g, log[..i], denied, job);
      CandidateIsJob(config, jobs, s, denied, job);
    }
  }

  lemma {:induction false} CandidateIsJob(config: Config, jobs: seq<Job>, s: Sched, denied: set<string>, job: Job)
    requires Candidate(config, jobs, s, denied, job)
    ensures job in jobs
  {
  }

  // ---------------------------------------------------------------- progress

  ghost predicate AllFit(config: Config, jobs: seq<Job>)
  {
    forall job | job in jobs :: Fits(config, job)
  }

  /** Nothing runs and nothing can be launched: the loop stops here. */
  ghost predicate Idle(config: Config, jobs: seq<Job>, s: Sched)
  {
    s.active == 0 && Saturated(config, jobs, s, {})
  }

  /** On an idle machine a job that fits is admitted. */
  lemma {:induction false} FittingJobIsAdmitted(config: Config, jobs: seq<Job>, s: Sched, job: Job)
    requires Workload(config, jobs) && Conserved(jobs, s) && s.active == 0
    requires Fits(config, job)
    ensures Admissible(config, s, job)
  {
    forall scope, measure ensures Total(jobs, |jobs|, s.state, scope, {Running}, measure) == 0 {
      TotalBounds(jobs, |jobs|, s.state, scope, {Running}, measure);
    }
    assert Sums(UsageOf(s.taskUsage, job.taskID), jobs, s.state, OfTask(job.taskID));
    assert Sums(UsageOf(s.runtimeUsage, job.runtimeID), jobs, s.state, OfRuntime(job.runtimeID));
  }

  /** Main result: no deadlock. With an acyclic closed graph and jobs that each
      fit alone, a machine with nothing running and work left has a job to launch. */
  lemma {:induction false} NoDeadlock(config: Config, jobs: seq<Job>, g: Graph, s: Sched) returns (job: Job)
    requires Workload(config, jobs) && Indexes(g, jobs) && Closed(g) && !Cyclic(g)
    requires AllFit(config, jobs)
    requires Conserved(jobs, s) && s.active == 0 && s.completed < |jobs|
    ensures Candidate(config, jobs, s, {}, job)
  {
    var waiting := set id | id in g && id in s.state && s.state[id] != Done;
    var left := SomeUnfinished(jobs, s);
    assert jobs[left].id in g && jobs[left].id in waiting;
    var id := SourceExists(g, waiting);
    var k := IndexOf(g, jobs, id);
    job := jobs[k];
    assert g[id] == job;
    NotRunning(jobs, s, k);
    forall d | d in job.dependsOn ensures Finished(s.state, d) {
      assert d in g && d !in waiting;
      var m := IndexOf(g, jobs, d);
      assert jobs[m] in jobs;
    }
    FittingJobIsAdmitted(config, jobs, s, job);
  }

  lemma {:induction false} SomeUnfinished(jobs: seq<Job>, s: Sched) returns (k: nat)
    requires AllValid(jobs) && Conserved(jobs, s) && s.completed < |jobs|
    ensures k < |jobs| && jobs[k].id in s.state && s.state[jobs[k].id] != Done
  {
    CountComplete(jobs, |jobs|, s.state, {Done});
    k :| 0 <= k < |jobs| && !InPhase(s.state, jobs[k], {Done});
    assert jobs[k] in jobs;
  }

  lemma {:induction false} NotRunning(jobs: seq<Job>, s: Sched, k: nat)
    requires AllValid(jobs) && Conserved(jobs, s) && s.active == 0 && k < |jobs|
    ensures jobs[k].id in s.state && s.state[jobs[k].id] != Running
  {
    assert jobs[k] in jobs;
    if s.state[jobs[k].id] == Running {
      CountMember(jobs, |jobs|, s.state, Everything, {Running}, k);
    }
  }

  /** What is admitted beside running jobs would also fit alone. */
  lemma {:induction false} AdmittedJobFits(config: Config, jobs: seq<Job>, s: Sched, job: Job)
    requires Workload(config, jobs) && Conserved(jobs, s) && Admissible(config, s, job)
    ensures Fits(config, job)
  {
    forall scope, measure ensures 0 <= Total(jobs, |jobs|, s.state, scope, {Running}, measure) {
      TotalBounds(jobs, |jobs|, s.state, scope, {Running}, measure);
    }
    assert Sums(UsageOf(s.taskUsage, job.taskID), jobs, s.state, OfTask(job.taskID));
    assert Sums(UsageOf(s.runtimeUsage, job.runtimeID), jobs, s.state, OfRuntime(job.runtimeID));
  }

  /** A job that does not fit alone is never launched. */
  lemma {:induction false} MisfitStaysPending(config: Config, jobs: seq<Job>, log: seq<Event>, job: Job)
    requires Workload(config, jobs) && ValidRun(config, jobs, log)
    requires job in jobs && !Fits(config, job)
    ensures !LaunchedIn(log, job)
  {
    if LaunchedIn(log, job) {
      var i :| 0 <= i < |log| && log[i].Launch? && log[i].job == job;
      hide Conserved, Fits, Admissible, Ready, WithinLimits;
      RunPrefix(config, jobs, log, i + 1);
      assert log[..i + 1][..i] == log[..i] && log[..i + 1][i] == log[i];
      LedgersExactAndWithinLimits(config, jobs, log[..i]);
      AdmittedJobFits(config, jobs, After(jobs, log[..i]), job);
    }
  }

  /** Main result: without a pressure sampler, a run that can go no further has
      completed every job exactly when every job fits the machine and both
      quotas on its own. */
  lemma {:induction false} CompletesIffAllFit(config: Config, jobs: seq<Job>, g: Graph, log: seq<Event>)
    requires Workload(config, jobs) && Indexes(g, jobs) && Closed(g) && !Cyclic(g)
    requires ValidRun(config, jobs, log) && Idle(config, jobs, After(jobs, log))
    ensures After(jobs, log).completed == |jobs| <==> AllFit(config, jobs)
  {
    var s := After(jobs, log);
    LedgersExactAndWithinLimits(config, jobs, log);
    TotalBounds(jobs, |jobs|, s.state, Everything, {Done}, Count);
    if AllFit(config, jobs) && s.completed < |jobs| {
      var job := NoDeadlock(config, jobs, g, s);
      assert false;
    }
    if s.completed == |jobs| {
      CountComplete(jobs, |jobs|, s.state, {Done});
      forall job | job in jobs ensures Fits(config, job) {
        var k :| 0 <= k < |jobs| && jobs[k] == job;
        assert InPhase(s.state, jobs[k], {Done});
        if !Fits(config, job) {
          MisfitStaysPending(config, jobs, log, job);
          PhaseFromLog(config, jobs, log, job);
        }
      }
    }
  }

  /** Main result: every event is progress. A run has one launch per started
      job and one receive per finished job, so it has at most two events per
      job, and exactly two per job when it completes. */
  lemma {:induction false} RunLength(config: Config, jobs: seq<Job>, log: seq<Event>)
    requires Workload(config, jobs) && ValidRun(config, jobs, log)
    ensures var s := After(jobs, log);
      && |log| == s.active + 2 * s.completed
      && s.active >= 0 && s.completed >= 0 && s.active + s.completed <= |jobs|
  {
    LedgersExactAndWithinLimits(config, jobs, log);
    var s := After(jobs, log);
    TotalBounds(jobs, |jobs|, s.state, Everything, {Done}, Count);
    ActiveAndCompletedAreDisjoint(jobs, |jobs|, s.state);
    TotalBounds(jobs, |jobs|, s.state, Everything, {Running, Done}, Count);
    if log != [] {
      RunLength(config, jobs, log[..|log| - 1]);
    }
  }

  lemma {:induction false} ActiveAndCompletedAreDisjoint(jobs: seq<Job>, n: nat, state: map<string, Phase>)
    requires n <= |jobs|
    ensures Total(jobs, n, state, Everything, {Running}, Count) + Total(jobs, n, state, Everything, {Done}, Count)
         == Total(jobs, n, state, Everything, {Running, Done}, Count)
    decreases n
  {
    if n > 0 {
      ActiveAndCompletedAreDisjoint(jobs, n - 1, state);
    }
  }

  /** Main result: when nothing runs, every ledger is back at zero. */
  lemma {:induction false} IdleLedgersAreZero(config: Config, jobs: seq<Job>, log: seq<Event>)
    requires Workload(config, jobs) && ValidRun(config, jobs, log) && After(jobs, log).active == 0
    ensures var s := After(jobs, log);
      && s.used.cpu == 0 && s.used.memory == 0
      && (forall t :: UsageOf(s.taskUsage, t) == NO_USAGE)
      && (forall r :: UsageOf(s.runtimeUsage, r) == NO_USAGE)
      && (forall c :: CountOf(s.classRunning, c) == 0)
  {
    var s := After(jobs, log);
    LedgersExactAndWithinLimits(config, jobs, log);
    forall scope, measure ensures Total(jobs, |jobs|, s.state, scope, {Running}, measure) == 0 {
      TotalBounds(jobs, |jobs|, s.state, scope, {Running}, measure);
    }
    forall t ensures UsageOf(s.taskUsage, t) == NO_USAGE {
      assert Sums(UsageOf(s.taskUsage, t), jobs, s.state, OfTask(t));
    }
    forall r ensures UsageOf(s.runtimeUsage, r) == NO_USAGE {
      assert Sums(UsageOf(s.runtimeUsage, r), jobs, s.state, OfRuntime(r));
    }
  }
}
