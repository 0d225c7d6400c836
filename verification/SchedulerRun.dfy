/** The scheduler's imperative code: choosing, launching, receiving and the
    loop of Run, proved to produce only runs of the model. */
module SchedulerRun {
  import opened Jobs
  import opened Options
  import opened Ordering
  import opened SchedulerModel
  import opened SchedulerTheorems

  datatype Error = ErrRejected | ErrBackpressure | ErrCycle | ErrUnschedulable | ErrHostPressure
                 | ContextError | JobError

  // ------------------------------------------------------------- chooseReady

  ghost predicate KeyedByID(byID: Graph)
  {
    forall id | id in byID :: byID[id].id == id
  }

  /** readyJobs; the order in which the map hands out jobs is left open. */
  method ReadyJobs(byID: Graph, state: map<string, Phase>) returns (ready: seq<Job>)
    requires KeyedByID(byID)
    ensures forall job :: job in ready <==> job.id in byID && byID[job.id] == job && Ready(state, job)
    ensures UniqueIDs(ready)
  {
    ready := [];
    var remaining := byID.Keys;
    while remaining != {}
      invariant remaining <= byID.Keys && UniqueIDs(ready)
      invariant forall job :: job in ready <==>
        job.id in byID && job.id !in remaining && byID[job.id] == job && Ready(state, job)
      decreases remaining
    {
      var id :| id in remaining;
      remaining := remaining - {id};
      var job := byID[id];
      if id in state && state[id] == Pending {
        var readyNow := true;
        var i := 0;
        while i < |job.dependsOn| && readyNow
          invariant 0 <= i <= |job.dependsOn|
          invariant readyNow ==> forall k | 0 <= k < i :: Finished(state, job.dependsOn[k])
          invariant !readyNow ==> exists d :: d in job.dependsOn && !Finished(state, d)
        {
          if !Finished(state, job.dependsOn[i]) {
            readyNow := false;
          }
          i := i + 1;
        }
        if readyNow {
          ready := ready + [job];
        }
      }
    }
  }

  lemma {:induction false} BeforeTransitive(config: Config, served: map<string, int>, a: Job, b: Job, c: Job)
    requires Before(config, served, a, b) && Before(config, served, b, c)
    ensures Before(config, served, a, c)
  {
    if Less(a.id, b.id) && Less(b.id, c.id) {
      LessTransitive(a.id, b.id, c.id);
    }
  }

  lemma {:induction false} BeforeTotal(config: Config, served: map<string, int>, a: Job, b: Job)
    requires a.id != b.id
    ensures Before(config, served, a, b) || Before(config, served, b, a)
  {
    LessTotal(a.id, b.id);
  }

  ghost predicate Sorted(config: Config, served: map<string, int>, jobs: seq<Job>)
  {
    forall i, j | 0 <= i < j < |jobs| :: Before(config, served, jobs[i], jobs[j])
  }

  method Insert(config: Config, served: map<string, int>, job: Job, sorted: seq<Job>) returns (longer: seq<Job>)
    requires Sorted(config, served, sorted)
    requires UniqueIDs(sorted) && forall m | 0 <= m < |sorted| :: sorted[m].id != job.id
    ensures Sorted(config, served, longer) && UniqueIDs(longer)
    ensures forall other :: other in longer <==> other in sorted || other == job
  {
    var k := 0;
    while k < |sorted| && Before(config, served, sorted[k], job)
      invariant 0 <= k <= |sorted|
      invariant forall m | 0 <= m < k :: Before(config, served, sorted[m], job)
    {
      k := k + 1;
    }
    forall m | k <= m < |sorted| ensures Before(config, served, job, sorted[m]) {
      BeforeTotal(config, served, job, sorted[k]);
      if m > k {
        BeforeTransitive(config, served, job, sorted[k], sorted[m]);
      }
    }
    longer := sorted[..k] + [job] + sorted[k..];
    assert forall other :: other in sorted <==> other in sorted[..k] || other in sorted[k..];
  }

  /** The sort that chooseReady asks of the library, here by insertion. */
  method SortByScore(config: Config, served: map<string, int>, ready: seq<Job>) returns (sorted: seq<Job>)
    requires UniqueIDs(ready)
    ensures Sorted(config, served, sorted) && UniqueIDs(sorted)
    ensures forall job :: job in sorted <==> job in ready
  {
    sorted := [];
    var i := 0;
    while i < |ready|
      invariant 0 <= i <= |ready|
      invariant Sorted(config, served, sorted) && UniqueIDs(sorted)
      invariant forall job :: job in sorted <==> job in ready[..i]
    {
      forall m | 0 <= m < |sorted| ensures sorted[m].id != ready[i].id {
        assert sorted[m] in sorted;
        ghost var n :| 0 <= n < i && ready[n] == sorted[m];
      }
      sorted := Insert(config, served, ready[i], sorted);
      i := i + 1;
    }
    assert ready[..i] == ready;
  }

  /** The sampler reports enough for the job. */
  predicate Available(samples: map<string, Resources>, job: Job)
  {
    job.id in samples && job.resources.cpu <= samples[job.id].cpu && job.resources.memory <= samples[job.id].memory
  }

  function TurnedAway(config: Config, jobs: seq<Job>, samples: map<string, Resources>): set<string>
  {
    if config.sampled then set job | job in jobs && !Available(samples, job) :: job.id else {}
  }

  lemma {:induction false} TurnedAwayExactly(config: Config, jobs: seq<Job>, samples: map<string, Resources>, job: Job)
    requires UniqueIDs(jobs) && job in jobs
    ensures job.id in TurnedAway(config, jobs, samples) <==> config.sampled && !Available(samples, job)
  {
  }

  /** The run's variables, as fields that the loop of Run updates. */
  class Execution {
    var state: map<string, Phase>
    var used: Resources
    var taskUsage: map<string, Usage>
    var runtimeUsage: map<string, Usage>
    var classRunning: map<string, int>
    var classServed: map<string, int>
    var active: int
    var completed: int

    constructor (jobs: seq<Job>)
      ensures Model() == Start(jobs)
    {
      state := map job | job in jobs :: job.id := Pending;
      used, taskUsage, runtimeUsage := Resources(0, 0), map[], map[];
      classRunning, classServed := map[], map[];
      active, completed := 0, 0;
    }

    function Model(): Sched
      reads this
    {
      Sched(state, used, taskUsage, runtimeUsage, classRunning, classServed, active, completed)
    }

    method Launch(job: Job)
      modifies this
      ensures Model() == Launched(old(Model()), job)
    {
      state := state[job.id := Running];
      active := active + 1;
      classRunning := classRunning[job.class_ := CountOf(classRunning, job.class_) + 1];
      classServed := classServed[job.class_ := CountOf(classServed, job.class_) + 1];
      used := AddResources(used, job.resources);
      taskUsage := taskUsage[job.taskID := AddUsage(UsageOf(taskUsage, job.taskID), job.resources)];
      runtimeUsage := runtimeUsage[job.runtimeID := AddUsage(UsageOf(runtimeUsage, job.runtimeID), job.resources)];
    }

    method Receive(job: Job)
      modifies this
      ensures Model() == Received(old(Model()), job)
    {
      active := active - 1;
      state := state[job.id := Done];
      used := SubtractResources(used, job.resources);
      taskUsage := taskUsage[job.taskID := SubtractUsage(UsageOf(taskUsage, job.taskID), job.resources)];
      runtimeUsage := runtimeUsage[job.runtimeID := SubtractUsage(UsageOf(runtimeUsage, job.runtimeID), job.resources)];
      classRunning := classRunning[job.class_ := CountOf(classRunning, job.class_) - 1];
      completed := completed + 1;
    }

    /** The job can be launched beside what runs now, as far as limits, quotas and
        the sampler's answer go. */
    predicate Affords(config: Config, samples: map<string, Resources>, job: Job)
      reads this
    {
      var task, runtime := UsageOf(taskUsage, job.taskID), UsageOf(runtimeUsage, job.runtimeID);
      && CapHolds(config, job.class_, CountOf(classRunning, job.class_) + 1)
      && used.cpu + job.resources.cpu <= config.capacity.cpu
      && used.memory + job.resources.memory <= config.capacity.memory
      && task.resources.cpu + job.resources.cpu <= config.perTask.cpu
      && task.resources.memory + job.resources.memory <= config.perTask.memory
      && task.concurrent < config.perTask.concurrent
      && runtime.resources.cpu + job.resources.cpu <= config.perRuntime.cpu
      && runtime.resources.memory + job.resources.memory <= config.perRuntime.memory
      && runtime.concurrent < config.perRuntime.concurrent
      && (config.sampled ==>
            && job.id in samples && job.resources.cpu <= samples[job.id].cpu
            && job.resources.memory <= samples[job.id].memory)
    }

    lemma {:induction false} CandidateAffords(config: Config, jobs: seq<Job>, samples: map<string, Resources>, job: Job)
      requires ValidConfig(config) && UniqueIDs(jobs) && job in jobs && Ready(state, job)
      ensures Candidate(config, jobs, Model(), TurnedAway(config, jobs, samples), job)
         <==> Affords(config, samples, job)
    {
      TurnedAwayExactly(config, jobs, samples, job);
      hide TurnedAway, UniqueIDs;
    }

    /** chooseReady. `samples` is what the sampler would answer for each job in
        this call; for a job without an answer it fails. */
    method ChooseReady(config: Config, ghost jobs: seq<Job>, ready: seq<Job>, samples: map<string, Resources>)
      returns (choice: Option<Job>)
      requires ValidConfig(config) && UniqueIDs(jobs) && UniqueIDs(ready)
      requires forall job :: job in ready <==> job in jobs && Ready(state, job)
      ensures choice.None? ==> forall job | job in ready :: !Affords(config, samples, job)
      ensures choice.Some? ==> choice.value in ready && Affords(config, samples, choice.value)
      ensures choice.Some? ==>
        forall other | other in ready && other.id != choice.value.id && Affords(config, samples, other) ::
          GoesFirst(config, CountOf(classServed, choice.value.class_), choice.value,
                    CountOf(classServed, other.class_), other)
      ensures var denied := TurnedAway(config, jobs, samples);
        if choice.Some? then Chosen(config, jobs, Model(), denied, choice.value)
        else forall job | job in jobs :: !Candidate(config, jobs, Model(), denied, job)
    {
      choice := Scan(config, jobs, ready, samples);
      ghost var denied := TurnedAway(config, jobs, samples);
      forall job | job in ready
        ensures Candidate(config, jobs, Model(), denied, job) <==> Affords(config, samples, job)
      {
        CandidateAffords(config, jobs, samples, job);
      }
      hide Affords, Before, GoesFirst, TurnedAway, UniqueIDs, ValidConfig;
      if choice.Some? {
        forall other | other in ready && other.id != choice.value.id && Affords(config, samples, other)
          ensures GoesFirst(config, CountOf(classServed, choice.value.class_), choice.value,
                            CountOf(classServed, other.class_), other)
        {
          BeforeMeans(config, classServed, choice.value, other);
        }
      }
    }

    method Scan(config: Config, ghost jobs: seq<Job>, ready: seq<Job>, samples: map<string, Resources>)
      returns (choice: Option<Job>)
      requires UniqueIDs(jobs) && UniqueIDs(ready)
      requires forall job :: job in ready <==> job in jobs && Ready(state, job)
      ensures var denied := TurnedAway(config, jobs, samples);
        if choice.Some? then Chosen(config, jobs, Model(), denied, choice.value)
        else forall job | job in jobs :: !Candidate(config, jobs, Model(), denied, job)
    {
      ghost var denied := TurnedAway(config, jobs, samples);
      var sorted := SortByScore(config, classServed, ready);
      var i := 0;
      while i < |sorted|
        invariant 0 <= i <= |sorted|
        invariant forall k | 0 <= k < i :: !Candidate(config, jobs, Model(), denied, sorted[k])
      {
        var job := sorted[i];
        var class_ := ClassOf(config, job.class_);
        assert forall k | i < k < |sorted| :: Before(config, classServed, job, sorted[k]);
        if class_.maxConcurrent > 0 && CountOf(classRunning, job.class_) >= class_.maxConcurrent {
        } else if config.maxConcurrent <= 0
                  || used.cpu + job.resources.cpu > config.capacity.cpu
                  || used.memory + job.resources.memory > config.capacity.memory {
        } else if !WithinQuota(UsageOf(taskUsage, job.taskID), job.resources, config.perTask)
                  || !WithinQuota(UsageOf(runtimeUsage, job.runtimeID), job.resources, config.perRuntime) {
        } else {
          TurnedAwayExactly(config, jobs, samples, job);
          if config.sampled && (job.id !in samples
             || samples[job.id].cpu < job.resources.cpu || samples[job.id].memory < job.resources.memory) {
          } else {
            return Some(job);
          }
        }
        i := i + 1;
      }
      return None;
    }
  }

  /** The first ready job that is too large for the machine, or that the sampler
      reports too little for, decides. */
  ghost predicate PressureDecides(config: Config, ready: seq<Job>, samples: map<string, Resources>, k: nat)
    requires k < |ready|
  {
    && config.sampled && ready[k].id in samples && !Available(samples, ready[k])
    && forall m | 0 <= m <= k :: FitsCapacity(config, ready[m])
  }

  /** The sampler reports too little for the job. */
  predicate Pressed(config: Config, samples: map<string, Resources>, job: Job)
  {
    config.sampled && job.id in samples
    && (samples[job.id].cpu < job.resources.cpu || samples[job.id].memory < job.resources.memory)
  }

  /** admissionError: why the jobs that are ready cannot be admitted. */
  method AdmissionError(config: Config, ready: seq<Job>, samples: map<string, Resources>) returns (reason: Error)
    ensures reason == ErrUnschedulable || reason == ErrHostPressure
    ensures reason == ErrHostPressure <==> exists k | 0 <= k < |ready| :: PressureDecides(config, ready, samples, k)
    ensures reason == ErrHostPressure ==>
      exists job | job in ready :: FitsCapacity(config, job) && Pressed(config, samples, job)
    ensures reason == ErrUnschedulable ==>
      || (exists job | job in ready :: !FitsCapacity(config, job))
      || forall job | job in ready :: !Pressed(config, samples, job)
  {
    var i := 0;
    while i < |ready|
      invariant 0 <= i <= |ready| && forall m | 0 <= m < i :: FitsCapacity(config, ready[m])
      invariant forall m | 0 <= m < i :: !PressureDecides(config, ready, samples, m)
      invariant forall m | 0 <= m < i :: !Pressed(config, samples, ready[m])
    {
      assert ready[i] in ready;
      if !FitsCapacity(config, ready[i]) {
        return ErrUnschedulable;
      }
      if config.sampled && ready[i].id in samples
         && (samples[ready[i].id].cpu < ready[i].resources.cpu
           || samples[ready[i].id].memory < ready[i].resources.memory) {
        assert PressureDecides(config, ready, samples, i);
        return ErrHostPressure;
      }
      i := i + 1;
    }
    return ErrUnschedulable;
  }

  // --------------------------------------------------------------------- Run

  ghost predicate NoneFailed(log: seq<Event>)
  {
    forall i | 0 <= i < |log| && log[i].Receive? :: !log[i].failed
  }

  lemma {:induction false} RunningJobExists(jobs: seq<Job>, s: Sched)
    requires AllValid(jobs) && Conserved(jobs, s) && s.active > 0
    ensures exists job :: job in jobs && s.state[job.id] == Running
  {
    if forall i | 0 <= i < |jobs| :: !InPhase(s.state, jobs[i], {Running}) {
      TotalOfNone(jobs, |jobs|, s.state, Everything, {Running}, Count);
    } else {
      var i :| 0 <= i < |jobs| && InPhase(s.state, jobs[i], {Running});
      assert jobs[i] in jobs;
    }
  }

  /** A run extended by an event that its last state enables. */
  lemma {:induction false} Extend(config: Config, jobs: seq<Job>, log: seq<Event>, e: Event)
    requires ValidRun(config, jobs, log) && Enabled(config, jobs, After(jobs, log), e)
    ensures ValidRun(config, jobs, log + [e])
    ensures After(jobs, log + [e]) == Apply(After(jobs, log), e)
    ensures NoneFailed(log + [e]) <==> NoneFailed(log) && (e.Receive? ==> !e.failed)
  {
    var longer := log + [e];
    assert longer[..|longer| - 1] == log;
    assert longer[|log|] == e;
    assert forall i | 0 <= i < |log| :: longer[i] == log[i];
  }

  /** The map holds exactly the listed jobs under their ids. */
  ghost predicate Lists(jobs: seq<Job>, byID: Graph)
  {
    KeyedByID(byID) && forall job :: job in jobs <==> job.id in byID && byID[job.id] == job
  }

  lemma {:induction false} IndexLists(jobs: seq<Job>, byID: Graph)
    requires UniqueIDs(jobs) && Indexes(byID, jobs)
    ensures Lists(jobs, byID)
  {
    forall job ensures job in jobs <==> job.id in byID && byID[job.id] == job {
      if job.id in byID && byID[job.id] == job {
        var k := IndexOf(byID, jobs, job.id);
        assert jobs[k] == job;
      }
    }
    forall id | id in byID ensures byID[id].id == id {
      var k := IndexOf(byID, jobs, id);
    }
  }

  /** The inner loop: launch until the concurrency limit is met or nothing can
      be chosen. */
  method LaunchReady(config: Config, jobs: seq<Job>, byID: Graph, exec: Execution, ghost log: seq<Event>)
    returns (ghost longer: seq<Event>, ghost denied: set<string>)
    requires Workload(config, jobs) && Lists(jobs, byID)
    requires exec.Model() == After(jobs, log) && ValidRun(config, jobs, log)
    modifies exec
    ensures exec.Model() == After(jobs, longer) && ValidRun(config, jobs, longer)
    ensures (NoneFailed(longer) <==> NoneFailed(log)) && exec.completed == old(exec.completed)
    ensures (!config.sampled ==> denied == {}) && Saturated(config, jobs, exec.Model(), denied)
  {
    longer, denied := log, {};
    RunLength(config, jobs, log);
    while exec.active < config.maxConcurrent
      invariant exec.Model() == After(jobs, longer) && ValidRun(config, jobs, longer)
      invariant (NoneFailed(longer) <==> NoneFailed(log)) && exec.completed == old(exec.completed)
      invariant !config.sampled ==> denied == {}
      decreases config.maxConcurrent - exec.active
    {
      var ready := ReadyJobs(byID, exec.state);
      var samples: map<string, Resources> := *;
      var choice := exec.ChooseReady(config, jobs, ready, samples);
      denied := TurnedAway(config, jobs, samples);
      if choice.None? {
        return;
      }
      Extend(config, jobs, longer, Launch(choice.value, denied));
      longer := longer + [Launch(choice.value, denied)];
      exec.Launch(choice.value);
      denied := {};
    }
  }

  /** The receive branch of the select: any running job may report, with any
      result. */
  method ReceiveOne(config: Config, jobs: seq<Job>, exec: Execution, ghost log: seq<Event>, ghost denied: set<string>)
    returns (failed: bool, ghost longer: seq<Event>)
    requires Workload(config, jobs)
    requires exec.Model() == After(jobs, log) && ValidRun(config, jobs, log) && exec.active > 0
    requires (!config.sampled ==> denied == {}) && Saturated(config, jobs, exec.Model(), denied)
    modifies exec
    ensures exec.Model() == After(jobs, longer) && ValidRun(config, jobs, longer)
    ensures NoneFailed(longer) <==> NoneFailed(log) && !failed
    ensures exec.completed == old(exec.completed) + 1
  {
    LedgersExactAndWithinLimits(config, jobs, log);
    RunningJobExists(jobs, exec.Model());
    var job :| job in jobs && exec.state[job.id] == Running;
    failed := *;
    Extend(config, jobs, log, Event.Receive(job, denied, failed));
    longer := log + [Event.Receive(job, denied, failed)];
    exec.Receive(job);
  }

  /** The launch/receive loop of Run over an accepted graph. `spins` bounds how
      often the select takes the cancellation branch, which a fair select does
      finitely often; `blame` is what the sampler answers when a run that can go no
      further looks for a reason. The caller may choose any. */
  method Loop(config: Config, jobs: seq<Job>, byID: Graph, spins: nat, blame: map<string, Resources>)
    returns (firstErr: Option<Error>, ghost log: seq<Event>, ghost interrupted: bool)
    requires Workload(config, jobs) && Lists(jobs, byID)
    ensures ValidRun(config, jobs, log)
    ensures After(jobs, log).active == 0 && After(jobs, log).completed <= |jobs|
    ensures firstErr.None? <==> After(jobs, log).completed == |jobs| && NoneFailed(log) && !interrupted
    ensures After(jobs, log).completed < |jobs| ==> exists denied ::
      (!config.sampled ==> denied == {}) && Saturated(config, jobs, After(jobs, log), denied)
    ensures firstErr.Some? ==> Explains(config, jobs, log, interrupted, blame, firstErr.value)
  {
    var exec := new Execution(jobs);
    firstErr, log, interrupted := None, [], false;
    var budget := spins;
    RunLength(config, jobs, log);
    while exec.completed < |jobs|
      invariant fresh(exec) && exec.Model() == After(jobs, log) && ValidRun(config, jobs, log)
      invariant |log| == exec.active + 2 * exec.completed && exec.active >= 0 && exec.active + exec.completed <= |jobs|
      invariant firstErr.None? <==> NoneFailed(log) && !interrupted
      invariant firstErr.Some? ==> firstErr.value in {ContextError, JobError}
      invariant firstErr == Some(ContextError) ==> interrupted
      invariant firstErr == Some(JobError) ==> !NoneFailed(log)
      decreases |jobs| - exec.completed, budget
    {
      if * {  // runCtx.Err() != nil
        interrupted := true;
        if firstErr.None? {
          firstErr := Some(ContextError);
        }
      }
      ghost var denied;
      log, denied := LaunchReady(config, jobs, byID, exec, log);
      assert |log| == exec.active + 2 * exec.completed && 0 <= exec.active <= |jobs| - exec.completed by {
        RunLength(config, jobs, log);
      }
      if exec.active == 0 {
        firstErr := WhyStuck(config, jobs, byID, exec, log, firstErr, blame);
        return;
      }
      var done: bool := *;
      if done && budget > 0 {  // <-runCtx.Done()
        budget := budget - 1;
        interrupted := true;
        if firstErr.None? {
          firstErr := Some(ContextError);
        }
      } else {
        var failed;
        failed, log := ReceiveOne(config, jobs, exec, log, denied);
        if failed && firstErr.None? {
          firstErr := Some(JobError);
        }
        RunLength(config, jobs, log);
      }
    }
    // active is zero here, so draining the results channel has nothing to do,
    // and waiting for the group adds no error that was not received already
  }

  /** What each error of a started run says: a cancellation was seen, a job failed,
      or neither and a job is left that cannot be admitted; pressure is blamed for a
      job that fits the machine, and for none only if some ready job does not fit
      or none is pressed. */
  ghost predicate Explains(config: Config, jobs: seq<Job>, log: seq<Event>, interrupted: bool,
                           blame: map<string, Resources>, err: Error)
  {
    var s := After(jobs, log);
    match err
    case ContextError => interrupted
    case JobError => !NoneFailed(log)
    case ErrUnschedulable =>
      && NoneFailed(log) && !interrupted && s.completed < |jobs|
      && ((exists job | job in jobs && Ready(s.state, job) :: !FitsCapacity(config, job))
          || forall job | job in jobs && Ready(s.state, job) :: !Pressed(config, blame, job))
    case ErrHostPressure =>
      && NoneFailed(log) && !interrupted && s.completed < |jobs|
      && exists job | job in jobs && Ready(s.state, job) :: FitsCapacity(config, job) && Pressed(config, blame, job)
    case _ => false
  }

  /** What Run makes of a state in which nothing runs and nothing can be launched. */
  method WhyStuck(config: Config, jobs: seq<Job>, byID: Graph, exec: Execution, ghost log: seq<Event>,
                  firstErr: Option<Error>, blame: map<string, Resources>)
    returns (err: Option<Error>)
    requires Lists(jobs, byID) && exec.Model() == After(jobs, log) && After(jobs, log).completed < |jobs|
    ensures firstErr.Some? ==> err == firstErr
    ensures firstErr.None? ==> err.Some? && err.value in {ErrUnschedulable, ErrHostPressure}
    ensures firstErr.None? && NoneFailed(log) ==> Explains(config, jobs, log, false, blame, err.value)
  {
    hide After, NoneFailed;
    var ready := ReadyJobs(byID, exec.state);
    assert forall job :: job in ready <==> job in jobs && Ready(exec.state, job);
    hide Ready, Lists;
    err := firstErr;
    if |ready| > 0 && firstErr.None? {
      var reason := AdmissionError(config, ready, blame);
      err := Some(reason);
    }
    if err.None? {
      err := Some(ErrUnschedulable);
    }
  }

  /** What validateGraph accepts. */
  ghost predicate SoundGraph(jobs: seq<Job>, byID: Graph)
  {
    AllValid(jobs) && UniqueIDs(jobs) && Indexes(byID, jobs) && Closed(byID) && !Cyclic(byID)
  }

  /** Run. */
  method Run(config: Config, ctxNil: bool, jobs: seq<Job>, spins: nat, blame: map<string, Resources>)
    returns (err: Option<Error>, ghost byID: Graph, ghost log: seq<Event>, ghost interrupted: bool)
    requires ValidConfig(config)
    ensures ctxNil ==> err == Some(ErrRejected)
    ensures !ctxNil && jobs == [] ==> err == None
    ensures jobs == [] ==> log == [] && !interrupted
    ensures err == Some(ErrBackpressure) <==> !ctxNil && |jobs| > config.maxQueued
    ensures ValidRun(config, jobs, log) && After(jobs, log).active == 0
    ensures log != [] ==> SoundGraph(jobs, byID)
    // the graph is refused exactly when it is unsound, and a cycle is reported
    // only where there is one
    ensures !ctxNil && 0 < |jobs| <= config.maxQueued ==>
      (err in {Some(ErrCycle), Some(ErrRejected)} <==> !SoundGraph(jobs, byID))
    ensures err == Some(ErrCycle) ==> AllValid(jobs) && UniqueIDs(jobs) && Indexes(byID, jobs) && Cyclic(byID)
    ensures err == Some(ErrRejected) ==> ctxNil || !AllValid(jobs) || !UniqueIDs(jobs) || !Closed(byID)
    ensures !ctxNil && 0 < |jobs| <= config.maxQueued && SoundGraph(jobs, byID) && err.Some? ==>
      Explains(config, jobs, log, interrupted, blame, err.value)
    // a started run ends with nil only when every job finished without error
    // and no cancellation was seen
    ensures !ctxNil && 0 < |jobs| && err.None? ==>
      After(jobs, log).completed == |jobs| && NoneFailed(log) && !interrupted
    // without a pressure sampler an accepted workload runs to the end exactly
    // when each of its jobs fits alone
    ensures !ctxNil && 0 < |jobs| <= config.maxQueued && !config.sampled && SoundGraph(jobs, byID) ==>
      (After(jobs, log).completed == |jobs| <==> AllFit(config, jobs))
    ensures (!ctxNil && 0 < |jobs| <= config.maxQueued && !config.sampled && SoundGraph(jobs, byID)
             && AllFit(config, jobs)) ==>
      (err.None? <==> NoneFailed(log) && !interrupted)
  {
    byID, log, interrupted := map[], [], false;
    if ctxNil || jobs == [] {
      if ctxNil {
        return Some(ErrRejected), byID, log, interrupted;
      }
      return None, byID, log, interrupted;
    }
    if |jobs| > config.maxQueued {
      return Some(ErrBackpressure), byID, log, interrupted;
    }
    var verdict, g := ValidateGraph(jobs);
    byID := g;
    if verdict != Accepted {
      return Some(if verdict == Cycle then ErrCycle else ErrRejected), byID, log, interrupted;
    }
    IndexLists(jobs, g);
    err, log, interrupted := Loop(config, jobs, g, spins, blame);
    if !config.sampled {
      if After(jobs, log).completed == |jobs| {
        CompleteIsIdle(config, jobs, log);
      }
      CompletesIffAllFit(config, jobs, g, log);
    }
  }

  lemma {:induction false} CompleteIsIdle(config: Config, jobs: seq<Job>, log: seq<Event>)
    requires Workload(config, jobs) && ValidRun(config, jobs, log)
    requires After(jobs, log).completed == |jobs|
    ensures Idle(config, jobs, After(jobs, log))
  {
    var s := After(jobs, log);
    RunLength(config, jobs, log);
    LedgersExactAndWithinLimits(config, jobs, log);
    CountComplete(jobs, |jobs|, s.state, {Done});
    forall job | job in jobs ensures !Candidate(config, jobs, s, {}, job) {
      var k :| 0 <= k < |jobs| && jobs[k] == job;
      assert InPhase(s.state, jobs[k], {Done});
    }
  }

  // ----------------------------------------------------------- the submit queue

  class Scheduler {
    const config: Config
    var queued: seq<Job>
    var run: bool

    constructor (config: Config)
      requires ValidConfig(config)
      ensures this.config == config && queued == [] && !run && Valid()
    {
      this.config := config;
      queued, run := [], false;
    }

    /** What the queue always holds: valid jobs with distinct ids, at most as
        many as configured. */
    ghost predicate Valid()
      reads this
    {
      ValidConfig(config) && AllValid(queued) && UniqueIDs(queued) && |queued| <= config.maxQueued
    }

    method Submit(ctxDone: bool, job: Job) returns (err: Option<Error>)
      requires Valid()
      modifies this
      ensures Valid() && run == old(run)
      ensures err.None? <==> !ctxDone && !old(run) && ValidJob(job) && |old(queued)| < config.maxQueued
                             && forall k | 0 <= k < |old(queued)| :: old(queued)[k].id != job.id
      ensures err == Some(ErrBackpressure) <==>
        !ctxDone && !old(run) && ValidJob(job) && |old(queued)| == config.maxQueued
      ensures queued == if err.None? then old(queued) + [job] else old(queued)
    {
      if ctxDone || run || !ValidJob(job) {
        return Some(ErrRejected);
      }
      if |queued| >= config.maxQueued {
        return Some(ErrBackpressure);
      }
      var i := 0;
      while i < |queued|
        invariant 0 <= i <= |queued|
        invariant forall k | 0 <= k < i :: queued[k].id != job.id
      {
        if queued[i].id == job.id {
          return Some(ErrRejected);
        }
        i := i + 1;
      }
      queued := queued + [job];
      return None;
    }

    /** RunSubmitted: hands the whole queue to Run, once. What Submit let in
        can only be refused for its dependencies. */
    method RunSubmitted(ctxNil: bool, spins: nat, blame: map<string, Resources>)
      returns (err: Option<Error>, ghost byID: Graph, ghost log: seq<Event>, ghost interrupted: bool)
      requires Valid()
      modifies this
      ensures Valid()
      ensures old(run) ==> err == Some(ErrRejected) && run && queued == old(queued)
      ensures !old(run) ==> !run && queued == []
      ensures !old(run) ==> ValidRun(config, old(queued), log) && After(old(queued), log).active == 0
      ensures err != Some(ErrBackpressure)
      ensures !old(run) && !ctxNil && err.None? ==>
        After(old(queued), log).completed == |old(queued)| && NoneFailed(log) && !interrupted
      ensures !old(run) && !ctxNil && !config.sampled && SoundGraph(old(queued), byID) ==>
        (After(old(queued), log).completed == |old(queued)| <==> AllFit(config, old(queued)))
      ensures (!old(run) && !ctxNil && !config.sampled && SoundGraph(old(queued), byID)
               && AllFit(config, old(queued))) ==>
        (err.None? <==> NoneFailed(log) && !interrupted)
      ensures !old(run) && !ctxNil && old(queued) != [] && SoundGraph(old(queued), byID) && err.Some? ==>
        Explains(config, old(queued), log, interrupted, blame, err.value)
      ensures err == Some(ErrRejected) ==> old(run) || ctxNil || !Closed(byID)
      ensures err == Some(ErrCycle) ==> Indexes(byID, old(queued)) && Cyclic(byID)
    {
      byID, log, interrupted := map[], [], false;
      if run {
        return Some(ErrRejected), byID, log, interrupted;
      }
      run := true;
      var jobs := queued;
      queued := [];
      err, byID, log, interrupted := Run(config, ctxNil, jobs, spins, blame);
      run := false;
    }
  }
}
